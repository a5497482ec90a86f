/** The status commands, from the line a client sends to the reply it gets. */
module Commands {
  import opened Types
  import opened Text
  import opened Names
  import opened Kernel
  import opened Provision
  import opened ProvisionInvariant
  import opened ProvisionTheorems
  import opened Replies
  import opened Service

  // ---- strtok_r with blank, tabulator, carriage return and line feed ----

  predicate IsSep(c: char) { c == ' ' || c == '\t' || c == '\r' || c == '\n' }

  /** How far the first separator is away, or the end. */
  function WordEnd(s: string): (n: nat)
    ensures n <= |s| && (n < |s| ==> IsSep(s[n])) && forall i :: 0 <= i < n ==> !IsSep(s[i])
  {
    if s == [] || IsSep(s[0]) then 0 else 1 + WordEnd(s[1..])
  }

  function Tokens(s: string): seq<string>
    decreases |s|
  {
    if s == [] then []
    else if IsSep(s[0]) then Tokens(s[1..])
    else [s[..WordEnd(s)]] + Tokens(s[WordEnd(s)..])
  }

  ghost predicate IsWord(w: string) { w != [] && forall i :: 0 <= i < |w| ==> w[i] !in {' ', '\t', '\r', '\n'} }

  /** Nothing but words comes out. */
  lemma {:induction false} TokensAreWords(s: string)
    ensures forall t :: t in Tokens(s) ==> IsWord(t)
    decreases |s|
  {
    if s != [] {
      if IsSep(s[0]) {
        TokensAreWords(s[1..]);
      } else {
        TokensAreWords(s[WordEnd(s)..]);
      }
    }
  }

  /** A word is one token. */
  lemma TokensWord(w: string)
    requires IsWord(w)
    ensures Tokens(w) == [w]
  {
    assert WordEnd(w) == |w|;
    assert w[..|w|] == w && w[|w|..] == [];
  }

  /** A separator cuts the text; how many there are, and which, makes no difference. */
  lemma {:induction false} TokensCut(a: string, c: char, b: string)
    requires c in {' ', '\t', '\r', '\n'}
    ensures Tokens(a + [c] + b) == Tokens(a) + Tokens(b)
    decreases |a|
  {
    var s := a + [c] + b;
    if a == [] {
      assert s[0] == c && s[1..] == b;
    } else if IsSep(a[0]) {
      assert s[1..] == a[1..] + [c] + b;
      TokensCut(a[1..], c, b);
    } else {
      var n := WordEnd(a);
      WordEndFirst(a, c, b);
      if n < |a| {
        assert s[..n] == a[..n] && s[n..] == a[n..] + [c] + b;
        TokensCut(a[n..], c, b);
      } else {
        assert s[..n] == a[..n] && s[n..] == [c] + b;
        assert ([c] + b)[1..] == b;
        assert a[n..] == [];
      }
    }
  }

  lemma WordEndFirst(a: string, c: char, b: string)
    requires IsSep(c)
    ensures WordEnd(a + [c] + b) == WordEnd(a)
  {
    var s, n := a + [c] + b, WordEnd(a);
    var m := WordEnd(s);
    assert forall i :: 0 <= i < |a| ==> s[i] == a[i];
    assert s[|a|] == c;
    assert m <= |a|;
  }

  // ---- service_command ----

  /** What the commands look at: the tables, the order in which the table lists its keys and the
      sort puts addresses, the library's address parser, and the texts of VERS, HELP and STAT. */
  datatype View = View(prefix: string, s: State, order: seq<Ip>, sorted: set<Mac> -> seq<Mac>,
                       pton: string -> Option<Ip>, version: string, help: string, status: string)

  function ClientsReply(v: View, arg: string): string {
    var a := v.pton(arg);
    if a.None? then INVALID
    else if a.value in v.s.tunnels then OK + Join(Texts(v.sorted(v.s.tunnels[a.value].macs)), ';') + "\n"
    else NOT_FOUND
  }

  /** The table lists no keys but its own. */
  predicate Consistent(v: View) { forall i :: 0 <= i < |v.order| ==> v.order[i] in v.s.tunnels }

  function TunnelsReply(v: View): string {
    if v.s.tunnels == map[] || !Consistent(v) then NULL
    else OK + TunnelTexts(v.prefix, v.s.tunnels, v.order) + "\n"
  }

  function Dispatch(v: View, t: seq<string>): string {
    if |t| == 0 || |t| > 2 then INVALID
    else if t[0] == "LMIP" || t[0] == "GTMC" then
      if |t| != 2 then INVALID
      else if t[0] == "LMIP" then ClientsReply(v, t[1]) else OwnerReply(v.prefix, v.s, t[1])
    else if |t| != 1 then INVALID
    else if t[0] == "VERS" then v.version
    else if t[0] == "QUIT" then ""
    else if t[0] == "HELP" then v.help
    else if t[0] == "STAT" then v.status
    else if t[0] == "STUN" then TunnelsReply(v)
    else INVALID
  }

  function ServiceCommand(v: View, text: string): string {
    if |text| >= 256 then INVALID else Dispatch(v, Tokens(text))
  }

  /** The view is that of a reachable state, and the listings are complete. */
  ghost predicate Sees(env: Env, cfg: Config, foreign: set<nat>, events: seq<Event>, v: View) {
    && Reachable(env, cfg, foreign, events, v.s)
    && |v.prefix| <= PREFIX_MAX && Enumerates(v.order, v.s.tunnels.Keys)
    && (forall r :: r in v.s.tunnels ==> Enumerates(v.sorted(v.s.tunnels[r].macs), v.s.tunnels[r].macs))
  }

  /** A command and its argument, with blanks and a carriage return around them. */
  lemma TwoWords(cmd: string, arg: string)
    requires IsWord(cmd) && IsWord(arg)
    ensures Tokens(cmd + " " + arg) == [cmd, arg] && Tokens(cmd + " " + arg + "\r") == [cmd, arg]
  {
    hide Tokens;
    TokensCut(cmd, ' ', arg);
    TokensWord(cmd);
    TokensWord(arg);
    TokensCut(cmd + " " + arg, '\r', "");
    TokensNone();
    assert cmd + " " + arg + "\r" == cmd + " " + arg + ['\r'] + "";
    assert [cmd] + [arg] == [cmd, arg] && [cmd, arg] + [] == [cmd, arg];
  }

  lemma TokensNone()
    ensures Tokens("") == []
  {}

  lemma MacIsWord(t: string)
    requires IsMacText(t)
    ensures IsWord(t) && LF !in t && |t| == 17
  {
    forall i | 0 <= i < |t| ensures t[i] !in {' ', '\t', '\r', '\n'} {
      assert if i % 3 == 2 then t[i] == ':' else IsHex(t[i]);
    }
  }

  /** A client that sends GTMC and an address in either case, ended by a line feed with or without a
      carriage return, is told the remote that learned the address and its interface, or that
      there is none; whatever it sends behind that line makes no difference. */
  lemma OwnerAsked(env: Env, cfg: Config, foreign: set<nat>, events: seq<Event>, v: View, t: string, m: Mac,
                   cr: bool, rest: string)
    requires Sees(env, cfg, foreign, events, v) && LowerAll(t) == MacText(m)
    ensures var reply := Reply(x => ServiceCommand(v, x), "GTMC " + t + (if cr then "\r" else "") + "\n" + rest);
      && (m in v.s.macIndex ==>
            && var r := v.s.macIndex[m];
            && r in v.s.tunnels && m in v.s.tunnels[r].macs
            && reply == "RESULT: OK\nBODY: " + IpText(r) + "@" + TunnelName(v.prefix, v.s.tunnels[r].id) + "\n")
      && (m !in v.s.macIndex ==> reply == "RESULT: NOTFOUND\n")
  {
    hide Reply, MacText, LowerAll, Tokens, IpText, TunnelName, Reachable, Enumerates, IsMacText, MacOfText, TunnelTexts;
    MacTextExact(t, m);
    MacIsWord(t);
    GtmcIsWord();
    TwoWords("GTMC", t);
    var line := "GTMC " + t + (if cr then "\r" else "");
    assert "GTMC" + " " == "GTMC ";
    assert Tokens(line) == ["GTMC", t] by {
      assert !cr ==> line == "GTMC" + " " + t;
    }
    assert LF !in line;
    LineReply(x => ServiceCommand(v, x), line, rest);
    assert line + [LF] + rest == "GTMC " + t + (if cr then "\r" else "") + "\n" + rest;
    OwnerHasRecord(env, cfg, foreign, events, v.s, m);
    if m in v.s.macIndex {
      IdsBounded(env, cfg, foreign, events, v.s);
      IpTextLength(v.s.macIndex[m]);
      NamesFit(v.prefix, v.s.tunnels[v.s.macIndex[m]].id, 0);
    }
  }

  lemma GtmcIsWord()
    ensures IsWord("GTMC")
  {}

  lemma OwnerHasRecord(env: Env, cfg: Config, foreign: set<nat>, events: seq<Event>, s: State, m: Mac)
    requires Reachable(env, cfg, foreign, events, s)
    ensures m in s.macIndex ==>
      && var r := s.macIndex[m];
      && r in s.tunnels && m in s.tunnels[r].macs && s.tunnels[r].remote == r
  {
    ReachableSound(env, cfg, foreign, events, s);
    hide Reachable, Hooks, Links, RulesExact, AllFenced, Admitted, SlotsOwned, DistinctIds;
  }

  /** A client that sends LMIP and an address is told the learned clients of that remote. */
  lemma ClientsAsked(env: Env, cfg: Config, foreign: set<nat>, events: seq<Event>, v: View, arg: string, rest: string)
    requires Sees(env, cfg, foreign, events, v) && IsWord(arg) && |arg| < 200 && v.pton(arg).Some?
    ensures var r := v.pton(arg).value;
      Reply(x => ServiceCommand(v, x), "LMIP " + arg + "\n" + rest) ==
        if r in v.s.tunnels then "RESULT: OK\nBODY: " + Join(Texts(v.sorted(v.s.tunnels[r].macs)), ';') + "\n"
        else "RESULT: NOTFOUND\n"
  {
    hide Reply, Tokens, Reachable, Enumerates, Join, Texts, TunnelTexts, OwnerReply;
    LmipIsWord();
    TwoWords("LMIP", arg);
    var line := "LMIP " + arg;
    assert line == "LMIP" + " " + arg;
    assert LF !in line;
    LineReply(x => ServiceCommand(v, x), line, rest);
    assert line + [LF] + rest == "LMIP " + arg + "\n" + rest;
    var r := v.pton(arg).value;
    if r in v.s.tunnels {
      RepliesBounded(env, cfg, foreign, events, v.s, v.prefix, v.order, r, v.sorted(v.s.tunnels[r].macs));
    }
  }

  lemma LmipIsWord()
    ensures IsWord("LMIP")
  {}

  /** A client that sends STUN is told every tunnel once, or that there is none. */
  lemma TunnelsAsked(env: Env, cfg: Config, foreign: set<nat>, events: seq<Event>, v: View, rest: string)
    requires Sees(env, cfg, foreign, events, v)
    ensures forall i :: 0 <= i < |v.order| ==> v.order[i] in v.s.tunnels
    ensures Reply(x => ServiceCommand(v, x), "STUN\n" + rest) ==
      if v.s.tunnels == map[] then "RESULT: NULL\n"
      else "RESULT: OK\nBODY: " + TunnelTexts(v.prefix, v.s.tunnels, v.order) + "\n"
  {
    assert forall i :: 0 <= i < |v.order| ==> v.order[i] in v.order;
    hide Reply, ServiceCommand, Reachable, Enumerates, TunnelTexts, Join, Texts;
    StunCommand(v);
    if v.s.tunnels != map[] {
      StunFits(env, cfg, foreign, events, v);
    }
    LineEnds("STUN", rest);
    LineReply(x => ServiceCommand(v, x), "STUN", rest);
  }

  lemma LineEnds(line: string, rest: string)
    ensures line + [LF] + rest == line + "\n" + rest && "STUN" + "\n" == "STUN\n"
  {}

  lemma StunFits(env: Env, cfg: Config, foreign: set<nat>, events: seq<Event>, v: View)
    requires Sees(env, cfg, foreign, events, v) && Consistent(v) && v.s.tunnels != map[]
    ensures |OK + TunnelTexts(v.prefix, v.s.tunnels, v.order) + "\n"| <= 1_048_576
  {
    hide Reachable, Enumerates, TunnelTexts, Join, Texts;
    var r :| r in v.s.tunnels;
    RepliesBounded(env, cfg, foreign, events, v.s, v.prefix, v.order, r, v.sorted(v.s.tunnels[r].macs));
  }

  lemma StunCommand(v: View)
    requires Consistent(v)
    ensures LF !in "STUN" && ServiceCommand(v, "STUN") ==
      if v.s.tunnels == map[] then NULL else OK + TunnelTexts(v.prefix, v.s.tunnels, v.order) + "\n"
  {
    hide Tokens, TunnelTexts, OwnerReply, ClientsReply;
    assert IsWord("STUN");
    TokensWord("STUN");
  }

  const REFUSAL := "RESULT: INVALID\nBODY: Use HELP for command syntax\n"

  /** Anything that is not one of the seven commands with the right number of words is refused with
      the same text. */
  lemma Refused(v: View, text: string)
    ensures var t := Tokens(text);
      && (|text| >= 256 || |t| == 0 || |t| > 2 ==> ServiceCommand(v, text) == REFUSAL)
      && (|t| == 2 && t[0] !in {"LMIP", "GTMC"} ==> ServiceCommand(v, text) == REFUSAL)
      && (|t| == 1 && t[0] !in {"VERS", "QUIT", "HELP", "STAT", "STUN"} ==> ServiceCommand(v, text) == REFUSAL)
  {
    hide Tokens, ClientsReply, OwnerReply, TunnelsReply;
  }
}
