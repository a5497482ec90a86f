/** The answers of the status commands about the provisioning tables. */
module Replies {
  import opened Types
  import opened Text
  import opened Names
  import opened Kernel
  import opened Provision
  import opened ProvisionInvariant
  import opened ProvisionTheorems

  const OK := "RESULT: OK\nBODY: "
  const NOT_FOUND := "RESULT: NOTFOUND\n"
  const NULL := "RESULT: NULL\n"
  const INVALID := "RESULT: INVALID\nBODY: Use HELP for command syntax\n"

  // ---- address arguments ----

  predicate IsHex(c: char) { '0' <= c <= '9' || 'a' <= c <= 'f' || 'A' <= c <= 'F' }

  function Lower(c: char): char { if 'A' <= c <= 'Z' then c + 32 as char else c }

  predicate IsMacText(t: string) {
    |t| == 17 && forall i :: 0 <= i < 17 ==> if i % 3 == 2 then t[i] == ':' else IsHex(t[i])
  }

  ghost function LowerAll(t: string): string { seq(|t|, i requires 0 <= i < |t| => Lower(t[i])) }

  /** valid_mac */
  method ValidMac(t: string) returns (r: Option<string>)
    ensures r == if IsMacText(t) then Some(LowerAll(t)) else None
  {
    if |t| != 17 {
      return None;
    }
    var n := [];
    for i := 0 to 17
      invariant |n| == i && forall j :: 0 <= j < i ==> n[j] == Lower(t[j])
      invariant forall j :: 0 <= j < i ==> if j % 3 == 2 then t[j] == ':' else IsHex(t[j])
    {
      if if i % 3 == 2 then t[i] != ':' else !IsHex(t[i]) {
        return None;
      }
      n := n + [Lower(t[i])];
    }
    r := Some(n);
    assert n == LowerAll(t);
  }

  function HexValue(c: char): (d: nat)
    requires IsHex(c)
    ensures d < 16 && HexDigit(d) == Lower(c) == "0123456789abcdef"[d]
  {
    if '0' <= c <= '9' then (c - '0') as nat
    else if 'a' <= c <= 'f' then (c - 'a') as nat + 10
    else (c - 'A') as nat + 10
  }

  function ByteAt(t: string, i: nat): (b: byte)
    requires i + 1 < |t| && IsHex(t[i]) && IsHex(t[i + 1])
  {
    HexValue(t[i]) * 16 + HexValue(t[i + 1])
  }

  lemma ByteText(t: string, i: nat)
    requires i + 1 < |t| && IsHex(t[i]) && IsHex(t[i + 1])
    ensures Hex2(ByteAt(t, i)) == [Lower(t[i]), Lower(t[i + 1])] == LowerAll(t)[i..i + 2]
  {
    hide HexDigit, HexValue;
    Nibbles(HexValue(t[i]), HexValue(t[i + 1]));
  }

  lemma Nibbles(hi: nat, lo: nat)
    requires hi < 16 && lo < 16
    ensures (hi * 16 + lo) / 16 == hi && (hi * 16 + lo) % 16 == lo
  {}

  /** The address a text stands for. */
  function MacOfText(t: string): (m: Mac)
    requires IsMacText(t)
  {
    Mac(ByteAt(t, 0), ByteAt(t, 3), ByteAt(t, 6), ByteAt(t, 9), ByteAt(t, 12), ByteAt(t, 15))
  }

  /** Every accepted text normalises to the text of an address, so a lookup of the normalised
      text is a lookup of that address; upper and lower case do not matter. */
  lemma NormalisedText(t: string)
    requires IsMacText(t)
    ensures LowerAll(t) == MacText(MacOfText(t))
  {
    hide ByteAt, Hex2;
    var a := LowerAll(t);
    ByteText(t, 0);
    ByteText(t, 3);
    ByteText(t, 6);
    ByteText(t, 9);
    ByteText(t, 12);
    ByteText(t, 15);
    assert a[2..3] == ":" && a[5..6] == ":" && a[8..9] == ":" && a[11..12] == ":" && a[14..15] == ":";
    assert a == a[0..2] + a[2..3] + a[3..5] + a[5..6] + a[6..8] + a[8..9]
      + a[9..11] + a[11..12] + a[12..14] + a[14..15] + a[15..17];
  }

  lemma HexOfDigit(d: nat)
    requires d < 16
    ensures IsHex(HexDigit(d)) && Lower(HexDigit(d)) == HexDigit(d) && HexValue(HexDigit(d)) == d
  {
    HexDigitInjective(HexValue(HexDigit(d)), d);
  }

  /** Two hexadecimal digits at position i stand for the byte b. */
  ghost predicate ByteIs(t: string, i: nat, b: byte) {
    i + 2 <= |t| && IsHex(t[i]) && IsHex(t[i + 1]) && 16 * HexValue(t[i]) + HexValue(t[i + 1]) == b
  }

  /** A character as it may stand at place i of the text of an address, in lower case. */
  ghost predicate Fits(c: char, i: nat) { (if i % 3 == 2 then c == ':' else IsHex(c)) && Lower(c) == c }

  lemma Hex2Reads(t: string, i: nat, b: byte)
    requires i + 2 <= |t| && i % 3 == 0 && t[i..i + 2] == Hex2(b)
    ensures ByteIs(t, i, b) && Fits(t[i], i) && Fits(t[i + 1], i + 1)
  {
    hide HexValue, HexDigit, IsHex, Lower;
    assert t[i] == t[i..i + 2][0] && t[i + 1] == t[i..i + 2][1];
    HexOfDigit(b / 16);
    HexOfDigit(b % 16);
  }

  lemma MacTextParts(m: Mac)
    ensures var t := MacText(m);
      && t[0..2] == Hex2(m.b0) && t[3..5] == Hex2(m.b1) && t[6..8] == Hex2(m.b2)
      && t[9..11] == Hex2(m.b3) && t[12..14] == Hex2(m.b4) && t[15..17] == Hex2(m.b5)
      && t[2] == ':' && t[5] == ':' && t[8] == ':' && t[11] == ':' && t[14] == ':'
  {
    hide Hex2;
  }

  /** The text of an address holds its six bytes in order, each at its place. */
  lemma MacTextReads(m: Mac)
    ensures var t := MacText(m);
      && IsMacText(t) && LowerAll(t) == t
      && ByteIs(t, 0, m.b0) && ByteIs(t, 3, m.b1) && ByteIs(t, 6, m.b2)
      && ByteIs(t, 9, m.b3) && ByteIs(t, 12, m.b4) && ByteIs(t, 15, m.b5)
  {
    hide MacText, ByteIs, Fits, IsMacText, LowerAll;
    var t := MacText(m);
    MacTextParts(m);
    Hex2Reads(t, 0, m.b0);
    Hex2Reads(t, 3, m.b1);
    Hex2Reads(t, 6, m.b2);
    Hex2Reads(t, 9, m.b3);
    Hex2Reads(t, 12, m.b4);
    Hex2Reads(t, 15, m.b5);
    ColonFits();
    AllFit(t);
  }

  lemma AllFit(t: string)
    requires |t| == 17 && Fits(t[0], 0) && Fits(t[1], 1) && Fits(t[2], 2) && Fits(t[3], 3) && Fits(t[4], 4)
    requires Fits(t[5], 5) && Fits(t[6], 6) && Fits(t[7], 7) && Fits(t[8], 8) && Fits(t[9], 9) && Fits(t[10], 10)
    requires Fits(t[11], 11) && Fits(t[12], 12) && Fits(t[13], 13) && Fits(t[14], 14) && Fits(t[15], 15)
    requires Fits(t[16], 16)
    ensures IsMacText(t) && LowerAll(t) == t
  {
    hide IsHex, Lower;
    assert forall i: nat :: i < 17 ==> Fits(t[i], i) by {
      hide Fits;
    }
  }

  lemma ColonFits()
    ensures Fits(':', 2) && Fits(':', 5) && Fits(':', 8) && Fits(':', 11) && Fits(':', 14)
  {}

  /** A text is accepted exactly when, in lower case, it is the text of some address, and then it
      denotes that address. */
  lemma MacTextExact(t: string, m: Mac)
    ensures LowerAll(t) == MacText(m) <==> IsMacText(t) && MacOfText(t) == m
  {
    hide MacText, MacOfText;
    if IsMacText(t) {
      NormalisedText(t);
      if LowerAll(t) == MacText(m) {
        MacTextInjective(MacOfText(t), m);
      }
    }
    if LowerAll(t) == MacText(m) {
      MacTextReads(m);
      LowerIsHex(t);
    }
  }

  lemma LowerIsHex(t: string)
    requires IsMacText(LowerAll(t))
    ensures IsMacText(t)
  {
    var a := LowerAll(t);
    forall i | 0 <= i < 17 ensures if i % 3 == 2 then t[i] == ':' else IsHex(t[i]) {
      assert a[i] == Lower(t[i]);
    }
  }

  // ---- replies ----

  function Texts(macs: seq<Mac>): seq<string> {
    seq(|macs|, i requires 0 <= i < |macs| => MacText(macs[i]))
  }

  /** LMIP: the clients of one remote, in the given (sorted) order. */
  method ListClients(macs: seq<Mac>) returns (r: string)
    ensures r == OK + Join(Texts(macs), ';') + "\n"
  {
    hide MacText;
    r := OK;
    var i := 0;
    ghost var rest := Texts(macs);
    while i < |macs|
      invariant i <= |macs| && rest == Texts(macs)[i..]
      invariant OK + Join(Texts(macs), ';') + "\n" ==
        if i < |macs| then r + (Join(rest, ';') + "\n") else r + (if |macs| == 0 then "\n" else "")
    {
      var piece := MacText(macs[i]);
      assert rest[0] == piece && rest[1..] == Texts(macs)[i + 1..];
      JoinUnfold(rest, ';');
      var sep := if i + 1 < |macs| then ";" else "\n";
      Regroup(r, piece, sep, Join(rest[1..], ';'), "\n");
      r := r + (piece + sep);
      rest := rest[1..];
      i := i + 1;
    }
    if |macs| == 0 {
      r := r + "\n";
    }
  }

  lemma JoinUnfold(fields: seq<string>, d: char)
    requires fields != []
    ensures Join(fields, d) == if |fields| == 1 then fields[0] else fields[0] + [d] + Join(fields[1..], d)
  {}

  lemma Regroup(r: string, a: string, b: string, c: string, d: string)
    ensures r + (a + b + c + d) == r + (a + b) + (c + d)
    ensures r + (a + b) == r + (a + b) + ""
  {}

  /** One entry of STUN. */
  function TunnelText(prefix: string, t: Tunnel): string {
    IpText(t.remote) + "@" + TunnelName(prefix, t.id) + ";"
  }

  function TunnelTexts(prefix: string, tunnels: map<Ip, Tunnel>, order: seq<Ip>): string
    requires forall i :: 0 <= i < |order| ==> order[i] in tunnels
  {
    if order == [] then [] else TunnelText(prefix, tunnels[order[0]]) + TunnelTexts(prefix, tunnels, order[1..])
  }

  /** STUN: every tunnel once, in table order. */
  method ListTunnels(prefix: string, tunnels: map<Ip, Tunnel>, order: seq<Ip>) returns (r: string)
    requires Enumerates(order, tunnels.Keys)
    ensures forall i :: 0 <= i < |order| ==> order[i] in tunnels
    ensures r == if tunnels == map[] then NULL else OK + TunnelTexts(prefix, tunnels, order) + "\n"
  {
    assert forall i :: 0 <= i < |order| ==> order[i] in order;
    EnumeratesSize(order, tunnels.Keys);
    hide TunnelTexts, Enumerates;
    if |order| == 0 {
      return NULL;
    }
    var body := TunnelLoop(prefix, tunnels, order);
    r := OK + body + "\n";
  }

  method TunnelLoop(prefix: string, tunnels: map<Ip, Tunnel>, order: seq<Ip>) returns (r: string)
    requires forall i :: 0 <= i < |order| ==> order[i] in tunnels
    ensures r == TunnelTexts(prefix, tunnels, order)
  {
    hide TunnelText;
    r := [];
    var i := 0;
    assert order[0..] == order;
    while i < |order|
      invariant i <= |order| && TunnelTexts(prefix, tunnels, order) == r + TunnelTexts(prefix, tunnels, order[i..])
    {
      ghost var rest := order[i..];
      assert rest[0] == order[i] && rest[1..] == order[i + 1..];
      var piece := TunnelText(prefix, tunnels[order[i]]);
      Append3(r, piece, TunnelTexts(prefix, tunnels, order[i + 1..]));
      r := r + piece;
      i := i + 1;
    }
  }

  lemma Append3(a: string, b: string, c: string)
    ensures a + (b + c) == a + b + c
  {}

  /** The entries of a listing, without the semicolons that end them. */
  ghost function Entries(prefix: string, tunnels: map<Ip, Tunnel>, order: seq<Ip>): seq<string>
    requires forall i :: 0 <= i < |order| ==> order[i] in tunnels
  {
    seq(|order|, i requires 0 <= i < |order| =>
      IpText(tunnels[order[i]].remote) + "@" + TunnelName(prefix, tunnels[order[i]].id))
  }

  /** The body of STUN, cut at its semicolons, is one entry for each tunnel in table order: its
      remote, an @ and its interface name. */
  lemma {:induction false} StunReads(prefix: string, tunnels: map<Ip, Tunnel>, order: seq<Ip>)
    requires ';' !in prefix && forall i :: 0 <= i < |order| ==> order[i] in tunnels
    ensures Split(TunnelTexts(prefix, tunnels, order), ';') == Entries(prefix, tunnels, order) + [""]
    decreases |order|
  {
    hide Split, IpText, TunnelName;
    if order == [] {
      SplitWhole("", ';');
    } else {
      var t, rest := tunnels[order[0]], TunnelTexts(prefix, tunnels, order[1..]);
      var entry := IpText(t.remote) + "@" + TunnelName(prefix, t.id);
      StunReads(prefix, tunnels, order[1..]);
      NoSemicolon(prefix, t);
      SplitAt(entry, rest, ';');
      assert TunnelTexts(prefix, tunnels, order) == entry + ";" + rest;
      assert Entries(prefix, tunnels, order) == [entry] + Entries(prefix, tunnels, order[1..]);
    }
  }

  lemma NoSemicolon(prefix: string, t: Tunnel)
    requires ';' !in prefix
    ensures ';' !in IpText(t.remote) + "@" + TunnelName(prefix, t.id)
  {
    hide Dec;
    var a := t.remote.bits;
    DecDigits(a / 0x100_0000, ';');
    DecDigits(a / 0x1_0000 % 256, ';');
    DecDigits(a / 0x100 % 256, ';');
    DecDigits(a % 256, ';');
    DecDigits(t.id, ';');
  }

  /** The body of LMIP, cut at its semicolons, is the texts of the clients. */
  lemma ClientsRead(macs: seq<Mac>)
    requires macs != []
    ensures Split(Join(Texts(macs), ';'), ';') == Texts(macs)
  {
    hide Split, Join, MacText;
    forall i | 0 <= i < |macs| ensures ';' !in Texts(macs)[i] {
      MacTextReads(macs[i]);
      NoSemicolonIn(MacText(macs[i]));
    }
    JoinSplits(Texts(macs), ';');
  }

  lemma NoSemicolonIn(t: string)
    requires IsMacText(t)
    ensures ';' !in t
  {
    forall i | 0 <= i < |t| ensures t[i] != ';' {
      assert if i % 3 == 2 then t[i] == ':' else IsHex(t[i]);
    }
  }

  /** GTMC: who owns an address. */
  function OwnerReply(prefix: string, s: State, arg: string): string {
    if !IsMacText(arg) then INVALID
    else
      var m := MacOfText(arg);
      if m in s.macIndex && s.macIndex[m] in s.tunnels
      then OK + IpText(s.tunnels[s.macIndex[m]].remote) + "@" + TunnelName(prefix, s.tunnels[s.macIndex[m]].id) + "\n"
      else NOT_FOUND
  }

  // ---- size of the replies ----

  lemma {:induction false} JoinLength(fields: seq<string>, d: char, n: nat)
    requires forall i :: 0 <= i < |fields| ==> |fields[i]| == n
    ensures |Join(fields, d)| <= |fields| * (n + 1)
    decreases |fields|
  {
    if |fields| > 1 {
      JoinLength(fields[1..], d, n);
    }
  }

  lemma {:induction false} TunnelTextsLength(prefix: string, tunnels: map<Ip, Tunnel>, order: seq<Ip>)
    requires |prefix| <= PREFIX_MAX
    requires forall i :: 0 <= i < |order| ==> order[i] in tunnels && tunnels[order[i]].id < MAX_SLOTS
    ensures |TunnelTexts(prefix, tunnels, order)| <= 27 * |order|
    decreases |order|
  {
    if order != [] {
      hide Dec, IpText;
      var t := tunnels[order[0]];
      IpTextLength(t.remote);
      NamesFit(prefix, t.id, 0);
      TunnelTextsLength(prefix, tunnels, order[1..]);
    }
  }

  /** Whatever the run, neither listing reaches the limit at which a reply is replaced. */
  lemma RepliesBounded(env: Env, cfg: Config, foreign: set<nat>, events: seq<Event>, s: State, prefix: string,
                       order: seq<Ip>, r: Ip, macs: seq<Mac>)
    requires Reachable(env, cfg, foreign, events, s) && |prefix| <= PREFIX_MAX && Enumerates(order, s.tunnels.Keys)
    requires r in s.tunnels && Enumerates(macs, s.tunnels[r].macs)
    ensures forall i :: 0 <= i < |order| ==> order[i] in s.tunnels
    ensures |OK + TunnelTexts(prefix, s.tunnels, order) + "\n"| < MAX_RESPONSE
    ensures |OK + Join(Texts(macs), ';') + "\n"| < MAX_RESPONSE
  {
    hide Reachable, TunnelTexts, Join, TotalClients;
    TablesAgree(env, cfg, foreign, events, s, order);
    assert forall i :: 0 <= i < |order| ==> order[i] in order;
    EnumeratesSize(order, s.tunnels.Keys);
    EnumeratesSize(macs, s.tunnels[r].macs);
    IdsBounded(env, cfg, foreign, events, s);
    TunnelTextsLength(prefix, s.tunnels, order);
    JoinLength(Texts(macs), ';', 17);
  }

  lemma IdsBounded(env: Env, cfg: Config, foreign: set<nat>, events: seq<Event>, s: State)
    requires Reachable(env, cfg, foreign, events, s)
    ensures forall r :: r in s.tunnels ==> s.tunnels[r].id < MAX_SLOTS
  {
    ReachableSound(env, cfg, foreign, events, s);
    hide Reachable, Indexed, Hooks, Links, RulesExact, AllFenced, Admitted, DistinctIds, SlotsOwned;
  }

  /** GTMC names the remote whose learned clients include the address, and no other. */
  lemma OwnerReplyExact(env: Env, cfg: Config, foreign: set<nat>, events: seq<Event>, s: State,
                        prefix: string, arg: string)
    requires Reachable(env, cfg, foreign, events, s)
    ensures OwnerReply(prefix, s, arg) == INVALID <==> !IsMacText(arg)
    ensures IsMacText(arg) ==>
      forall r :: r in s.tunnels && MacOfText(arg) in s.tunnels[r].macs ==>
        OwnerReply(prefix, s, arg) == OK + IpText(r) + "@" + TunnelName(prefix, s.tunnels[r].id) + "\n"
    ensures IsMacText(arg) && (forall r :: r in s.tunnels ==> MacOfText(arg) !in s.tunnels[r].macs) ==>
      OwnerReply(prefix, s, arg) == NOT_FOUND
  {
    hide Reachable, MacOfText, IpText, TunnelName, Hooks, Links, RulesExact, AllFenced, Admitted,
      SlotsOwned, DistinctIds;
    ReachableSound(env, cfg, foreign, events, s);
    assert INVALID[8] == 'I' && OK[8] == 'O' && NOT_FOUND[8] == 'N';
    var out := OwnerReply(prefix, s, arg);
    assert out[8] == (if !IsMacText(arg) then 'I' else out[8]);
  }
}
