/** The bridge-map setting, from its text to the VLAN ports a tunnel gets. */
module BridgeMap {
  import opened Types
  import opened Text
  import opened Names
  import opened Cidr
  import opened Kernel
  import opened Firewall
  import opened Provision
  import opened ProvisionTheorems
  import opened ProvisionProgress
  import opened ProvisionVerdicts
  import Allowlist

  const MAX_ATTACH := 10
  const VLAN_MAX := 4094

  predicate IsNameChar(c: char) {
    IsDigit(c) || 'a' <= c <= 'z' || 'A' <= c <= 'Z' || c == '_' || c == '-' || c == '.'
  }

  /** config_valid_ifname */
  predicate ValidIfname(name: string) {
    && 0 < |name| <= NAME_MAX && name != "." && name != ".."
    && forall i :: 0 <= i < |name| ==> IsNameChar(name[i])
  }

  /** One trimmed field: a VLAN in range, '@' and the name of a bridge, with spaces around either. */
  function ParseBridge(f: string): (r: Option<Bridge>)
    ensures r.Some? ==> 1 <= r.value.vlan <= VLAN_MAX && ValidIfname(r.value.ifname)
  {
    var k := Find(f, '@');
    if k == |f| then None
    else
      var vlan, ifname := VlanOf(Trim(f[..k])), Trim(f[k + 1..]);
      if vlan.None? || !ValidIfname(ifname) then None else Some(Bridge(vlan.value, ifname))
  }

  function VlanOf(text: string): (v: Option<nat>)
    ensures v.Some? ==> 1 <= v.value <= VLAN_MAX
  {
    if IsNumber(text) && 1 <= Value(text) <= VLAN_MAX then Some(Value(text)) else None
  }

  /** A name the kernel takes: one to fifteen letters, digits, underscores, hyphens and dots, and
      neither of the two directory names. */
  ghost predicate LegalName(name: string) {
    && 1 <= |name| <= 15 && name != "." && name != ".."
    && forall c :: c in name ==>
         'a' <= c <= 'z' || 'A' <= c <= 'Z' || '0' <= c <= '9' || c == '_' || c == '-' || c == '.'
  }

  lemma NameExact(name: string)
    ensures ValidIfname(name) <==> LegalName(name)
  {
    if LegalName(name) {
      forall i | 0 <= i < |name| ensures IsNameChar(name[i]) {
        assert name[i] in name;
      }
    }
  }

  /** What a field says: a VLAN from 1 to 4094 in decimal and a legal name, with an @ between them
      and white space around either. */
  ghost predicate Says(f: string, vlan: nat, ifname: string) {
    && 1 <= vlan <= 4094 && LegalName(ifname)
    && exists a: string, b: string ::
         && f == a + "@" + b && '@' !in a
         && IsNumber(Trim(a)) && Value(Trim(a)) == vlan && Trim(b) == ifname
  }

  /** The parser reads a field as exactly what it says. */
  lemma BridgeExact(f: string, vlan: nat, ifname: string)
    ensures ParseBridge(f) == Some(Bridge(vlan, ifname)) <==> Says(f, vlan, ifname)
  {
    hide Trim, LegalName, ValidIfname, IsNumber;
    NameExact(ifname);
    var i := Find(f, '@');
    if i == |f| {
      forall a: string, b: string ensures f != a + "@" + b {
        assert (a + "@" + b)[|a|] == '@';
      }
    } else {
      assert f == f[..i] + "@" + f[i + 1..];
      forall a: string, b: string | f == a + "@" + b && '@' !in a ensures a == f[..i] && b == f[i + 1..] {
        CutAtSign(f, a, b);
      }
      NumberDigits(Trim(f[..i]));
    }
  }

  lemma NumberDigits(t: string)
    ensures IsNumber(t) ==> forall i :: 0 <= i < |t| ==> IsDigit(t[i])
  {}

  lemma CutAtSign(f: string, a: string, b: string)
    requires f == a + "@" + b && '@' !in a
    ensures var i := Find(f, '@'); i == |a| && a == f[..i] && b == f[i + 1..]
  {
    assert f[|a|] == '@' && forall j :: 0 <= j < |a| ==> f[j] == a[j];
  }

  /** A VLAN in decimal, an @ and a legal name are read back. */
  lemma BridgeReads(vlan: nat, ifname: string)
    requires 1 <= vlan <= 4094 && LegalName(ifname)
    ensures ParseBridge(Dec(vlan) + "@" + ifname) == Some(Bridge(vlan, ifname))
  {
    hide Dec, ParseBridge, Trim;
    var a := Dec(vlan);
    DecValue(vlan);
    DecDigits(vlan, '@');
    assert a[0] !in SPACES && a[|a| - 1] !in SPACES;
    TrimNothing(a);
    NameTight(ifname);
    TrimNothing(ifname);
    assert Says(a + "@" + ifname, vlan, ifname);
    BridgeExact(a + "@" + ifname, vlan, ifname);
  }

  lemma NameTight(name: string)
    requires LegalName(name)
    ensures name[0] !in SPACES && name[|name| - 1] !in SPACES
  {
    assert name[0] in name && name[|name| - 1] in name;
  }

  ghost predicate Parses(fields: seq<string>, bridges: seq<Bridge>) {
    |bridges| == |fields| && forall i :: 0 <= i < |fields| ==> ParseBridge(fields[i]) == Some(bridges[i])
  }

  /** Too many fields, a malformed one, or two for the same VLAN. */
  ghost predicate Rejected(fields: seq<string>) {
    || |fields| > 10
    || (exists i :: 0 <= i < |fields| && ParseBridge(fields[i]).None?)
    || exists i, j :: 0 <= i < j < |fields| && SameVlan(ParseBridge(fields[i]), ParseBridge(fields[j]))
  }

  predicate SameVlan(a: Option<Bridge>, b: Option<Bridge>) { a.Some? && b.Some? && a.value.vlan == b.value.vlan }

  /** Cut a field at its '@' and trim both halves where they stand; what follows the field in the
      buffer is left alone. */
  method CutBridge(buf: array<char>, p: nat, ghost f: string) returns (halves: Option<(string, string)>)
    requires Holds(buf[..], p, f)
    modifies buf
    ensures p + |f| <= buf.Length && buf[p + |f|..] == old(buf[p + |f|..])
    ensures var k := Find(f, '@');
      halves == if k == |f| then None else Some((Trim(f[..k]), Trim(f[k + 1..])))
  {
    hide Trim, Find, Holds;
    var k := StrChr(buf, p, '@', f);
    HeldAt(buf[..], p, f, k);
    if buf[p + k] == NUL {
      return None;
    }
    CutAt(buf, p, k, f);
    TrimBoth(buf, p, p + k + 1, f[..k], f[k + 1..]);
    var vlan := ReadString(buf, p, Trim(f[..k]));
    var name := ReadString(buf, p + k + 1, Trim(f[k + 1..]));
    halves := Some((vlan, name));
  }

  method CutAt(buf: array<char>, p: nat, k: nat, ghost f: string)
    requires Holds(buf[..], p, f) && k < |f|
    modifies buf
    ensures Holds(buf[..], p, f[..k]) && Holds(buf[..], p + k + 1, f[k + 1..])
    ensures p + |f| <= buf.Length && buf[p + |f|..] == old(buf[p + |f|..])
  {
    CutField(buf[..], p, f, k);
    ghost var B := buf[..];
    buf[p + k] := NUL;
    assert buf[..] == B[p + k := NUL];
  }

  /** Trim two strings that stand one behind the other. */
  method TrimBoth(buf: array<char>, p: nat, at: nat, ghost a: string, ghost b: string)
    requires Holds(buf[..], p, a) && at == p + |a| + 1 && Holds(buf[..], at, b)
    modifies buf
    ensures Holds(buf[..], p, Trim(a)) && Holds(buf[..], at, Trim(b))
    ensures at + |b| <= buf.Length && buf[at + |b|..] == old(buf[at + |b|..])
  {
    hide Trim;
    ghost var B := buf[..];
    StrTrim(buf, p, a);
    ghost var C := buf[..];
    StillHeld(B, C, p + |a|, at, b);
    StrTrim(buf, at, b);
    PrefixHeld(C, buf[..], p, at, Trim(a));
    TailLater(B, C, p + |a|, at + |b|);
  }

  lemma PrefixHeld(b: seq<char>, c: seq<char>, p: nat, upto: nat, s: string)
    requires |b| == |c| && upto <= |b| && c[..upto] == b[..upto] && Holds(b, p, s) && p + |s| < upto
    ensures Holds(c, p, s)
  {
    forall j | 0 <= j < upto ensures c[j] == b[j] {
      assert c[..upto][j] == b[..upto][j];
    }
    assert c[p..p + |s|] == b[p..p + |s|];
  }

  /** One round of the loop: the next field, cut off, trimmed, and cut again at its '@'. */
  method NextBridge(buf: array<char>, p: nat, ghost s: string)
    returns (halves: Option<(string, string)>, cursor: Option<nat>)
    requires Holds(buf[..], p, s)
    modifies buf
    ensures var i := Find(s, ',');
      && var f := Trim(s[..i]);
      && var k := Find(f, '@');
      && halves == (if k == |f| then None else Some((Trim(f[..k]), Trim(f[k + 1..]))))
      && (cursor.Some? <==> i < |s|)
      && (i < |s| ==> Holds(buf[..], cursor.value, s[i + 1..]))
  {
    hide Trim, Find, Holds;
    ghost var i := Find(s, ',');
    Fits(buf[..], p, s);
    cursor := StrSplitNext(buf, p, ',', s);
    ghost var B := buf[..];
    StrTrim(buf, p, s[..i]);
    ghost var f := Trim(s[..i]);
    ghost var C := buf[..];
    if cursor.Some? {
      StillHeld(B, C, p + i, p + i + 1, s[i + 1..]);
    }
    halves := CutBridge(buf, p, f);
    if cursor.Some? {
      StillHeld(C, buf[..], p + |f|, p + i + 1, s[i + 1..]);
    }
  }

  /** The next field as a bridge, if it is one. */
  method ReadBridge(buf: array<char>, p: nat, ghost s: string) returns (b: Option<Bridge>, cursor: Option<nat>)
    requires Holds(buf[..], p, s)
    modifies buf
    ensures var i := Find(s, ',');
      && b == ParseBridge(Trim(s[..i]))
      && (cursor.Some? <==> i < |s|)
      && (i < |s| ==> Holds(buf[..], cursor.value, s[i + 1..]))
  {
    hide Trim, Find, Holds, VlanOf, ValidIfname, ParseBridge;
    BridgeIs(Trim(s[..Find(s, ',')]));
    var halves;
    halves, cursor := NextBridge(buf, p, s);
    if halves.None? {
      return None, cursor;
    }
    var vlan, ifname := VlanOf(halves.value.0), halves.value.1;
    if vlan.None? || !ValidIfname(ifname) {
      return None, cursor;
    }
    b := Some(Bridge(vlan.value, ifname));
  }

  /** parse_bridges: succeeds exactly when there are at most ten fields, each parses, and no VLAN
      occurs twice; what it yields is what the fields say. */
  method ParseBridges(list: string) returns (r: Option<seq<Bridge>>)
    requires NUL !in list
    ensures var fields := TrimEach(Split(list, ','));
      && (r.None? <==> Rejected(fields))
      && (r.Some? ==> Parses(fields, r.value) && r.value != [] && DistinctVlans(r.value))
  {
    hide Split, Trim, TrimEach, ParseBridge, Parses, Rejected, DistinctVlans, Find;
    ghost var F := TrimEach(Split(list, ','));
    var buf := new char[|list| + 1](i requires 0 <= i <= |list| => if i < |list| then list[i] else NUL);
    assert buf[0..|list|] == list;
    var cursor := Some(0);
    ghost var rest := list;
    var bridges: seq<Bridge> := [];
    ParsesNone(F);
    while cursor.Some?
      invariant |bridges| <= |F| && |bridges| <= MAX_ATTACH
      invariant Parses(F[..|bridges|], bridges) && DistinctVlans(bridges)
      invariant cursor.Some? ==> Holds(buf[..], cursor.value, rest) && F == F[..|bridges|] + TrimEach(Split(rest, ','))
      invariant cursor.None? ==> |bridges| == |F| > 0
      decreases cursor.Some?, |rest|
    {
      ghost var i := Find(rest, ',');
      FieldAhead(F, |bridges|, rest, ',');
      var b;
      b, cursor := ReadBridge(buf, cursor.value, rest);
      if b.None? || |bridges| >= MAX_ATTACH {
        RejectedBy(F, |bridges|);
        return None;
      }
      var taken := VlanTaken(bridges, b.value.vlan);
      if taken {
        RejectedTwice(F, bridges, b.value);
        return None;
      }
      ParsesMore(F, bridges, b.value);
      bridges := bridges + [b.value];
      if i < |rest| {
        rest := rest[i + 1..];
      }
    }
    assert F[..|bridges|] == F;
    ParsesAll(F, bridges);
    r := if |bridges| > 0 then Some(bridges) else None;
  }

  method VlanTaken(bridges: seq<Bridge>, vlan: nat) returns (taken: bool)
    ensures taken <==> exists i :: 0 <= i < |bridges| && bridges[i].vlan == vlan
  {
    taken := false;
    for i := 0 to |bridges|
      invariant taken <==> exists j :: 0 <= j < i && bridges[j].vlan == vlan
    {
      if bridges[i].vlan == vlan {
        taken := true;
      }
    }
  }

  /** The decisions of the loop on the two halves are those of the field. */
  lemma BridgeIs(f: string)
    ensures var k := Find(f, '@');
      ParseBridge(f) ==
        if k == |f| then None
        else
          var vlan, ifname := VlanOf(Trim(f[..k])), Trim(f[k + 1..]);
          if vlan.None? || !ValidIfname(ifname) then None else Some(Bridge(vlan.value, ifname))
  {}

  lemma ParsesNone(F: seq<string>)
    ensures Parses(F[..0], []) && DistinctVlans([]) && F == F[..0] + F
  {}

  lemma ParsesMore(F: seq<string>, bridges: seq<Bridge>, b: Bridge)
    requires |bridges| < |F| && Parses(F[..|bridges|], bridges) && DistinctVlans(bridges)
    requires ParseBridge(F[|bridges|]) == Some(b)
    requires !exists i :: 0 <= i < |bridges| && bridges[i].vlan == b.vlan
    ensures Parses(F[..|bridges| + 1], bridges + [b]) && DistinctVlans(bridges + [b])
  {
    hide ParseBridge;
    assert F[..|bridges| + 1] == F[..|bridges|] + [F[|bridges|]];
    var all := bridges + [b];
    forall i, j | 0 <= i < j < |all| ensures all[i].vlan != all[j].vlan {
      assert bridges[i] == all[i];
    }
  }

  lemma RejectedBy(F: seq<string>, n: nat)
    requires n < |F| && (ParseBridge(F[n]).None? || n >= MAX_ATTACH)
    ensures Rejected(F)
  {}

  lemma RejectedTwice(F: seq<string>, bridges: seq<Bridge>, b: Bridge)
    requires |bridges| < |F| && Parses(F[..|bridges|], bridges) && ParseBridge(F[|bridges|]) == Some(b)
    requires exists i :: 0 <= i < |bridges| && bridges[i].vlan == b.vlan
    ensures Rejected(F)
  {
    hide ParseBridge;
    var i :| 0 <= i < |bridges| && bridges[i].vlan == b.vlan;
    assert F[..|bridges|][i] == F[i];
    assert SameVlan(ParseBridge(F[i]), ParseBridge(F[|bridges|]));
  }

  lemma ParsesAll(F: seq<string>, bridges: seq<Bridge>)
    requires Parses(F, bridges) && DistinctVlans(bridges) && |bridges| <= MAX_ATTACH
    ensures !Rejected(F)
  {
    hide ParseBridge;
  }

  /** Every port name an accepted configuration can lead to fits the kernel's limit. */
  lemma ConfiguredNamesFit(prefix: string, fields: seq<string>, bridges: seq<Bridge>, id: nat, b: Bridge)
    requires |prefix| <= PREFIX_MAX && Parses(fields, bridges) && id < MAX_SLOTS && b in bridges
    ensures |TunnelName(prefix, id)| <= NAME_MAX && |PortName(prefix, id, b.vlan)| <= NAME_MAX
  {
    hide ParseBridge, Dec;
    var i :| 0 <= i < |bridges| && bridges[i] == b;
    assert ParseBridge(fields[i]) == Some(b);
    NamesFit(prefix, id, b.vlan);
  }

  /** What the two settings mean for a packet. With an accepted bridge map and allowlist, a packet
      for this host is learned, whenever there is room, no backoff runs and none of the
      commands it takes fails, if its VLAN stands in the map, an entry of the list covers its
      sender, and the sender is a possible peer; nothing more is asked. */
  lemma ConfiguredIsLearned(env: Env, cfg: Config, pton: string -> Option<Ip>, list: string, allow: seq<string>,
                            foreign: set<nat>, events: seq<Event>, s: State, p: Packet, now: int, b: Bridge)
    requires !Rejected(TrimEach(Split(list, ','))) && Parses(TrimEach(Split(list, ',')), cfg.bridges)
    requires if allow == [] then cfg.allow == [] else Allowlist.Parses(pton, allow, cfg.allow)
    requires Reachable(env, cfg, foreign, events, s) && !s.cleanupPending && s.retryAfter <= now
    requires p.local == cfg.local && p.remote != cfg.local
    requires 0x0100_0000 <= p.remote.bits < 0xE000_0000 && !(0x7F00_0000 <= p.remote.bits < 0x8000_0000)
    requires allow == [] || exists i :: 0 <= i < |allow| && Allowlist.Covers(pton, allow[i], p.remote)
    requires b in cfg.bridges && b.vlan == p.vlan
    requires p.mac !in s.macIndex && !NoRoom(s, p.remote)
    requires Cooperates(env, |s.w.log|, |s.w.log| + AddCost(cfg, s, p.remote) + 2)
    ensures var h := HandlePacket(env, cfg, s, p, now);
      h.verdict == Learned && p.mac in h.s.macIndex && h.s.macIndex[p.mac] == p.remote
  {
    hide Reachable, HandlePacket, Cooperates, ParseBridge, NoRoom, AddCost, Allowlist.Parses, Allowlist.Covers, Listed,
      RemoteAllowed;
    ParsedVlansDistinct(TrimEach(Split(list, ',')), cfg.bridges);
    if allow != [] {
      Allowlist.AllowlistExact(pton, allow, cfg.allow, p.remote);
    } else {
      assert RemoteAllowed(cfg.allow, p.remote) by { NoListAllows(p.remote); }
    }
    ListedExact(cfg.allow, p.remote);
    assert Serviceable(cfg, s, p);
    ServiceableIsLearned(env, cfg, foreign, events, s, p, now);
  }

  lemma NoListAllows(a: Ip)
    ensures RemoteAllowed([], a)
  {}

  lemma ParsedVlansDistinct(fields: seq<string>, bridges: seq<Bridge>)
    requires !Rejected(fields) && Parses(fields, bridges)
    ensures DistinctVlans(bridges)
  {
    hide ParseBridge;
    forall i, j | 0 <= i < j < |bridges| ensures bridges[i].vlan != bridges[j].vlan {
      assert !SameVlan(ParseBridge(fields[i]), ParseBridge(fields[j]));
    }
  }
}
