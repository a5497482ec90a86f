/** The allow-remotes setting, from its text to the peers that can ever own a tunnel. */
module Allowlist {
  import opened Types
  import opened Cidr
  import opened Bits
  import opened Text
  import opened Names
  import opened Kernel
  import opened Provision
  import opened ProvisionInvariant
  import opened ProvisionTheorems

  const MAX_ALLOW := 64

  /** A trimmed entry: an address, or an address and a prefix length of at most 32. */
  datatype Prefix = Prefix(addr: Ip, bits: nat)

  function ParseEntry(pton: string -> Option<Ip>, e: string): (r: Option<Prefix>)
    ensures r.Some? ==> r.value.bits <= 32
  {
    var i := Find(e, '/');
    var addr, suffix := pton(e[..i]), if i < |e| then e[i + 1..] else "32";
    if e == [] || !IsNumber(suffix) || Value(suffix) > 32 || addr.None? then None
    else Some(Prefix(addr.value, Value(suffix)))
  }

  /** What an entry says: an address alone is itself and nothing else, and behind a slash stands the
      number of leading bits that count, in decimal and at most 32. */
  ghost predicate Says(pton: string -> Option<Ip>, e: string, addr: Ip, bits: nat) {
    || (e != [] && '/' !in e && pton(e) == Some(addr) && bits == 32)
    || exists a: string, k: string ::
         && e == a + "/" + k && '/' !in a && pton(a) == Some(addr)
         && IsNumber(k) && Value(k) == bits <= 32
  }

  /** The parser reads an entry as exactly what it says. */
  lemma EntryExact(pton: string -> Option<Ip>, e: string, addr: Ip, bits: nat)
    ensures ParseEntry(pton, e) == Some(Prefix(addr, bits)) <==> Says(pton, e, addr, bits)
  {
    var i := Find(e, '/');
    if i == |e| {
      assert e[..i] == e;
      BareBits();
      forall a: string, k: string ensures e != a + "/" + k {
        assert (a + "/" + k)[|a|] == '/';
      }
    } else {
      assert e == e[..i] + "/" + e[i + 1..] && e[i] == '/';
      forall a: string, k: string | e == a + "/" + k && '/' !in a ensures a == e[..i] && k == e[i + 1..] {
        CutAtSlash(e, a, k);
      }
    }
  }

  lemma CutAtSlash(e: string, a: string, k: string)
    requires e == a + "/" + k && '/' !in a
    ensures var i := Find(e, '/'); i == |a| && a == e[..i] && k == e[i + 1..]
  {
    assert e[|a|] == '/' && forall j :: 0 <= j < |a| ==> e[j] == a[j];
  }

  lemma BareBits()
    ensures IsNumber("32") && Value("32") == 32
  {
    assert "32"[..1] == "3" && "3"[..0] == "";
    assert Value("3") == 3;
  }

  /** An address, a slash and a number up to 32 in decimal; a larger number is refused. */
  lemma EntryReads(pton: string -> Option<Ip>, a: string, n: nat)
    requires '/' !in a && pton(a).Some?
    ensures ParseEntry(pton, a + "/" + Dec(n)) == if n <= 32 then Some(Prefix(pton(a).value, n)) else None
  {
    hide Dec;
    var e := a + "/" + Dec(n);
    DecValue(n);
    CutAtSlash(e, a, Dec(n));
  }

  /** r lies in the network that an entry names. */
  ghost predicate Covers(pton: string -> Option<Ip>, e: string, r: Ip) {
    exists addr: Ip, bits: nat :: bits <= 32 && Says(pton, e, addr, bits) && SameNetwork(addr, r, bits)
  }

  ghost predicate Parses(pton: string -> Option<Ip>, fields: seq<string>, nets: seq<Network>) {
    && |nets| == |fields|
    && forall i :: 0 <= i < |fields| ==>
         var e := ParseEntry(pton, fields[i]); e.Some? && nets[i] == Stored(e.value.addr, e.value.bits)
  }

  ghost predicate Rejected(pton: string -> Option<Ip>, fields: seq<string>) {
    |fields| > 64 || exists i :: 0 <= i < |fields| && ParseEntry(pton, fields[i]).None?
  }

  /** parse_allow: splits and trims in one buffer, and stops at the first bad entry. */
  method ParseAllow(pton: string -> Option<Ip>, list: string) returns (r: Option<seq<Network>>)
    requires NUL !in list
    ensures var fields := TrimEach(Split(list, ','));
      && (r.None? <==> Rejected(pton, fields))
      && (r.Some? ==> Parses(pton, fields, r.value))
  {
    hide Split, Trim, TrimEach, ParseEntry, Stored, Parses;
    ghost var F := TrimEach(Split(list, ','));
    var buf := new char[|list| + 1](i requires 0 <= i <= |list| => if i < |list| then list[i] else NUL);
    assert buf[0..|list|] == list;
    var cursor := Some(0);
    ghost var rest := list;
    var nets: seq<Network> := [];
    ParsesNone(pton, F);
    while cursor.Some?
      invariant |nets| <= |F| && |nets| <= MAX_ALLOW && Parses(pton, F[..|nets|], nets)
      invariant cursor.Some? ==> Holds(buf[..], cursor.value, rest) && F == F[..|nets|] + TrimEach(Split(rest, ','))
      invariant cursor.None? ==> |nets| == |F|
      decreases cursor.Some?, |rest|
    {
      ghost var i := Find(rest, ',');
      FieldAhead(F, |nets|, rest, ',');
      var entry;
      entry, cursor := NextField(buf, cursor.value, ',', rest);
      EmptyRefused(pton);
      var e := ParseEntry(pton, entry);
      if entry == [] || |nets| >= MAX_ALLOW || e.None? {
        return None;
      }
      ParsesMore(pton, F, nets, e.value);
      nets := nets + [Stored(e.value.addr, e.value.bits)];
      if i < |rest| {
        rest := rest[i + 1..];
      }
    }
    assert F[..|nets|] == F;
    ParsesAll(pton, F, nets);
    r := Some(nets);
  }

  lemma ParsesNone(pton: string -> Option<Ip>, F: seq<string>)
    ensures Parses(pton, F[..0], []) && F == F[..0] + F
  {}

  lemma ParsesMore(pton: string -> Option<Ip>, F: seq<string>, nets: seq<Network>, e: Prefix)
    requires |nets| < |F| && Parses(pton, F[..|nets|], nets) && ParseEntry(pton, F[|nets|]) == Some(e)
    ensures e.bits <= 32 && Parses(pton, F[..|nets| + 1], nets + [Stored(e.addr, e.bits)])
  {
    hide ParseEntry, Stored;
    assert F[..|nets| + 1] == F[..|nets|] + [F[|nets|]];
  }

  lemma ParsesAll(pton: string -> Option<Ip>, F: seq<string>, nets: seq<Network>)
    requires Parses(pton, F, nets) && |nets| <= MAX_ALLOW
    ensures !Rejected(pton, F)
  {
    hide ParseEntry, Stored;
  }

  lemma EmptyRefused(pton: string -> Option<Ip>)
    ensures ParseEntry(pton, []).None?
  {}

  /** The stored list lets an address in if and only if some entry of the text names a network that
      contains it. */
  lemma AllowlistExact(pton: string -> Option<Ip>, fields: seq<string>, allow: seq<Network>, r: Ip)
    requires fields != [] && Parses(pton, fields, allow)
    ensures RemoteAllowed(allow, r) <==> exists i :: 0 <= i < |fields| && Covers(pton, fields[i], r)
  {
    hide ParseEntry, Stored, SameNetwork, Matches, Says;
    forall i | 0 <= i < |fields| ensures Matches(allow[i], r) <==> Covers(pton, fields[i], r) {
      CoversExact(pton, fields[i], allow[i], r);
    }
  }

  lemma CoversExact(pton: string -> Option<Ip>, e: string, n: Network, r: Ip)
    requires var p := ParseEntry(pton, e); p.Some? && n == Stored(p.value.addr, p.value.bits)
    ensures Matches(n, r) <==> Covers(pton, e, r)
  {
    hide ParseEntry, Stored, SameNetwork, Matches, Says;
    var p := ParseEntry(pton, e).value;
    StoredIsNetwork(p.addr, p.bits, r);
    EntryExact(pton, e, p.addr, p.bits);
    forall addr: Ip, bits: nat | Says(pton, e, addr, bits) ensures addr == p.addr && bits == p.bits {
      EntryExact(pton, e, addr, bits);
    }
  }

  /** Every remote that ever owns a tunnel lies in a configured network and is a possible peer. */
  lemma PeersAreListed(env: Env, cfg: Config, foreign: set<nat>, events: seq<Event>, s: State, r: Ip,
                       pton: string -> Option<Ip>, fields: seq<string>)
    requires Reachable(env, cfg, foreign, events, s) && r in s.tunnels
    requires fields != [] && Parses(pton, fields, cfg.allow)
    ensures r != cfg.local && 0x0100_0000 <= r.bits < 0xE000_0000 && !(0x7F00_0000 <= r.bits < 0x8000_0000)
    ensures exists i :: 0 <= i < |fields| && Covers(pton, fields[i], r)
  {
    hide Reachable, Parses, Unroutable, Covers, RemoteAllowed;
    ReachableSound(env, cfg, foreign, events, s);
    PeerAdmitted(cfg, s, r);
    RoutableRange(r);
    AllowlistExact(pton, fields, cfg.allow, r);
  }

  /** With a list of bare addresses, every remote that ever owns a tunnel is one of them. */
  lemma BarePeersAreListed(env: Env, cfg: Config, foreign: set<nat>, events: seq<Event>, s: State, r: Ip,
                           pton: string -> Option<Ip>, fields: seq<string>)
    requires Reachable(env, cfg, foreign, events, s) && r in s.tunnels
    requires fields != [] && Parses(pton, fields, cfg.allow)
    requires forall i :: 0 <= i < |fields| ==> '/' !in fields[i]
    ensures exists i :: 0 <= i < |fields| && pton(fields[i]) == Some(r)
  {
    hide Reachable, Parses;
    PeersAreListed(env, cfg, foreign, events, s, r, pton, fields);
    var i :| 0 <= i < |fields| && Covers(pton, fields[i], r);
    var addr: Ip, bits: nat :| bits <= 32 && Says(pton, fields[i], addr, bits) && SameNetwork(addr, r, bits);
    forall a: string, k: string ensures fields[i] != a + "/" + k {
      assert (a + "/" + k)[|a|] == '/';
    }
    assert bits == 32 && Pow2(0) == 1;
    assert addr.bits / 1 == r.bits / 1;
  }

  /** 0/8, 127/8 and everything from 224.0.0.0 up, as ranges of addresses. */
  lemma RoutableRange(a: Ip)
    ensures !Unroutable(a) <==>
      0x0100_0000 <= a.bits < 0xE000_0000 && !(0x7F00_0000 <= a.bits < 0x8000_0000)
  {}

  lemma PeerAdmitted(cfg: Config, s: State, r: Ip)
    requires Inv(cfg, s) && r in s.tunnels
    ensures Admitted(cfg, r)
  {
    hide Tables, Indexed, Hooks, Links, RulesExact, AllFenced;
  }
}
