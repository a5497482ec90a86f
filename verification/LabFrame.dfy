/** The frames the lab tools build, read back by the parser. */
module LabFrame {
  import opened Types
  import opened Payload
  import opened PayloadGrammar
  import opened PayloadLayout

  function WordSum(d: Bytes): nat
    requires |d| % 2 == 0
  {
    if d == [] then 0 else Read16(d, 0) + WordSum(d[2..])
  }

  /** Ones' complement folding to sixteen bits. */
  function Fold(t: nat): nat {
    if t < 0x10000 then t else Fold(t % 0x10000 + t / 0x10000)
  }

  lemma {:induction false} FoldKeepsResidue(t: nat)
    ensures Fold(t) < 0x10000 && Fold(t) % 0xFFFF == t % 0xFFFF && (t > 0 ==> Fold(t) > 0)
  {
    if t >= 0x10000 {
      var u := t % 0x10000 + t / 0x10000;
      FoldKeepsResidue(u);
      assert t == u + 0xFFFF * (t / 0x10000);
      ModAdd(u, t / 0x10000);
    }
  }

  lemma {:induction false} ModAdd(u: nat, k: nat)
    ensures (u + 0xFFFF * k) % 0xFFFF == u % 0xFFFF
  {
    if k > 0 {
      ModAdd(u, k - 1);
      assert u + 0xFFFF * k == (u + 0xFFFF * (k - 1)) + 0xFFFF;
    }
  }

  lemma {:induction false} WordSumConcat(a: Bytes, b: Bytes)
    requires |a| % 2 == 0 && |b| % 2 == 0
    ensures WordSum(a + b) == WordSum(a) + WordSum(b)
    decreases |a|
  {
    if a == [] {
      assert a + b == b;
    } else {
      assert (a + b)[2..] == a[2..] + b;
      WordSumConcat(a[2..], b);
    }
  }

  lemma WordSumPair(x: word)
    ensures WordSum(Put16(x)) == x
  {
    var b := Put16(x);
    assert b[2..] == [];
  }

  method Checksum(d: Bytes) returns (c: word)
    requires |d| % 2 == 0
    ensures c == 0xFFFF - Fold(WordSum(d))
  {
    var total: nat, i := 0, 0;
    while i < |d|
      invariant i <= |d| && i % 2 == 0 && total + WordSum(d[i..]) == WordSum(d)
    {
      assert d[i..][2..] == d[i + 2..];
      total := total + Read16(d, i);
      i := i + 2;
    }
    while total >= 0x10000
      invariant Fold(total) == Fold(WordSum(d))
    {
      total := total % 0x10000 + total / 0x10000;
    }
    c := 0xFFFF - total;
  }

  /** A header completed with its checksum sums to all ones, which is what a receiver checks. */
  lemma ChecksumVerifies(head: Bytes, tail: Bytes, c: word)
    requires |head| % 2 == 0 && |tail| % 2 == 0 && WordSum(head) > 0
    requires c == 0xFFFF - Fold(WordSum(head + Put16(0) + tail))
    ensures Fold(WordSum(head + Put16(c) + tail)) == 0xFFFF
  {
    hide WordSum, Put16, Fold;
    WordSumConcat(head + Put16(0), tail);
    WordSumConcat(head, Put16(0));
    WordSumPair(0);
    WordSumConcat(head + Put16(c), tail);
    WordSumConcat(head, Put16(c));
    WordSumPair(c);
    FoldCompletes(WordSum(head) + WordSum(tail), c);
  }

  lemma FoldCompletes(t: nat, c: word)
    requires t > 0 && c == 0xFFFF - Fold(t)
    ensures Fold(t + c) == 0xFFFF
  {
    hide Fold;
    FoldKeepsResidue(t + c);
    Residue(t, c);
  }

  lemma Residue(t: nat, c: word)
    requires t > 0 && c == 0xFFFF - Fold(t)
    ensures (t + c) % 0xFFFF == 0
  {
    FoldKeepsResidue(t);
    var f := Fold(t);
    assert t % 0xFFFF == f % 0xFFFF;
    assert t - t % 0xFFFF == 0xFFFF * (t / 0xFFFF) && f - f % 0xFFFF == 0xFFFF * (f / 0xFFFF);
    assert t + c == 0xFFFF * (t / 0xFFFF - f / 0xFFFF + 1);
  }

  function LabTags(n: nat): seq<Tag> { seq(n, _ => Tag(VLAN, 123)) }

  /** The inner ARP request, after the VLAN tag. */
  function LabBody(mac: Bytes): Bytes {
    Put16(1) + Put16(0x0800) + [6, 4] + Put16(1) + mac + [198, 51, 100, 2] + [0, 0, 0, 0, 0, 0] + [198, 51, 100, 1]
    + [0, 0, 0, 0, 0, 0, 0, 0, 0, 0, 0, 0, 0, 0]
  }

  function LabHeader(remote: Bytes, dest: Bytes, options: nat, checksum: word): Header
    requires |remote| == 4 && |dest| == 4
  {
    Header(0, Put16(42), false, 64, Put16(checksum), remote, dest, seq(options * 4, _ => 1))
  }

  lemma {:induction false} LabTagsGrow(n: nat)
    ensures TypeBytes(LabTags(n + 1)) == Put16(VLAN) + Put16(123) + TypeBytes(LabTags(n))
  {
    assert LabTags(n + 1)[1..] == LabTags(n);
  }

  method TypeField(tags: nat) returns (d: Bytes)
    ensures d == TypeBytes(LabTags(tags))
  {
    d := Put16(if tags > 0 then VLAN else IPV4);
    var tag := 0;
    assert Prefix(0) + Put16(if tags > 0 then VLAN else IPV4) == d;
    while tag < tags
      invariant tag <= tags && d == Prefix(tag) + Put16(if tag < tags then VLAN else IPV4)
    {
      d := d + Put16(123) + Put16(if tag + 1 < tags then VLAN else IPV4);
      tag := tag + 1;
    }
    PrefixIs(tags);
  }

  /** The bytes of n complete tags. */
  function Prefix(n: nat): Bytes {
    if n == 0 then [] else Prefix(n - 1) + Put16(VLAN) + Put16(123)
  }

  lemma {:induction false} PrefixIs(n: nat)
    ensures Prefix(n) + Put16(IPV4) == TypeBytes(LabTags(n))
  {
    if n > 0 {
      PrefixIs(n - 1);
      PrefixShift(n - 1);
      LabTagsGrow(n - 1);
      var tag := Put16(VLAN) + Put16(123);
      assert tag + (Prefix(n - 1) + Put16(IPV4)) == (tag + Prefix(n - 1)) + Put16(IPV4);
    }
  }

  lemma {:induction false} PrefixShift(n: nat)
    ensures Prefix(n + 1) == (Put16(VLAN) + Put16(123)) + Prefix(n)
  {
    if n > 0 {
      PrefixShift(n - 1);
      var tag := Put16(VLAN) + Put16(123);
      assert Prefix(n + 1) == Prefix(n) + tag;
      assert (tag + Prefix(n - 1)) + tag == tag + (Prefix(n - 1) + tag);
      assert Prefix(n) == Prefix(n - 1) + tag;
    }
  }

  function LabInner(vlan: nat, mac: Bytes): Inner
    requires vlan < 4096
  {
    Inner([255, 255, 255, 255, 255, 255], mac, 0xA000 + vlan, 0x0806, LabBody(mac))
  }

  function LabFrameOf(macs: Bytes, remote: Bytes, dest: Bytes, vlan: nat, tags: nat, options: nat,
                      mac: Bytes, checksum: word): Frame
    requires |remote| == 4 && |dest| == 4 && vlan < 4096
  {
    Frame(macs, LabTags(tags), LabHeader(remote, dest, options, checksum), LabInner(vlan, mac))
  }

  lemma LabFrameValid(macs: Bytes, remote: Bytes, dest: Bytes, vlan: nat, tags: nat, options: nat, mac: Bytes, c: word)
    requires |macs| == 12 && |remote| == 4 && |dest| == 4 && |mac| == 6 && 1 <= vlan <= 4094 && options <= 10
    requires tags <= 2 && mac[0] % 2 == 0 && mac != [0, 0, 0, 0, 0, 0]
    ensures Valid(LabFrameOf(macs, remote, dest, vlan, tags, options, mac, c))
  {
    var f := LabFrameOf(macs, remote, dest, vlan, tags, options, mac, c);
    assert |LabBody(mac)| == 42 && |LabInner(vlan, mac).dst| == 6;
    assert ValidInner(f.inner);
    GreLength(f.inner);
  }

  lemma HeaderJoins(remote: Bytes, dest: Bytes, options: nat, c: word, total: word)
    requires |remote| == 4 && |dest| == 4 && options <= 10
    ensures ValidHeader(LabHeader(remote, dest, options, c))
    ensures HeaderBytes(LabHeader(remote, dest, options, c), total)
         == [0x45 + options, 0] + Put16(total) + Put16(42) + Put16(0) + [64, GRE] + Put16(c)
            + (remote + dest + seq(options * 4, _ => 1))
  {
    var h := LabHeader(remote, dest, options, c);
    assert |h.options| / 4 == options;
    var a := [0x45 + options, 0] + Put16(total) + Put16(42) + Put16(0) + [64, GRE] + Put16(c);
    assert a + remote + dest + h.options == a + (remote + dest + h.options);
  }

  lemma {:induction false} PrefixLength(n: nat)
    ensures |Prefix(n)| == 4 * n
  {
    if n > 0 {
      PrefixLength(n - 1);
    }
  }

  lemma TypeLength(tags: nat)
    ensures |TypeBytes(LabTags(tags))| == 2 + 4 * tags
  {
    PrefixIs(tags);
    PrefixLength(tags);
  }

  /** The header stands behind the addresses and the type field, and sums to all ones. */
  lemma HeaderSums(macs: Bytes, type_: Bytes, head: Bytes, c: word, tail: Bytes, gre: Bytes)
    requires |head| % 2 == 0 && |head| >= 2 && Read16(head, 0) > 0 && |tail| % 2 == 0
    requires c == 0xFFFF - Fold(WordSum(head + Put16(0) + tail))
    ensures var at, size := |macs| + |type_|, |head| + 2 + |tail|;
      && var d := macs + type_ + (head + Put16(c) + tail) + gre;
      && at + size <= |d| && Fold(WordSum(d[at..at + size])) == 0xFFFF
  {
    var d, at, ip := macs + type_ + (head + Put16(c) + tail) + gre, |macs| + |type_|, head + Put16(c) + tail;
    assert d[at..at + |ip|] == ip;
    ChecksumVerifies(head, tail, c);
  }

  /** The arguments for which a frame is meant to be accepted. */
  ghost predicate InRange(vlan: nat, tags: nat, flags: word, mac: Bytes)
    requires |mac| == 6
  {
    tags <= 2 && flags == 0 && 1 <= vlan <= 4094 && mac[0] % 2 == 0 && mac != [0, 0, 0, 0, 0, 0]
  }

  /** The parser finds in d what was put into it. */
  ghost predicate ReadsBack(d: Bytes, remote: Bytes, dest: Bytes, vlan: nat, mac: Bytes)
    requires |remote| == 4 && |dest| == 4 && |mac| == 6
  {
    && var p := Parse(d);
    && p.Some? && Octets(p.value.remote, remote) && Octets(p.value.local, dest) && p.value.vlan == vlan
    && p.value.mac == Mac(mac[0], mac[1], mac[2], mac[3], mac[4], mac[5])
  }

  /** Every lab frame carries a header that passes a receiver's checksum test, and with arguments
      in range the frame parses back to them. */
  method BuildFrame(macs: Bytes, remote: Bytes, dest: Bytes, vlan: nat, tags: nat, flags: word, options: nat,
                    mac: Bytes)
    returns (d: Bytes)
    requires |macs| == 12 && |remote| == 4 && |dest| == 4 && |mac| == 6 && vlan < 4096 && options <= 10
    ensures var at, size := 14 + 4 * tags, 20 + 4 * options;
      at + size <= |d| && Fold(WordSum(d[at..at + size])) == 0xFFFF
    ensures InRange(vlan, tags, flags, mac) ==> ReadsBack(d, remote, dest, vlan, mac)
  {
    hide TypeBytes, LabBody, IpOf, Parse, WordSum, ReadsBack, Fold, ValidInner, ValidHeader, HeaderBytes,
      Put16, InnerBytes;
    var gre := Put16(flags) + Put16(TEB) + InnerBytes(LabInner(vlan, mac));
    LabLength(vlan, mac);
    var total := 20 + 4 * options + |gre|;
    var head := [0x45 + options, 0] + Put16(total) + Put16(42) + Put16(0) + [64, GRE];
    var tail := remote + dest + seq(options * 4, _ => 1);
    var c := Checksum(head + Put16(0) + tail);
    var ip := head + Put16(c) + tail;
    var type_ := TypeField(tags);
    d := macs + type_ + ip + gre;
    TypeLength(tags);
    HeaderSums(macs, type_, head, c, tail, gre);
    if InRange(vlan, tags, flags, mac) {
      var f := LabFrameOf(macs, remote, dest, vlan, tags, options, mac, c);
      LabFrameValid(macs, remote, dest, vlan, tags, options, mac, c);
      HeaderJoins(remote, dest, options, c, total);
      assert Serialise(f) == d;
      LabReadsBack(macs, remote, dest, vlan, tags, options, mac, c);
    }
  }

  lemma LabReadsBack(macs: Bytes, remote: Bytes, dest: Bytes, vlan: nat, tags: nat, options: nat, mac: Bytes, c: word)
    requires |remote| == 4 && |dest| == 4 && |mac| == 6 && vlan < 4096
    requires Valid(LabFrameOf(macs, remote, dest, vlan, tags, options, mac, c))
    ensures ReadsBack(Serialise(LabFrameOf(macs, remote, dest, vlan, tags, options, mac, c)), remote, dest, vlan, mac)
  {
    hide Parse, Serialise, Valid;
    var f := LabFrameOf(macs, remote, dest, vlan, tags, options, mac, c);
    assert Serialise(f) + [] == Serialise(f);
    FrameAccepted(f, []);
    assert (0xA000 + vlan) % 4096 == vlan;
  }

  lemma LabLength(vlan: nat, mac: Bytes)
    requires vlan < 4096 && |mac| == 6
    ensures |InnerBytes(LabInner(vlan, mac))| == 60
  {}
}
