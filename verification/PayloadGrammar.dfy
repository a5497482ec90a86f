/** Which bytes the parser accepts: exactly the serialised frames, plus trailing bytes. */
module PayloadGrammar {
  import opened Types
  import opened Payload

  type word = x: nat | x < 0x10000

  datatype Tag = Tag(tpid: word, tci: word)

  /** An Ethernet frame inside the tunnel, with one VLAN tag. */
  datatype Inner = Inner(dst: Bytes, src: Bytes, tci: word, type_: word, body: Bytes)

  datatype Header = Header(tos: byte, ident: Bytes, dontFragment: bool, ttl: byte, checksum: Bytes,
                           remote: Bytes, local: Bytes, options: Bytes)

  datatype Frame = Frame(macs: Bytes, tags: seq<Tag>, ip: Header, inner: Inner)

  function Put16(x: word): (b: Bytes)
    ensures |b| == 2 && Read16(b, 0) == x
  {
    [x / 256, x % 256]
  }

  predicate ValidInner(n: Inner) {
    && |n.dst| == 6 && |n.src| == 6
    && !IsTag(n.type_) && 1 <= n.tci % 4096 <= 4094
    && !IsMulticast(MacOf(n.src)) && MacOf(n.src) != Mac(0, 0, 0, 0, 0, 0)
  }

  function InnerBytes(n: Inner): Bytes {
    n.dst + n.src + Put16(VLAN) + Put16(n.tci) + Put16(n.type_) + n.body
  }

  function GreBytes(n: Inner): Bytes {
    Put16(0) + Put16(TEB) + InnerBytes(n)
  }

  predicate ValidHeader(h: Header) {
    && |h.ident| == 2 && |h.checksum| == 2 && |h.remote| == 4 && |h.local| == 4
    && |h.options| % 4 == 0 && |h.options| <= 40
  }

  function Total(f: Frame): nat { 20 + |f.ip.options| + |GreBytes(f.inner)| }

  predicate Valid(f: Frame) {
    && |f.macs| == 12 && |f.tags| <= 2 && (forall i :: 0 <= i < |f.tags| ==> IsTag(f.tags[i].tpid))
    && ValidHeader(f.ip) && ValidInner(f.inner) && Total(f) < 0x10000
  }

  function HeaderBytes(h: Header, total: word): Bytes
    requires ValidHeader(h)
  {
    [0x45 + |h.options| / 4, h.tos] + Put16(total) + h.ident + Put16(if h.dontFragment then 0x4000 else 0)
    + [h.ttl, GRE] + h.checksum + h.remote + h.local + h.options
  }

  function TypeBytes(tags: seq<Tag>): Bytes {
    if tags == [] then Put16(IPV4)
    else Put16(tags[0].tpid) + Put16(tags[0].tci) + TypeBytes(tags[1..])
  }

  function Serialise(f: Frame): Bytes
    requires Valid(f)
  {
    f.macs + TypeBytes(f.tags) + HeaderBytes(f.ip, Total(f)) + GreBytes(f.inner)
  }

  function Carried(f: Frame): Packet
    requires Valid(f)
  {
    Packet(IpOf(f.ip.remote), IpOf(f.ip.local), MacOf(f.inner.src), f.inner.tci % 4096)
  }

  // ---- every serialised frame is accepted ----

  lemma GreAccepted(n: Inner, remote: Ip, local: Ip)
    requires ValidInner(n)
    ensures ParseGre(GreBytes(n), remote, local) == Some(Packet(remote, local, MacOf(n.src), n.tci % 4096))
  {
    var g, e := GreBytes(n), InnerBytes(n);
    assert g[4..] == e;
    assert Read16(g, 0) == 0 && Read16(g, 2) == TEB;
    assert e[6..12] == n.src;
    assert e[12..14] == Put16(VLAN) && e[14..16] == Put16(n.tci) && e[16..18] == Put16(n.type_);
    assert Read16(e, 12) == Read16(e[12..14], 0) && Read16(e, 14) == Read16(e[14..16], 0)
      && Read16(e, 16) == Read16(e[16..18], 0);
  }

  /** What stands where in a serialised header. */
  lemma HeaderFields(h: Header, total: word)
    requires ValidHeader(h)
    ensures var b := HeaderBytes(h, total);
      && |b| == 20 + |h.options| && b[0] == 0x45 + |h.options| / 4 && b[9] == GRE
      && Read16(b, 2) == total && Read16(b, 6) == (if h.dontFragment then 0x4000 else 0)
      && b[12..16] == h.remote && b[16..20] == h.local
  {
    var b := HeaderBytes(h, total);
    assert b[2..4] == Put16(total) && b[6..8] == Put16(if h.dontFragment then 0x4000 else 0);
    assert Read16(b, 2) == Read16(b[2..4], 0) && Read16(b, 6) == Read16(b[6..8], 0);
  }

  lemma PrefixReads(b: Bytes, rest: Bytes)
    requires |b| >= 20
    ensures var ip := b + rest;
      && ip[0] == b[0] && ip[9] == b[9] && Read16(ip, 2) == Read16(b, 2) && Read16(ip, 6) == Read16(b, 6)
      && ip[12..16] == b[12..16] && ip[16..20] == b[16..20]
  {}

  lemma HeaderAccepted(h: Header, n: Inner, trailer: Bytes)
    requires ValidHeader(h) && ValidInner(n) && 20 + |h.options| + |GreBytes(n)| < 0x10000
    ensures ParseIp(HeaderBytes(h, 20 + |h.options| + |GreBytes(n)|) + GreBytes(n) + trailer)
         == Some(Packet(IpOf(h.remote), IpOf(h.local), MacOf(n.src), n.tci % 4096))
  {
    hide IpOf, GreBytes, ParseGre, ValidInner, HeaderBytes, Read16;
    GreLength(n);
    var g := GreBytes(n);
    var total := 20 + |h.options| + |g|;
    var hb := HeaderBytes(h, total);
    var ip := hb + g + trailer;
    HeaderFields(h, total);
    PrefixReads(hb, g + trailer);
    assert ip == hb + (g + trailer) && ip[|hb|..total] == g;
    GreAccepted(n, IpOf(h.remote), IpOf(h.local));
  }

  lemma GreLength(n: Inner)
    requires ValidInner(n)
    ensures |GreBytes(n)| == 22 + |n.body|
  {}

  lemma {:induction false} TagsAccepted(tags: seq<Tag>, rest: Bytes, passed: nat)
    requires passed + |tags| <= 2 && forall i :: 0 <= i < |tags| ==> IsTag(tags[i].tpid)
    ensures |TypeBytes(tags)| >= 2
    ensures ParseType(TypeBytes(tags) + rest, passed) == ParseIp(rest)
    decreases |tags|
  {
    hide ParseIp;
    var d := TypeBytes(tags) + rest;
    if tags == [] {
      assert d[2..] == rest;
      assert Read16(d, 0) == Read16(Put16(IPV4), 0);
    } else {
      TagsAccepted(tags[1..], rest, passed + 1);
      assert d[4..] == TypeBytes(tags[1..]) + rest;
      assert Read16(d, 0) == Read16(Put16(tags[0].tpid), 0);
    }
  }

  lemma FrameAccepted(f: Frame, trailer: Bytes)
    requires Valid(f)
    ensures Parse(Serialise(f) + trailer) == Some(Carried(f))
  {
    hide ParseType, ParseIp, TypeBytes, HeaderBytes, GreBytes, IpOf, MacOf, ValidInner;
    var rest := HeaderBytes(f.ip, Total(f)) + GreBytes(f.inner) + trailer;
    var d := Serialise(f) + trailer;
    TagsAccepted(f.tags, rest, 0);
    assert d[12..] == TypeBytes(f.tags) + rest;
    HeaderAccepted(f.ip, f.inner, trailer);
  }

  // ---- every accepted packet is a serialised frame ----

  lemma Put16Read16(d: Bytes, i: nat)
    requires i + 2 <= |d|
    ensures Put16(Read16(d, i)) == d[i..i + 2]
  {}

  lemma GreSound(g: Bytes, remote: Ip, local: Ip) returns (n: Inner)
    requires |g| >= 4 && ParseGre(g, remote, local).Some?
    ensures ValidInner(n) && g == GreBytes(n)
  {
    var e := g[4..];
    n := Inner(e[..6], e[6..12], Read16(e, 14), Read16(e, 16), e[18..]);
    Put16Read16(g, 0);
    Put16Read16(g, 2);
    Put16Read16(e, 12);
    Put16Read16(e, 14);
    Put16Read16(e, 16);
    assert e == e[..6] + e[6..12] + e[12..14] + e[14..16] + e[16..18] + e[18..];
    assert g == g[0..2] + g[2..4] + e;
  }

  lemma HeaderSound(ip: Bytes) returns (h: Header, n: Inner, trailer: Bytes)
    requires ParseIp(ip).Some?
    ensures ValidHeader(h) && ValidInner(n) && 20 + |h.options| + |GreBytes(n)| < 0x10000
    ensures ip == HeaderBytes(h, 20 + |h.options| + |GreBytes(n)|) + GreBytes(n) + trailer
  {
    hide ParseGre, IpOf, GreBytes, HeaderBytes, ValidInner, ValidHeader;
    var ihl, total := (ip[0] % 16) * 4, Read16(ip, 2);
    h := Header(ip[1], ip[4..6], Read16(ip, 6) == 0x4000, ip[8], ip[10..12], ip[12..16], ip[16..20], ip[20..ihl]);
    n := GreSound(ip[ihl..total], IpOf(ip[12..16]), IpOf(ip[16..20]));
    trailer := ip[total..];
    HeaderRebuilt(ip, h);
    assert ip == ip[..ihl] + ip[ihl..total] + ip[total..];
  }

  lemma HeaderRebuilt(ip: Bytes, h: Header)
    requires |ip| >= 20 && ip[0] / 16 == 4 && 20 <= (ip[0] % 16) * 4 <= |ip|
    requires ip[9] == GRE && !Fragmented(Read16(ip, 6))
    requires h == Header(ip[1], ip[4..6], Read16(ip, 6) == 0x4000, ip[8], ip[10..12], ip[12..16], ip[16..20],
                         ip[20..(ip[0] % 16) * 4])
    ensures ValidHeader(h) && HeaderBytes(h, Read16(ip, 2)) == ip[..(ip[0] % 16) * 4]
  {
    var ihl := (ip[0] % 16) * 4;
    Put16Read16(ip, 2);
    Put16Read16(ip, 6);
    assert ip[0] == 0x45 + |h.options| / 4;
    assert ip[..ihl] == [ip[0], ip[1]] + ip[2..4] + ip[4..6] + ip[6..8] + [ip[8], ip[9]] + ip[10..12] + ip[12..16]
                        + ip[16..20] + ip[20..ihl];
  }

  lemma {:induction false} TagsSound(d: Bytes, passed: nat) returns (tags: seq<Tag>, ip: Bytes)
    requires |d| >= 2 && passed <= 2 && ParseType(d, passed).Some?
    ensures passed + |tags| <= 2 && forall i :: 0 <= i < |tags| ==> IsTag(tags[i].tpid)
    ensures d == TypeBytes(tags) + ip && ParseIp(ip) == ParseType(d, passed)
    decreases |d|
  {
    hide ParseIp;
    Put16Read16(d, 0);
    if IsTag(Read16(d, 0)) {
      var rest;
      rest, ip := TagsSound(d[4..], passed + 1);
      var tag := Tag(Read16(d, 0), Read16(d, 2));
      Put16Read16(d, 2);
      tags := [tag] + rest;
      assert tags[1..] == rest;
      assert d == d[0..2] + d[2..4] + d[4..];
      assert Put16(tag.tpid) + Put16(tag.tci) + (TypeBytes(rest) + ip) == TypeBytes(tags) + ip;
    } else {
      tags, ip := [], d[2..];
      assert d == d[0..2] + d[2..];
    }
  }

  lemma FrameSound(d: Bytes) returns (f: Frame, trailer: Bytes)
    requires Parse(d).Some?
    ensures Valid(f) && d == Serialise(f) + trailer
  {
    hide ParseType, ParseIp, TypeBytes, HeaderBytes, GreBytes, ValidInner, ValidHeader;
    var tags, ip := TagsSound(d[12..], 0);
    var h, n, t := HeaderSound(ip);
    f, trailer := Frame(d[..12], tags, h, n), t;
    assert d == d[..12] + d[12..];
    Rejoin(d[..12], TypeBytes(tags), HeaderBytes(h, Total(f)), GreBytes(n), t);
  }

  lemma Rejoin<T>(a: seq<T>, b: seq<T>, c: seq<T>, d: seq<T>, e: seq<T>)
    ensures a + (b + (c + d + e)) == a + b + c + d + e
  {}

  /** The bytes are a frame that carries p, followed by anything. */
  ghost predicate Carries(d: Bytes, p: Packet) {
    exists f, trailer :: Valid(f) && d == Serialise(f) + trailer && Carried(f) == p
  }

  /** payload_parse accepts exactly the serialised frames, with exactly what they carry. */
  lemma ParseIsGrammar(d: Bytes, p: Packet)
    ensures Parse(d) == Some(p) <==> Carries(d, p)
  {
    hide Parse, Valid, Serialise, Carried;
    if Parse(d).Some? {
      var f, t := FrameSound(d);
      FrameAccepted(f, t);
    }
    forall f, t | Valid(f) && d == Serialise(f) + t ensures Parse(d) == Some(Carried(f)) {
      FrameAccepted(f, t);
    }
  }

  /** No frame that ends inside its IP packet is accepted. */
  lemma TruncationRefused(f: Frame, n: nat)
    requires Valid(f) && n < |Serialise(f)|
    ensures Parse(Serialise(f)[..n]).None?
  {
    hide ParseType, TypeBytes, HeaderBytes, GreBytes, ValidInner, ValidHeader;
    TypeBytesLength(f.tags);
    var d := Serialise(f);
    var t := d[..n];
    if n >= 14 {
      TruncatedTags(f.tags, HeaderBytes(f.ip, Total(f)) + GreBytes(f.inner), n - 12, 0, f);
      assert t[12..] == d[12..][..n - 12];
      assert d[12..] == TypeBytes(f.tags) + (HeaderBytes(f.ip, Total(f)) + GreBytes(f.inner));
    }
  }

  lemma TypeBytesLength(tags: seq<Tag>)
    ensures |TypeBytes(tags)| >= 2
  {}

  lemma {:induction false} TruncatedTags(tags: seq<Tag>, ip: Bytes, n: nat, passed: nat, f: Frame)
    requires Valid(f) && ip == HeaderBytes(f.ip, Total(f)) + GreBytes(f.inner)
    requires forall i :: 0 <= i < |tags| ==> IsTag(tags[i].tpid)
    requires 2 <= n < |TypeBytes(tags) + ip|
    ensures ParseType((TypeBytes(tags) + ip)[..n], passed).None?
    decreases |tags|
  {
    hide ParseIp, HeaderBytes, GreBytes, ValidInner;
    var d := TypeBytes(tags) + ip;
    var t := d[..n];
    if tags == [] {
      assert Read16(t, 0) == Read16(Put16(IPV4), 0);
      assert t[2..] == ip[..n - 2];
      TruncatedIp(f, n - 2);
    } else {
      assert Read16(t, 0) == Read16(Put16(tags[0].tpid), 0);
      if n >= 6 {
        var rest := TypeBytes(tags[1..]) + ip;
        assert d == Put16(tags[0].tpid) + Put16(tags[0].tci) + rest;
        assert t[4..] == rest[..n - 4];
        TruncatedTags(tags[1..], ip, n - 4, passed + 1, f);
      }
    }
  }

  lemma TruncatedIp(f: Frame, n: nat)
    requires Valid(f)
    requires n < |HeaderBytes(f.ip, Total(f)) + GreBytes(f.inner)|
    ensures ParseIp((HeaderBytes(f.ip, Total(f)) + GreBytes(f.inner))[..n]).None?
  {
    hide ParseGre, GreBytes, ValidInner, IpOf;
    var h := HeaderBytes(f.ip, Total(f));
    var t := (h + GreBytes(f.inner))[..n];
    if n >= 20 {
      assert h[2..4] == Put16(Total(f));
      assert t[2] == h[2] && t[3] == h[3];
      assert Read16(t, 2) == Read16(h[2..4], 0);
    }
  }
}
