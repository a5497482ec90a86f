/** The capture parser: GRE over IPv4 (RFC 791, RFC 2784) carrying one VLAN-tagged Ethernet frame. */
module Payload {
  import opened Types
  import opened Bits

  const VLAN: nat := 0x8100
  const QINQ: nat := 0x88a8
  const IPV4: nat := 0x0800
  const TEB: nat := 0x6558
  const GRE: byte := 47

  predicate IsTag(t: nat) { t == VLAN || t == QINQ }

  function Read16(d: Bytes, i: nat): (x: nat)
    requires i + 2 <= |d|
    ensures x < 0x10000
  {
    var hi: nat, lo: nat := d[i], d[i + 1];
    hi * 256 + lo
  }

  /** An address from its bytes in network order. */
  function IpOf(b: Bytes): (a: Ip)
    requires |b| == 4
    ensures a.bits / 0x100_0000 == b[0] && a.bits / 0x1_0000 % 256 == b[1]
    ensures a.bits / 0x100 % 256 == b[2] && a.bits % 256 == b[3]
  {
    var b0: nat, b1: nat, b2: nat, b3: nat := b[0], b[1], b[2], b[3];
    Places(b0, b1, b2, b3);
    Ip(b0 * 0x100_0000 + b1 * 0x1_0000 + b2 * 0x100 + b3)
  }

  lemma Places(b0: nat, b1: nat, b2: nat, b3: nat)
    requires b0 < 256 && b1 < 256 && b2 < 256 && b3 < 256
    ensures var x := b0 * 0x100_0000 + b1 * 0x1_0000 + b2 * 0x100 + b3;
      x / 0x100_0000 == b0 && x / 0x1_0000 % 256 == b1 && x / 0x100 % 256 == b2 && x % 256 == b3
  {
    var x := b0 * 0x100_0000 + b1 * 0x1_0000 + b2 * 0x100 + b3;
    DivUnique(x, 0x100_0000, b0, b1 * 0x1_0000 + b2 * 0x100 + b3);
    DivUnique(x, 0x1_0000, b0 * 256 + b1, b2 * 256 + b3);
    DivUnique(x, 0x100, b0 * 0x1_0000 + b1 * 256 + b2, b3);
    LastByte(b0, b1);
    LastByte(b0 * 256 + b1, b2);
    LastByte(b0 * 0x1_0000 + b1 * 256 + b2, b3);
  }

  lemma LastByte(q: nat, b: nat)
    requires b < 256
    ensures (q * 256 + b) % 256 == b
  {}

  function MacOf(b: Bytes): Mac
    requires |b| == 6
  {
    Mac(b[0], b[1], b[2], b[3], b[4], b[5])
  }

  /** Any flag but "don't fragment", or a fragment offset. */
  predicate Fragmented(flags: nat) { flags != 0 && flags != 0x4000 }

  /** The decisions of payload_parse, each part on the bytes that are left to it. */
  function Parse(d: Bytes): Option<Packet> {
    if |d| < 14 then None else ParseType(d[12..], 0)
  }

  /** d starts at an EtherType; tags outer tags have been passed. */
  function ParseType(d: Bytes, tags: nat): Option<Packet>
    requires |d| >= 2
    decreases |d|
  {
    var type_ := Read16(d, 0);
    if IsTag(type_) then
      if tags == 2 || |d| - 2 < 4 then None else ParseType(d[4..], tags + 1)
    else if type_ != IPV4 then None
    else ParseIp(d[2..])
  }

  function ParseIp(ip: Bytes): Option<Packet> {
    if |ip| < 20 then None
    else
      var ihl, total := (ip[0] % 16) * 4, Read16(ip, 2);
      if ip[0] / 16 != 4 || ihl < 20 || total < ihl + 4 || total > |ip| || ip[9] != GRE || Fragmented(Read16(ip, 6))
      then None
      else ParseGre(ip[ihl..total], IpOf(ip[12..16]), IpOf(ip[16..20]))
  }

  /** gre is the whole payload of the IP packet. */
  function ParseGre(gre: Bytes, remote: Ip, local: Ip): Option<Packet>
    requires |gre| >= 4
  {
    if Read16(gre, 0) != 0 || Read16(gre, 2) != TEB then None
    else
      var ether := gre[4..];
      if |ether| < 18 || Read16(ether, 12) != VLAN || IsTag(Read16(ether, 16)) then None
      else
        var vlan, mac := Read16(ether, 14) % 4096, MacOf(ether[6..12]);
        if vlan < 1 || vlan > 4094 || IsMulticast(mac) || mac == Mac(0, 0, 0, 0, 0, 0) then None
        else Some(Packet(remote, local, mac, vlan))
  }

  lemma SliceOfSlice<T>(d: seq<T>, lo: nat, hi: nat, i: nat, j: nat)
    requires lo <= hi <= |d| && i <= j <= hi - lo
    ensures d[lo..hi][i..j] == d[lo + i..lo + j]
  {
    var a, b := d[lo..hi][i..j], d[lo + i..lo + j];
    forall k | 0 <= k < |a| ensures a[k] == b[k] {
      assert d[lo..hi][i + k] == d[lo + (i + k)];
    }
    assert a == b;
  }

  /** payload_parse as it walks over the captured bytes. */
  method ParseFrame(d: Bytes) returns (r: Option<Packet>)
    ensures r == Parse(d)
  {
    if |d| < 14 {
      return None;
    }
    var offset, type_, tags := 14, Read16(d, 12), 0;
    while IsTag(type_)
      invariant 14 <= offset <= |d| && type_ == Read16(d, offset - 2)
      invariant Parse(d) == ParseType(d[offset - 2..], tags)
      decreases |d| - offset
    {
      if tags == 2 || |d| - offset < 4 {
        return None;
      }
      assert d[offset - 2..][4..] == d[offset + 2..];
      type_ := Read16(d, offset + 2);
      offset := offset + 4;
      tags := tags + 1;
    }
    assert d[offset - 2..][2..] == d[offset..];
    if type_ != IPV4 || |d| - offset < 20 {
      return None;
    }
    r := ParseIpAt(d, offset);
  }

  method ParseIpAt(d: Bytes, offset: nat) returns (r: Option<Packet>)
    requires offset + 20 <= |d|
    ensures r == ParseIp(d[offset..])
  {
    ghost var ip := d[offset..];
    assert Read16(d, offset + 2) == Read16(ip, 2) && Read16(d, offset + 6) == Read16(ip, 6);
    var ihl, total := (d[offset] % 16) * 4, Read16(d, offset + 2);
    if d[offset] / 16 != 4 || ihl < 20 || total < ihl + 4 || total > |d| - offset || d[offset + 9] != GRE
       || Fragmented(Read16(d, offset + 6)) {
      return None;
    }
    var g := offset + ihl;
    assert ip[ihl..total] == d[g..offset + total];
    r := ParseGreAt(d, g, offset + total, IpOf(d[offset + 12..offset + 16]), IpOf(d[offset + 16..offset + 20]));
    assert ip[12..16] == d[offset + 12..offset + 16] && ip[16..20] == d[offset + 16..offset + 20];
  }

  method ParseGreAt(d: Bytes, g: nat, end: nat, remote: Ip, local: Ip) returns (r: Option<Packet>)
    requires g + 4 <= end <= |d|
    ensures r == ParseGre(d[g..end], remote, local)
  {
    ghost var gre := d[g..end];
    assert Read16(d, g) == Read16(gre, 0) && Read16(d, g + 2) == Read16(gre, 2);
    if Read16(d, g) != 0 || Read16(d, g + 2) != TEB {
      return None;
    }
    var e := g + 4;
    var remaining := end - e;
    ghost var ether := gre[4..];
    assert ether == d[e..end];
    if remaining < 14 {
      return None;
    }
    assert Read16(d, e + 12) == Read16(ether, 12);
    if Read16(d, e + 12) != VLAN || remaining < 18 {
      return None;
    }
    assert Read16(d, e + 16) == Read16(ether, 16) && Read16(d, e + 14) == Read16(ether, 14);
    if IsTag(Read16(d, e + 16)) {
      return None;
    }
    var vlan, mac := Read16(d, e + 14) % 4096, d[e + 6..e + 12];
    SliceOfSlice(d, e, end, 6, 12);
    if vlan < 1 || vlan > 4094 || d[e + 6] % 2 == 1 {
      return None;
    }
    var nonzero := false;
    for i := 0 to 6
      invariant nonzero <==> exists j :: 0 <= j < i && mac[j] != 0
    {
      assert mac[i] == d[e + 6 + i];
      nonzero := nonzero || d[e + 6 + i] != 0;
    }
    assert nonzero <==> MacOf(mac) != Mac(0, 0, 0, 0, 0, 0);
    if !nonzero {
      return None;
    }
    r := Some(Packet(remote, local, MacOf(mac), vlan));
  }
}
