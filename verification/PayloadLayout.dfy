/** The accepted packets byte by byte: which byte stands where (sections 3.1 of RFC 791 and 2 of
    RFC 2784), and which fields of the result it becomes. */
module PayloadLayout {
  import opened Types
  import opened Payload

  /** The four bytes of an address, first byte on the wire first. */
  ghost predicate Octets(a: Ip, b: Bytes)
    requires |b| == 4
  {
    && a.bits / 0x100_0000 == b[0] && a.bits / 0x1_0000 % 256 == b[1]
    && a.bits / 0x100 % 256 == b[2] && a.bits % 256 == b[3]
  }

  /** 0x8100 or 0x88a8 stands at i. */
  ghost predicate TagAt(d: Bytes, i: nat)
    requires i + 2 <= |d|
  {
    (d[i] == 0x81 && d[i + 1] == 0x00) || (d[i] == 0x88 && d[i + 1] == 0xA8)
  }

  /** IPv4, unfragmented, carrying GRE; the header has ihl bytes and the packet total bytes. */
  ghost predicate IpBytes(ip: Bytes, ihl: nat, total: nat) {
    && |ip| >= 20
    && ip[0] == 0x40 + ihl / 4 && ihl % 4 == 0 && 20 <= ihl <= 60
    && total == 256 * (ip[2] as int) + ip[3] && ihl + 4 <= total <= |ip|
    && (ip[6] == 0x00 || ip[6] == 0x40) && ip[7] == 0
    && ip[9] == 47
  }

  /** GRE without flags, carrying an Ethernet frame with exactly one VLAN tag. */
  ghost predicate GreFields(gre: Bytes, mac: Mac, vlan: nat) {
    && |gre| >= 22
    && gre[0] == 0 && gre[1] == 0 && gre[2] == 0x65 && gre[3] == 0x58
    && mac == Mac(gre[10], gre[11], gre[12], gre[13], gre[14], gre[15])
    && gre[10] % 2 == 0 && mac != Mac(0, 0, 0, 0, 0, 0)
    && gre[16] == 0x81 && gre[17] == 0x00
    && vlan == 256 * (gre[18] as int % 16) + gre[19] && 1 <= vlan <= 4094
    && !TagAt(gre, 20)
  }

  ghost predicate IpLayout(ip: Bytes, ihl: nat, total: nat, p: Packet) {
    && IpBytes(ip, ihl, total)
    && Octets(p.remote, ip[12..16]) && Octets(p.local, ip[16..20])
    && GreFields(ip[ihl..total], p.mac, p.vlan)
  }

  /** Two addresses of six bytes, t tags, the EtherType of IPv4, and an IP packet. */
  ghost predicate Layout(d: Bytes, t: nat, ihl: nat, total: nat, p: Packet) {
    && t <= 2 && 14 + 4 * t <= |d|
    && (forall k :: 0 <= k < t ==> TagAt(d, 12 + 4 * k))
    && d[12 + 4 * t] == 0x08 && d[13 + 4 * t] == 0x00
    && IpLayout(d[14 + 4 * t..], ihl, total, p)
  }

  lemma ReadIs(d: Bytes, i: nat)
    requires i + 2 <= |d|
    ensures IsTag(Read16(d, i)) <==> TagAt(d, i)
    ensures Read16(d, i) == IPV4 <==> d[i] == 0x08 && d[i + 1] == 0x00
    ensures Read16(d, i) == VLAN <==> d[i] == 0x81 && d[i + 1] == 0x00
    ensures Read16(d, i) == TEB <==> d[i] == 0x65 && d[i + 1] == 0x58
    ensures Read16(d, i) == 0 <==> d[i] == 0 && d[i + 1] == 0
    ensures Fragmented(Read16(d, i)) <==> !((d[i] == 0x00 || d[i] == 0x40) && d[i + 1] == 0)
    ensures Read16(d, i) == 256 * (d[i] as int) + d[i + 1]
    ensures Read16(d, i) % 4096 == 256 * (d[i] as int % 16) + d[i + 1]
  {}

  /** The parser's addresses are the bytes in network order. */
  lemma IpOfOctets(b: Bytes, a: Ip)
    requires |b| == 4
    ensures a == IpOf(b) <==> Octets(a, b)
  {
    if Octets(a, b) {
      Rebuilt(a.bits);
    }
  }

  lemma Rebuilt(x: nat)
    requires x < 0x1_0000_0000
    ensures x == x / 0x100_0000 * 0x100_0000 + x / 0x1_0000 % 256 * 0x1_0000 + x / 0x100 % 256 * 0x100 + x % 256
  {}

  lemma GreLayout(gre: Bytes, remote: Ip, local: Ip, p: Packet)
    requires |gre| >= 4
    ensures ParseGre(gre, remote, local) == Some(p) <==>
      p.remote == remote && p.local == local && GreFields(gre, p.mac, p.vlan)
  {
    ReadIs(gre, 0);
    ReadIs(gre, 2);
    var ether := gre[4..];
    if |ether| >= 18 {
      ReadIs(gre, 16);
      ReadIs(gre, 18);
      ReadIs(gre, 20);
      assert Read16(ether, 12) == Read16(gre, 16) && Read16(ether, 14) == Read16(gre, 18);
      assert Read16(ether, 16) == Read16(gre, 20);
      var m := ether[6..12];
      assert m[0] == gre[10] && m[1] == gre[11] && m[2] == gre[12];
      assert m[3] == gre[13] && m[4] == gre[14] && m[5] == gre[15];
      assert MacOf(m) == Mac(gre[10], gre[11], gre[12], gre[13], gre[14], gre[15]);
    }
  }

  lemma IpParsed(ip: Bytes, p: Packet)
    ensures ParseIp(ip) == Some(p) <==> exists ihl: nat, total: nat :: IpLayout(ip, ihl, total, p)
  {
    hide ParseGre, GreFields, IpOf, Octets, Read16, IsTag, Fragmented;
    if |ip| >= 20 {
      var ihl, total := (ip[0] % 16) * 4, Read16(ip, 2);
      ReadIs(ip, 2);
      ReadIs(ip, 6);
      IpOfOctets(ip[12..16], p.remote);
      IpOfOctets(ip[16..20], p.local);
      assert forall i: nat, t: nat :: IpBytes(ip, i, t) ==> i == ihl && t == total;
      if IpBytes(ip, ihl, total) {
        GreLayout(ip[ihl..total], IpOf(ip[12..16]), IpOf(ip[16..20]), p);
        assert ParseIp(ip) == Some(p) ==> IpLayout(ip, ihl, total, p);
      }
      assert ParseIp(ip).Some? ==> IpBytes(ip, ihl, total);
    }
  }

  /** The tags from the given one on, and the packet behind them. */
  ghost predicate Behind(d: Bytes, tags: nat, t: nat, p: Packet) {
    && tags <= t <= 2 && 14 + 4 * t <= |d|
    && (forall k :: tags <= k < t ==> TagAt(d, 12 + 4 * k))
    && d[12 + 4 * t] == 0x08 && d[13 + 4 * t] == 0x00
    && ParseIp(d[14 + 4 * t..]) == Some(p)
  }

  lemma BehindStep(d: Bytes, tags: nat, t: nat, p: Packet)
    requires tags <= 2 && 14 + 4 * tags <= |d|
    ensures TagAt(d, 12 + 4 * tags) ==> (Behind(d, tags, t, p) <==> Behind(d, tags + 1, t, p))
    ensures !TagAt(d, 12 + 4 * tags) && Behind(d, tags, t, p) ==> t == tags
  {
    hide ParseIp;
  }

  lemma TypeStep(d: Bytes, tags: nat)
    requires tags <= 2 && 14 + 4 * tags <= |d|
    ensures var at := 12 + 4 * tags;
      ParseType(d[at..], tags) ==
        if TagAt(d, at) then if tags == 2 || |d| < at + 6 then None else ParseType(d[at + 4..], tags + 1)
        else if d[at] == 0x08 && d[at + 1] == 0x00 then ParseIp(d[at + 2..]) else None
  {
    hide ParseIp;
    var at := 12 + 4 * tags;
    var rest := d[at..];
    ReadIs(d, at);
    assert Read16(rest, 0) == Read16(d, at);
    assert rest[2..] == d[at + 2..];
    assert |rest| >= 4 ==> rest[4..] == d[at + 4..];
  }

  lemma {:induction false} TypeParsed(d: Bytes, tags: nat, p: Packet)
    requires tags <= 2 && 14 + 4 * tags <= |d|
    ensures ParseType(d[12 + 4 * tags..], tags) == Some(p) <==> exists t: nat :: Behind(d, tags, t, p)
    decreases 2 - tags
  {
    hide ParseIp, ParseType, TagAt;
    TypeStep(d, tags);
    forall t: nat
      ensures TagAt(d, 12 + 4 * tags) ==> (Behind(d, tags, t, p) <==> Behind(d, tags + 1, t, p))
      ensures !TagAt(d, 12 + 4 * tags) && Behind(d, tags, t, p) ==> t == tags
    {
      BehindStep(d, tags, t, p);
    }
    if TagAt(d, 12 + 4 * tags) {
      if tags < 2 && 18 + 4 * tags <= |d| {
        TypeParsed(d, tags + 1, p);
        var next := tags + 1;
        assert 12 + 4 * next == 12 + 4 * tags + 4;
        if t: nat :| Behind(d, next, t, p) {
          BehindStep(d, tags, t, p);
          assert Behind(d, tags, t, p);
        }
      }
    } else if ParseType(d[12 + 4 * tags..], tags) == Some(p) {
      assert Behind(d, tags, tags, p);
    }
  }

  /** The parser accepts bytes with result p if and only if they have the layout that says p. */
  lemma ParseIsLayout(d: Bytes, p: Packet)
    ensures Parse(d) == Some(p) <==> exists t: nat, ihl: nat, total: nat :: Layout(d, t, ihl, total, p)
  {
    hide ParseType, ParseIp, IpLayout;
    if |d| >= 14 {
      TypeParsed(d, 0, p);
      if t: nat :| Behind(d, 0, t, p) {
        IpParsed(d[14 + 4 * t..], p);
        var ihl: nat, total: nat :| IpLayout(d[14 + 4 * t..], ihl, total, p);
        assert Layout(d, t, ihl, total, p);
      }
      if t: nat, ihl: nat, total: nat :| Layout(d, t, ihl, total, p) {
        IpParsed(d[14 + 4 * t..], p);
        assert Behind(d, 0, t, p);
      }
    }
  }
}
