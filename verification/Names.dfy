/** Interface names, firewall wildcards and address texts. */
module Names {
  import opened Types
  import opened Text

  const NAME_MAX: nat := 15      // IFNAMSIZ without the terminator
  const PREFIX_MAX: nat := 6

  function Digit(d: nat): (c: char)
    requires d < 10
    ensures IsDigit(c)
  {
    ['0', '1', '2', '3', '4', '5', '6', '7', '8', '9'][d]
  }

  /** printf("%u") */
  function Dec(n: nat): (s: string)
    ensures s != [] && forall i :: 0 <= i < |s| ==> IsDigit(s[i])
  {
    if n < 10 then [Digit(n)] else Dec(n / 10) + [Digit(n % 10)]
  }

  lemma {:induction false} DecLength(n: nat, k: nat, bound: nat)
    requires k > 0 && n < bound && bound == Pow10(k)
    ensures |Dec(n)| <= k
    decreases k
  {
    if n >= 10 {
      assert Pow10(1) == 10;
      DecLength(n / 10, k - 1, Pow10(k - 1));
    }
  }

  function Pow10(k: nat): nat { if k == 0 then 1 else 10 * Pow10(k - 1) }

  lemma DigitInjective(a: nat, b: nat)
    requires a < 10 && b < 10 && Digit(a) == Digit(b)
    ensures a == b
  {}

  lemma {:induction false} DecInjective(a: nat, b: nat)
    requires Dec(a) == Dec(b)
    ensures a == b
    decreases a
  {
    var s := Dec(a);
    if a < 10 && b < 10 {
      DigitInjective(a, b);
    } else if a >= 10 && b >= 10 {
      assert Dec(a / 10) == s[..|s| - 1] == Dec(b / 10);
      assert Digit(a % 10) == s[|s| - 1] == Digit(b % 10);
      DecInjective(a / 10, b / 10);
      DigitInjective(a % 10, b % 10);
    }
  }

  /** Reading a number back. */
  lemma {:induction false} DecValue(n: nat)
    ensures IsNumber(Dec(n)) && Value(Dec(n)) == n
  {
    var s := Dec(n);
    if n >= 10 {
      DecValue(n / 10);
      assert s[..|s| - 1] == Dec(n / 10) && s[|s| - 1] == Digit(n % 10);
    }
    DigitValue(n % 10);
  }

  lemma DigitValue(d: nat)
    requires d < 10
    ensures (Digit(d) - '0') as nat == d
  {}

  /** The most significant digit comes first. */
  lemma DecExample()
    ensures Dec(0) == "0" && Dec(4094) == "4094" && Value("4094") == 4094
  {
    assert Dec(4) == "4" && Dec(40) == "40" && Dec(409) == "409";
    DecValue(4094);
  }

  lemma DecDigits(n: nat, c: char)
    requires !IsDigit(c)
    ensures c !in Dec(n)
  {}

  function TunnelName(prefix: string, id: nat): string { prefix + Dec(id) }

  function PortName(prefix: string, id: nat, vlan: nat): string { prefix + Dec(id) + "." + Dec(vlan) }

  /** What the rule pattern "name.+" demands of an interface name. */
  predicate Wildcard(prefix: string, id: nat, name: string) { prefix + Dec(id) + "." <= name }

  /** The longest names an accepted configuration can lead to still fit the kernel's limit. */
  lemma NamesFit(prefix: string, id: nat, vlan: nat)
    requires |prefix| <= PREFIX_MAX && id < 4096 && vlan <= 4094
    ensures |TunnelName(prefix, id)| <= 10 && |PortName(prefix, id, vlan)| <= NAME_MAX
  {
    Pow10Four();
    DecLength(id, 4, 10000);
    DecLength(vlan, 4, 10000);
  }

  lemma Pow10Four()
    ensures Pow10(4) == 10000
  {
    assert Pow10(2) == 100;
  }

  lemma TunnelNameInjective(prefix: string, a: nat, b: nat)
    requires TunnelName(prefix, a) == TunnelName(prefix, b)
    ensures a == b
  {
    hide Dec;
    assert Dec(a) == TunnelName(prefix, a)[|prefix|..];
    assert Dec(b) == TunnelName(prefix, b)[|prefix|..];
    DecInjective(a, b);
  }

  /** A tunnel's name is the prefix and the id in decimal. */
  lemma TunnelNameReads(prefix: string, id: nat)
    ensures var name := TunnelName(prefix, id);
      prefix <= name && IsNumber(name[|prefix|..]) && Value(name[|prefix|..]) == id
  {
    hide Dec;
    DecValue(id);
    assert TunnelName(prefix, id)[|prefix|..] == Dec(id);
  }

  /** A port's name is its tunnel's name, a dot, and the VLAN in decimal. */
  lemma PortNameReads(prefix: string, id: nat, vlan: nat)
    ensures var name, n := PortName(prefix, id, vlan), |TunnelName(prefix, id)|;
      && TunnelName(prefix, id) + "." <= name
      && IsNumber(name[n + 1..]) && Value(name[n + 1..]) == vlan
  {
    hide Dec;
    DecValue(vlan);
    var t := TunnelName(prefix, id);
    assert PortName(prefix, id, vlan) == t + "." + Dec(vlan);
    assert PortName(prefix, id, vlan)[|t| + 1..] == Dec(vlan);
  }

  /** Digits up to the first dot: an id is delimited unambiguously. */
  lemma DotDelimits(a: string, b: string, x: string, y: string)
    requires (forall i :: 0 <= i < |a| ==> IsDigit(a[i])) && (forall i :: 0 <= i < |b| ==> IsDigit(b[i]))
    requires a + "." + x == b + "." + y
    ensures a == b && x == y
  {
    var s := a + "." + x;
    assert s[|a|] == '.' && s[|b|] == '.';
    assert forall i :: 0 <= i < |a| ==> s[i] == a[i];
    assert forall i :: 0 <= i < |b| ==> s[i] == b[i];
    assert |a| == |b|;
    assert a == s[..|a|] && b == s[..|b|];
    assert x == s[|a| + 1..] && y == s[|b| + 1..];
  }

  lemma PortNameInjective(prefix: string, a: nat, v: nat, b: nat, w: nat)
    requires PortName(prefix, a, v) == PortName(prefix, b, w)
    ensures a == b && v == w
  {
    hide Dec;
    assert PortName(prefix, a, v)[|prefix|..] == Dec(a) + "." + Dec(v);
    assert PortName(prefix, b, w)[|prefix|..] == Dec(b) + "." + Dec(w);
    DotDelimits(Dec(a), Dec(b), Dec(v), Dec(w));
    DecInjective(a, b);
    DecInjective(v, w);
  }

  /** The rules of a tunnel match exactly its own ports, and no gretap interface. */
  lemma WildcardExact(prefix: string, a: nat, b: nat, vlan: nat)
    ensures Wildcard(prefix, a, PortName(prefix, b, vlan)) <==> a == b
    ensures !Wildcard(prefix, a, TunnelName(prefix, b))
  {
    hide Dec;
    var name, pattern := PortName(prefix, b, vlan), prefix + Dec(a) + ".";
    if pattern <= name {
      var rest := name[|pattern|..];
      assert name == pattern + rest;
      assert name[|prefix|..] == Dec(a) + "." + rest;
      assert name[|prefix|..] == Dec(b) + "." + Dec(vlan);
      DotDelimits(Dec(a), Dec(b), rest, Dec(vlan));
      DecInjective(a, b);
    }
    var t := TunnelName(prefix, b);
    assert forall i :: |prefix| <= i < |t| ==> IsDigit(t[i]);
    assert pattern[|prefix + Dec(a)|] == '.';
  }

  // ---- address texts ----

  function HexDigit(d: nat): (c: char)
    requires d < 16
  {
    ['0', '1', '2', '3', '4', '5', '6', '7', '8', '9', 'a', 'b', 'c', 'd', 'e', 'f'][d]
  }

  function Hex2(b: byte): (s: string)
    ensures |s| == 2
  {
    [HexDigit(b / 16), HexDigit(b % 16)]
  }

  /** printf("%02x:%02x:%02x:%02x:%02x:%02x") */
  function MacText(m: Mac): (s: string)
    ensures |s| == 17
  {
    Hex2(m.b0) + ":" + Hex2(m.b1) + ":" + Hex2(m.b2) + ":" + Hex2(m.b3) + ":" + Hex2(m.b4) + ":" + Hex2(m.b5)
  }

  lemma HexDigitInjective(a: nat, b: nat)
    requires a < 16 && b < 16 && HexDigit(a) == HexDigit(b)
    ensures a == b
  {}

  lemma Hex2Injective(a: byte, b: byte)
    requires Hex2(a) == Hex2(b)
    ensures a == b
  {
    assert Hex2(a)[0] == Hex2(b)[0] && Hex2(a)[1] == Hex2(b)[1];
    hide HexDigit;
    HexDigitInjective(a / 16, b / 16);
    HexDigitInjective(a % 16, b % 16);
  }

  /** Tables keyed by the text of an address are keyed by the address. */
  lemma MacTextInjective(m: Mac, n: Mac)
    requires MacText(m) == MacText(n)
    ensures m == n
  {
    hide Hex2;
    var s, t := MacText(m), MacText(n);
    assert s[0..2] == Hex2(m.b0) && s[3..5] == Hex2(m.b1) && s[6..8] == Hex2(m.b2);
    assert s[9..11] == Hex2(m.b3) && s[12..14] == Hex2(m.b4) && s[15..17] == Hex2(m.b5);
    assert t[0..2] == Hex2(n.b0) && t[3..5] == Hex2(n.b1) && t[6..8] == Hex2(n.b2);
    assert t[9..11] == Hex2(n.b3) && t[12..14] == Hex2(n.b4) && t[15..17] == Hex2(n.b5);
    Hex2Injective(m.b0, n.b0);
    Hex2Injective(m.b1, n.b1);
    Hex2Injective(m.b2, n.b2);
    Hex2Injective(m.b3, n.b3);
    Hex2Injective(m.b4, n.b4);
    Hex2Injective(m.b5, n.b5);
  }

  /** inet_ntop for IPv4 */
  function IpText(a: Ip): string {
    Dec(a.bits / 0x100_0000) + "." + Dec(a.bits / 0x1_0000 % 256)
    + "." + Dec(a.bits / 0x100 % 256) + "." + Dec(a.bits % 256)
  }

  /** The text of an address is its four octets in decimal, the first one first. */
  lemma IpTextReads(a: Ip)
    ensures var f := Split(IpText(a), '.');
      && |f| == 4 && (forall i :: 0 <= i < 4 ==> IsNumber(f[i]))
      && Value(f[0]) == a.bits / 0x100_0000 && Value(f[1]) == a.bits / 0x1_0000 % 256
      && Value(f[2]) == a.bits / 0x100 % 256 && Value(f[3]) == a.bits % 256
  {
    hide Dec, Split, Value, IsNumber;
    var b0, b1, b2, b3 := a.bits / 0x100_0000, a.bits / 0x1_0000 % 256, a.bits / 0x100 % 256, a.bits % 256;
    DecDigits(b0, '.');
    DecDigits(b1, '.');
    DecDigits(b2, '.');
    DecDigits(b3, '.');
    var t2 := Dec(b2) + "." + Dec(b3);
    var t1 := Dec(b1) + "." + t2;
    SplitAt(Dec(b0), t1, '.');
    SplitAt(Dec(b1), t2, '.');
    SplitAt(Dec(b2), Dec(b3), '.');
    SplitWhole(Dec(b3), '.');
    assert IpText(a) == Dec(b0) + "." + t1;
    DecValue(b0);
    DecValue(b1);
    DecValue(b2);
    DecValue(b3);
  }

  lemma IpTextLength(a: Ip)
    ensures |IpText(a)| <= 15
  {
    assert Pow10(3) == 1000 by { assert Pow10(2) == 100; }
    DecLength(a.bits / 0x100_0000, 3, 1000);
    DecLength(a.bits / 0x1_0000 % 256, 3, 1000);
    DecLength(a.bits / 0x100 % 256, 3, 1000);
    DecLength(a.bits % 256, 3, 1000);
  }
}
