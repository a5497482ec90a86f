/** Allowed remote networks: masked comparison and the CIDR networks it stands for. */
module Cidr {
  import opened Types
  import opened Bits

  const WORD: nat := 0x1_0000_0000

  datatype Network = Network(network: u32, mask: u32)

  predicate Matches(n: Network, a: Ip) { And(a.bits, n.mask) == n.network }

  /** With no list configured every remote is allowed. */
  predicate RemoteAllowed(allow: seq<Network>, a: Ip) {
    allow == [] || exists i :: 0 <= i < |allow| && Matches(allow[i], a)
  }

  /** Addresses that can never be a tunnel peer: 0/8, 127/8, and 224.0.0.0 upwards. */
  predicate Unroutable(a: Ip) {
    || a.bits == 0 || a.bits / 0x100_0000 == 127 || a.bits / 0x100_0000 == 0
    || a.bits / 0x1000_0000 >= 14
  }

  /** The mask and network that addr/bits is stored as: all ones shifted left in 32 bits. */
  function Stored(addr: Ip, bits: nat): Network
    requires bits <= 32
  {
    var mask: u32 := if bits == 0 then 0 else ((WORD - 1) * Pow2(32 - bits)) % WORD;
    Network(And(addr.bits, mask), mask)
  }

  /** a and b share their first bits bits (section 3.1 of RFC 4632). */
  predicate SameNetwork(a: Ip, b: Ip, bits: nat)
    requires bits <= 32
  {
    a.bits / Pow2(32 - bits) == b.bits / Pow2(32 - bits)
  }

  lemma Pow2Word()
    ensures Pow2(32) == WORD
  {
    assert Pow2(4) == 16;
    Pow2Adds(4, 4);
    Pow2Adds(8, 8);
    Pow2Adds(16, 16);
  }

  lemma MaskShape(bits: nat)
    requires 0 < bits <= 32
    ensures ((WORD - 1) * Pow2(32 - bits)) % WORD == (Pow2(bits) - 1) * Pow2(32 - bits)
  {
    Pow2Word();
    Pow2Adds(bits, 32 - bits);
    assert Pow2(bits) == 2 * Pow2(bits - 1);
    hide Pow2;
    MaskArithmetic(Pow2(bits), Pow2(32 - bits));
  }

  lemma MaskArithmetic(b: nat, p: nat)
    requires b * p == WORD && p > 0
    ensures ((WORD - 1) * p) % WORD == (b - 1) * p
  {
    var m := (b - 1) * p;
    assert m == b * p - p;
    assert (WORD - 1) * p == WORD * (p - 1) + (WORD - p);
    ModUnique((WORD - 1) * p, WORD, p - 1, m);
  }

  lemma ModUnique(x: nat, d: nat, q: nat, r: nat)
    requires x == d * q + r && r < d
    ensures x % d == r
  {
    DivUnique(x, d, q, r);
  }

  /** The masked comparison of the daemon is membership in the configured network. */
  lemma StoredIsNetwork(addr: Ip, bits: nat, x: Ip)
    requires bits <= 32
    ensures Matches(Stored(addr, bits), x) <==> SameNetwork(addr, x, bits)
  {
    Pow2Word();
    if bits == 0 {
      DivUnique(addr.bits, WORD, 0, addr.bits);
      DivUnique(x.bits, WORD, 0, x.bits);
    } else {
      var p := Pow2(32 - bits);
      MaskShape(bits);
      var mask := Stored(addr, bits).mask;
      AndMask(addr.bits, 32 - bits, bits, mask);
      AndMask(x.bits, 32 - bits, bits, mask);
      var a, b := addr.bits / p, x.bits / p;
      hide Pow2, And;
      if a * p == b * p {
        MulCancel(a, b, p);
      }
    }
  }

  lemma MulCancel(a: nat, b: nat, p: nat)
    requires p > 0 && a * p == b * p
    ensures a == b
  {
    assert a < b ==> a * p < b * p;
    assert b < a ==> b * p < a * p;
  }
}
