/** Values shared by the packet parser, the provisioning state machine and the status service. */
module Types {

  datatype Option<+T> = None | Some(value: T)

  type byte = b: int | 0 <= b < 256

  type Bytes = seq<byte>

  /** The longest reply of the status service. */
  const MAX_RESPONSE: nat := 1024 * 1024

  type u32 = x: int | 0 <= x < 0x1_0000_0000

  /** An IPv4 address in host byte order. */
  datatype Ip = Ip(bits: u32)

  /** An Ethernet address, first byte on the wire first. */
  datatype Mac = Mac(b0: byte, b1: byte, b2: byte, b3: byte, b4: byte, b5: byte)

  /** The group bit of the first byte marks broadcast and multicast destinations. */
  predicate IsMulticast(m: Mac) { m.b0 % 2 == 1 }

  /** What the daemon learns from one captured frame. */
  datatype Packet = Packet(remote: Ip, local: Ip, mac: Mac, vlan: nat)

  /** q lists every member of s exactly once. */
  ghost predicate Enumerates<T(!new)>(q: seq<T>, s: set<T>) {
    && (forall x :: x in q <==> x in s)
    && (forall i, j :: 0 <= i < j < |q| ==> q[i] != q[j])
  }

  lemma {:induction false} EnumeratesSize<T(!new)>(q: seq<T>, s: set<T>)
    requires Enumerates(q, s)
    ensures |q| == |s|
  {
    if q == [] {
      assert s == {};
    } else {
      var n := |q| - 1;
      assert q[n] in q;
      assert forall x :: x in q <==> x == q[n] || x in q[..n];
      EnumeratesSize(q[..n], s - {q[n]});
    }
  }
}
