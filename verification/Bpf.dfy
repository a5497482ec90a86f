/** The kernel capture filter: a classic BPF jump program, and what it lets through. */
module Bpf {
  import opened Types
  import opened Payload
  import opened PayloadLayout

  datatype Instr =
    | LoadHalf(k: nat)
    | LoadByte(k: nat)
    | JumpEq(k: nat, jt: nat, jf: nat)
    | Ret(k: nat)

  const PROGRAM: seq<Instr> := [
    LoadHalf(12),
    JumpEq(0x0800, 0, 3),
    LoadByte(23),
    JumpEq(47, 13, 14),
    Ret(0),
    JumpEq(0x8100, 1, 0),
    JumpEq(0x88a8, 0, 11),
    LoadHalf(16),
    JumpEq(0x0800, 0, 2),
    LoadByte(27),
    JumpEq(47, 6, 7),
    JumpEq(0x8100, 1, 0),
    JumpEq(0x88a8, 0, 5),
    LoadHalf(20),
    JumpEq(0x0800, 0, 3),
    LoadByte(31),
    JumpEq(47, 0, 1),
    Ret(65535),
    Ret(0)]

  /** Run the program from pc with accumulator acc. Jumps only go forward, a load outside the
      packet rejects it, and so does running off the end. */
  function Exec(program: seq<Instr>, d: Bytes, pc: nat, acc: nat): (r: nat)
    decreases |program| - pc
  {
    if pc >= |program| then 0
    else match program[pc]
      case LoadHalf(k) => if k + 2 > |d| then 0 else Exec(program, d, pc + 1, Read16(d, k))
      case LoadByte(k) => if k + 1 > |d| then 0 else Exec(program, d, pc + 1, d[k])
      case JumpEq(k, jt, jf) => Exec(program, d, pc + 1 + (if acc == k then jt else jf), acc)
      case Ret(k) => k
  }

  function Filter(d: Bytes): nat { Exec(PROGRAM, d, 0, 0) }

  /** IPv4 carrying GRE behind at most two VLAN tags, reading only inside the packet. */
  predicate Wanted(d: Bytes, at: nat, tags: nat)
    decreases 2 - tags
  {
    && at + 2 <= |d|
    && (if Read16(d, at) == IPV4 then at + 11 < |d| && d[at + 11] == GRE
        else tags < 2 && IsTag(Read16(d, at)) && Wanted(d, at + 4, tags + 1))
  }

  lemma Verdicts(d: Bytes, acc: nat)
    ensures Exec(PROGRAM, d, 17, acc) == 65535 && Exec(PROGRAM, d, 18, acc) == 0
  {}

  lemma ThirdType(d: Bytes, acc: nat)
    ensures Exec(PROGRAM, d, 13, acc) == if Wanted(d, 20, 2) then 65535 else 0
  {
    if 22 <= |d| {
      var t := Read16(d, 20);
      Verdicts(d, t);
      assert Exec(PROGRAM, d, 14, t) == if t == IPV4 then Exec(PROGRAM, d, 15, t) else Exec(PROGRAM, d, 18, t);
      if 31 < |d| {
        Verdicts(d, d[31]);
        assert Exec(PROGRAM, d, 16, d[31]) == if d[31] == GRE then 65535 else 0;
      }
    }
  }

  lemma SecondType(d: Bytes, acc: nat)
    ensures Exec(PROGRAM, d, 7, acc) == if Wanted(d, 16, 1) then 65535 else 0
  {
    if 18 <= |d| {
      var t := Read16(d, 16);
      Verdicts(d, t);
      ThirdType(d, t);
      assert Exec(PROGRAM, d, 12, t) == if t == QINQ then Exec(PROGRAM, d, 13, t) else Exec(PROGRAM, d, 18, t);
      assert Exec(PROGRAM, d, 11, t) == if t == VLAN then Exec(PROGRAM, d, 13, t) else Exec(PROGRAM, d, 12, t);
      assert Exec(PROGRAM, d, 8, t) == if t == IPV4 then Exec(PROGRAM, d, 9, t) else Exec(PROGRAM, d, 11, t);
      if 27 < |d| {
        Verdicts(d, d[27]);
        assert Exec(PROGRAM, d, 10, d[27]) == if d[27] == GRE then 65535 else 0;
      }
    }
  }

  /** The jump program computes the condition it is meant to, on every packet. */
  lemma FilterExact(d: Bytes)
    ensures Filter(d) == if Wanted(d, 12, 0) then 65535 else 0
  {
    if 14 <= |d| {
      var t := Read16(d, 12);
      Verdicts(d, t);
      SecondType(d, t);
      assert Exec(PROGRAM, d, 6, t) == if t == QINQ then Exec(PROGRAM, d, 7, t) else Exec(PROGRAM, d, 18, t);
      assert Exec(PROGRAM, d, 5, t) == if t == VLAN then Exec(PROGRAM, d, 7, t) else Exec(PROGRAM, d, 6, t);
      assert Exec(PROGRAM, d, 1, t) == if t == IPV4 then Exec(PROGRAM, d, 2, t) else Exec(PROGRAM, d, 5, t);
      if 23 < |d| {
        Verdicts(d, d[23]);
        assert Exec(PROGRAM, d, 3, d[23]) == if d[23] == GRE then 65535 else 0;
      }
    }
  }

  lemma {:induction false} ParsedIsWanted(d: Bytes, at: nat, tags: nat)
    requires at + 2 <= |d| && tags <= 2 && ParseType(d[at..], tags).Some?
    ensures Wanted(d, at, tags)
    decreases |d| - at
  {
    var rest := d[at..];
    assert Read16(rest, 0) == Read16(d, at);
    if IsTag(Read16(d, at)) {
      assert rest[4..] == d[at + 4..];
      ParsedIsWanted(d, at + 4, tags + 1);
    } else {
      assert rest[2..][9] == d[at + 11];
    }
  }

  /** Nothing the parser would accept is lost in the kernel filter. */
  lemma FilterAdmitsParsed(d: Bytes)
    requires Parse(d).Some?
    ensures Filter(d) == 65535
  {
    hide ParseType, Filter;
    FilterExact(d);
    ParsedIsWanted(d, 12, 0);
  }

  /** Behind the two addresses of the frame and t tags stand the EtherType of IPv4 and, at its place
      in the IP header, the protocol number of GRE. */
  ghost predicate GreAt(d: Bytes, t: nat) {
    && t <= 2 && 23 + 4 * t < |d|
    && (forall k :: 0 <= k < t ==> TagAt(d, 12 + 4 * k))
    && d[12 + 4 * t] == 0x08 && d[13 + 4 * t] == 0x00 && d[23 + 4 * t] == 47
  }

  lemma {:induction false} WantedBytes(d: Bytes, tags: nat)
    requires tags <= 2 && forall k :: 0 <= k < tags ==> 14 + 4 * k <= |d| && TagAt(d, 12 + 4 * k)
    ensures Wanted(d, 12 + 4 * tags, tags) <==> exists t: nat :: tags <= t && GreAt(d, t)
    decreases 2 - tags
  {
    var at := 12 + 4 * tags;
    if at + 2 <= |d| {
      ReadIs(d, at);
      if tags < 2 && TagAt(d, at) {
        WantedBytes(d, tags + 1);
        assert 12 + 4 * (tags + 1) == at + 4;
        assert !GreAt(d, tags);
      } else if Wanted(d, at, tags) {
        assert GreAt(d, tags);
      }
      assert !TagAt(d, at) ==> forall t: nat :: tags < t ==> !GreAt(d, t);
    }
  }

  /** The filter passes a packet if and only if GRE over IPv4 stands behind at most two tags. */
  lemma FilterBytes(d: Bytes)
    ensures Filter(d) == 65535 <==> exists t: nat :: GreAt(d, t)
    ensures Filter(d) == 65535 || Filter(d) == 0
  {
    hide Filter, Wanted;
    FilterExact(d);
    WantedBytes(d, 0);
  }
}
