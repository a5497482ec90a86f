/** Nested netlink attributes (section 2.2 of RFC 3549) written into a fixed-size request. */
module Netlink {
  import opened Types

  const HEADERS: nat := 32        // nlmsghdr and ifinfomsg
  const ROOM: nat := 1024         // attribute bytes behind them
  const NESTED: nat := 0x8000     // NLA_F_NESTED

  datatype Attr = Leaf(type_: nat, data: Bytes) | Nest(type_: nat, children: seq<Attr>)

  function Align(n: nat): (a: nat)
    ensures n <= a < n + 4 && a % 4 == 0
  {
    (n + 3) / 4 * 4
  }

  function Zeros(n: nat): (z: Bytes)
    ensures |z| == n
  {
    seq(n, _ => 0)
  }

  /** Host order, least significant byte first. */
  function U16(x: nat): (b: Bytes)
    requires x < 0x10000
    ensures |b| == 2
  {
    [x % 256, x / 256]
  }

  function Get16(b: Bytes, i: nat): (x: nat)
    requires i + 2 <= |b|
    ensures x < 0x10000
  {
    var lo: nat, hi: nat := b[i], b[i + 1];
    lo + 256 * hi
  }

  /** One attribute header. Lengths and types beyond sixteen bits do not fit a request. */
  function Head(len: nat, type_: nat): (b: Bytes)
    ensures |b| == 4
  {
    U16(len % 0x10000) + U16(type_ % 0x10000)
  }

  function Padded(data: Bytes): (b: Bytes)
    ensures |b| % 4 == 0
  {
    data + Zeros(Align(|data|) - |data|)
  }

  /** What an attribute tree looks like on the wire. */
  function Encode(a: Attr): (b: Bytes)
    ensures |b| % 4 == 0 && |b| >= 4
    decreases a, 1
  {
    match a
    case Leaf(t, d) => Head(4 + |d|, t) + Padded(d)
    case Nest(t, cs) => Head(4 + |EncodeAll(cs)|, t + NESTED) + EncodeAll(cs)
  }

  function EncodeAll(attrs: seq<Attr>): (b: Bytes)
    ensures |b| % 4 == 0
    decreases attrs, 0
  {
    if attrs == [] then []
    else
      var first, rest := Encode(attrs[0]), EncodeAll(attrs[1..]);
      StaysAligned(|first|, |rest|);
      first + rest
  }

  lemma StaysAligned(a: nat, b: nat)
    requires a % 4 == 0 && b % 4 == 0
    ensures (a + b) % 4 == 0
  {}

  /** An attribute on the wire: length and type, least significant byte first, then the payload,
      then zeros up to a multiple of four. */
  lemma LeafOnWire(t: nat, d: Bytes)
    requires t < 0x10000 && 4 + |d| < 0x10000
    ensures var b, len := Encode(Leaf(t, d)), 4 + |d|;
      && len <= |b| < len + 4 && |b| % 4 == 0
      && b[0] == len % 256 && b[1] == len / 256 && b[2] == t % 256 && b[3] == t / 256
      && b[4..len] == d && (forall i :: len <= i < |b| ==> b[i] == 0)
  {}

  /** A nested attribute: its length covers its children, and bit 15 of its type is set. */
  lemma NestOnWire(t: nat, cs: seq<Attr>)
    requires t < 0x8000 && 4 + |EncodeAll(cs)| < 0x10000
    ensures var b, len := Encode(Nest(t, cs)), 4 + |EncodeAll(cs)|;
      && |b| == len && b[4..] == EncodeAll(cs)
      && b[0] == len % 256 && b[1] == len / 256 && b[2] == t % 256 && b[3] == 128 + t / 256
  {
    hide EncodeAll;
  }

  /** Attributes stand one behind the other in the given order. */
  lemma {:induction false} OnWireInOrder(a: seq<Attr>, b: seq<Attr>)
    ensures EncodeAll(a + b) == EncodeAll(a) + EncodeAll(b)
  {
    hide Encode;
    if a == [] {
      assert a + b == b;
    } else {
      assert (a + b)[0] == a[0] && (a + b)[1..] == a[1..] + b;
      OnWireInOrder(a[1..], b);
      assert Encode(a[0]) + (EncodeAll(a[1..]) + EncodeAll(b)) == Encode(a[0]) + EncodeAll(a[1..]) + EncodeAll(b);
    }
  }

  // ---- the writer calls ----

  datatype Op = Put(type_: nat, data: Bytes) | Open(type_: nat) | Close

  /** The attribute bytes so far, and the offsets of the nests still open. */
  datatype Writer = Writer(bytes: Bytes, open: seq<nat>)

  /** link_attr: refused as a whole when the request has no room for it. */
  function PutAttr(b: Bytes, type_: nat, data: Bytes): Option<Bytes> {
    if |b| + Align(4 + |data|) > ROOM then None else Some(b + Head(4 + |data|, type_) + Padded(data))
  }

  /** link_nest_end: the length of the attribute at offset at now reaches to the end. */
  function CloseAt(b: Bytes, at: nat): Bytes
    requires at + 2 <= |b|
  {
    b[..at] + U16((|b| - at) % 0x10000) + b[at + 2..]
  }

  function Do(w: Writer, op: Op): Option<Writer> {
    match op
    case Put(t, d) =>
      var b := PutAttr(w.bytes, t, d);
      if b.None? then None else Some(w.(bytes := b.value))
    case Open(t) =>
      var b := PutAttr(w.bytes, t + NESTED, []);
      if b.None? then None else Some(Writer(b.value, w.open + [|w.bytes|]))
    case Close =>
      if w.open == [] || w.open[|w.open| - 1] + 2 > |w.bytes| then None
      else Some(Writer(CloseAt(w.bytes, w.open[|w.open| - 1]), w.open[..|w.open| - 1]))
  }

  function DoAll(w: Writer, ops: seq<Op>): Option<Writer>
    decreases |ops|
  {
    if ops == [] then Some(w)
    else
      var w' := Do(w, ops[0]);
      if w'.None? then None else DoAll(w'.value, ops[1..])
  }

  /** The properly nested calls that describe a tree. */
  function Calls(a: Attr): seq<Op>
    decreases a, 1
  {
    match a
    case Leaf(t, d) => [Put(t, d)]
    case Nest(t, cs) => [Open(t)] + AllCalls(cs) + [Close]
  }

  function AllCalls(attrs: seq<Attr>): seq<Op>
    decreases attrs, 0
  {
    if attrs == [] then [] else Calls(attrs[0]) + AllCalls(attrs[1..])
  }

  lemma {:induction false} DoAllConcat(w: Writer, a: seq<Op>, b: seq<Op>)
    ensures DoAll(w, a + b) ==
      var w' := DoAll(w, a); if w'.None? then None else DoAll(w'.value, b)
    decreases |a|
  {
    hide Do;
    if a == [] {
      assert a + b == b;
    } else {
      assert (a + b)[0] == a[0] && (a + b)[1..] == a[1..] + b;
      var w' := Do(w, a[0]);
      if w'.Some? {
        DoAllConcat(w'.value, a[1..], b);
      }
    }
  }

  lemma DoOne(w: Writer, op: Op)
    ensures DoAll(w, [op]) == Do(w, op)
  {
    assert [op][1..] == [];
    assert Do(w, op).Some? ==> DoAll(Do(w, op).value, []) == Do(w, op);
  }

  lemma PaddedSize(d: Bytes)
    ensures 4 + |Padded(d)| == Align(4 + |d|)
  {}

  /** Closing a nest turns its provisional header into the final one. */
  lemma CloseNest(b: Bytes, t: nat, body: Bytes)
    ensures CloseAt(b + Head(4, t) + body, |b|) == b + (Head(4 + |body|, t) + body)
  {
    var all := b + Head(4, t) + body;
    assert all[..|b|] == b;
    assert all[|b| + 2..] == U16(t % 0x10000) + body;
    var n := (|all| - |b|) % 0x10000;
    assert b + U16(n) + (U16(t % 0x10000) + body) == b + (U16(n) + U16(t % 0x10000) + body);
  }

  /** The calls append exactly the encoding of the tree, and are refused exactly when the
      encoding does not fit. */
  lemma {:induction false} CallsEncode(w: Writer, a: Attr)
    requires |w.bytes| <= ROOM
    ensures DoAll(w, Calls(a)) ==
      if |w.bytes| + |Encode(a)| <= ROOM then Some(w.(bytes := w.bytes + Encode(a))) else None
    decreases a, 1
  {
    match a
    case Leaf(t, d) =>
      DoOne(w, Put(t, d));
      PaddedSize(d);
      assert w.bytes + Head(4 + |d|, t) + Padded(d) == w.bytes + (Head(4 + |d|, t) + Padded(d));
    case Nest(t, cs) =>
      NestEncodes(w, t, cs);
  }

  lemma {:induction false} NestEncodes(w: Writer, t: nat, cs: seq<Attr>)
    requires |w.bytes| <= ROOM
    ensures DoAll(w, Calls(Nest(t, cs))) ==
      if |w.bytes| + 4 + |EncodeAll(cs)| <= ROOM
      then Some(w.(bytes := w.bytes + Encode(Nest(t, cs)))) else None
    decreases cs, 1
  {
    hide Encode, EncodeAll, AllCalls, Head, Padded;
    var ops := AllCalls(cs);
    DoAllConcat(w, [Open(t)] + ops, [Close]);
    DoAllConcat(w, [Open(t)], ops);
    DoOne(w, Open(t));
    PaddedNothing();
    if |w.bytes| + 4 <= ROOM {
      var w1 := Writer(w.bytes + Head(4, t + NESTED), w.open + [|w.bytes|]);
      assert w.bytes + Head(4, t + NESTED) + [] == w1.bytes;
      assert Do(w, Open(t)) == Some(w1);
      AllCallsEncode(w1, cs);
      if |w1.bytes| + |EncodeAll(cs)| <= ROOM {
        var w2 := w1.(bytes := w1.bytes + EncodeAll(cs));
        DoOne(w2, Close);
        CloseNest(w.bytes, t + NESTED, EncodeAll(cs));
        assert w1.open[..|w.open|] == w.open;
        NestBytes(t, cs);
      }
    }
  }

  lemma PaddedNothing()
    ensures Padded([]) == [] && Align(4) == 4
  {}

  lemma NestBytes(t: nat, cs: seq<Attr>)
    ensures Encode(Nest(t, cs)) == Head(4 + |EncodeAll(cs)|, t + NESTED) + EncodeAll(cs)
  {}

  lemma {:induction false} AllCallsEncode(w: Writer, attrs: seq<Attr>)
    requires |w.bytes| <= ROOM
    ensures DoAll(w, AllCalls(attrs)) ==
      if |w.bytes| + |EncodeAll(attrs)| <= ROOM then Some(w.(bytes := w.bytes + EncodeAll(attrs))) else None
    decreases attrs, 0
  {
    if attrs == [] {
      assert w.bytes + [] == w.bytes;
    } else {
      hide Do, Calls, Encode;
      var a, rest := attrs[0], attrs[1..];
      CallsEncode(w, a);
      DoAllConcat(w, Calls(a), AllCalls(rest));
      if |w.bytes| + |Encode(a)| <= ROOM {
        AllCallsEncode(w.(bytes := w.bytes + Encode(a)), rest);
        assert w.bytes + Encode(a) + EncodeAll(rest) == w.bytes + (Encode(a) + EncodeAll(rest));
      }
    }
  }

  // ---- reading a request back ----

  /** The RTA_OK / RTA_NEXT walk; the nested flag says which payloads are walked in turn. */
  function Decode(b: Bytes): seq<Attr>
    decreases |b|
  {
    if |b| < 4 || Get16(b, 0) < 4 || Get16(b, 0) > |b| then []
    else
      var len, type_ := Get16(b, 0), Get16(b, 2);
      var a := if type_ >= NESTED then Nest(type_ - NESTED, Decode(b[4..len])) else Leaf(type_, b[4..len]);
      [a] + if Align(len) >= |b| then [] else Decode(b[Align(len)..])
  }

  /** Attribute types leave the nested flag free. */
  predicate Typed(a: Attr) {
    a.type_ < NESTED && (a.Nest? ==> forall i :: 0 <= i < |a.children| ==> Typed(a.children[i]))
  }

  lemma HeadReads(len: nat, t: nat, rest: Bytes)
    requires len < 0x10000 && t < 0x10000
    ensures Get16(Head(len, t) + rest, 0) == len && Get16(Head(len, t) + rest, 2) == t
  {
    var b := Head(len, t) + rest;
    assert b[0] == len % 256 && b[1] == len / 256 && b[2] == t % 256 && b[3] == t / 256;
  }

  /** One round of the walk. */
  lemma DecodeStep(t: nat, payload: Bytes, padding: Bytes, rest: Bytes)
    requires t < 0x10000 && 4 + |payload| < 0x10000 && 4 + |payload| + |padding| == Align(4 + |payload|)
    ensures Decode(Head(4 + |payload|, t) + (payload + padding) + rest)
         == [if t >= NESTED then Nest(t - NESTED, Decode(payload)) else Leaf(t, payload)] + Decode(rest)
  {
    hide Decode, Head, Align;
    var len := 4 + |payload|;
    var head := Head(len, t);
    var b := head + (payload + padding) + rest;
    assert b == head + (payload + padding + rest);
    HeadReads(len, t, payload + padding + rest);
    Fields(head, payload, padding, rest);
    DecodeUnfold(b);
    DecodeNothing();
  }

  lemma Fields(head: Bytes, payload: Bytes, padding: Bytes, rest: Bytes)
    requires |head| == 4
    ensures var b := head + (payload + padding) + rest;
      b[4..4 + |payload|] == payload && b[4 + |payload| + |padding|..] == rest
  {}

  lemma DecodeUnfold(b: Bytes)
    requires 4 <= |b| && 4 <= Get16(b, 0) <= |b|
    ensures Decode(b) ==
      var len, type_ := Get16(b, 0), Get16(b, 2);
      [if type_ >= NESTED then Nest(type_ - NESTED, Decode(b[4..len])) else Leaf(type_, b[4..len])]
      + if Align(len) >= |b| then [] else Decode(b[Align(len)..])
  {}

  lemma DecodeNothing()
    ensures Decode([]) == []
  {}

  lemma {:induction false} DecodeFirst(a: Attr, rest: Bytes)
    requires Typed(a) && |Encode(a)| < 0x10000
    ensures Decode(Encode(a) + rest) == [a] + Decode(rest)
    decreases a, 1
  {
    hide Decode, Head;
    match a
    case Leaf(t, d) =>
      PaddedSize(d);
      DecodeStep(t, d, Zeros(Align(|d|) - |d|), rest);
    case Nest(t, cs) =>
      var body := EncodeAll(cs);
      NestBytes(t, cs);
      DecodeNested(t, cs);
      assert body + [] == body;
      DecodeStep(t + NESTED, body, [], rest);
  }

  lemma {:induction false} DecodeNested(t: nat, cs: seq<Attr>)
    requires Typed(Nest(t, cs)) && |EncodeAll(cs)| < 0x10000
    ensures Decode(EncodeAll(cs)) == cs
    decreases cs, 1
  {
    DecodeEncode(cs);
  }

  /** Walking a written request yields exactly the attribute tree that was meant. */
  lemma {:induction false} DecodeEncode(attrs: seq<Attr>)
    requires (forall i :: 0 <= i < |attrs| ==> Typed(attrs[i])) && |EncodeAll(attrs)| < 0x10000
    ensures Decode(EncodeAll(attrs)) == attrs
    decreases attrs, 0
  {
    if attrs == [] {
      DecodeNothing();
    } else {
      hide Encode, Decode, Typed;
      var first, rest := attrs[0], attrs[1..];
      DecodeFirst(first, EncodeAll(rest));
      DecodeEncode(rest);
      assert attrs == [first] + rest;
    }
  }

  /** Any properly nested sequence of calls that succeeds leaves an aligned request, within its
      bounds, that decodes to the intended tree. */
  lemma WrittenDecodes(attrs: seq<Attr>)
    requires forall i :: 0 <= i < |attrs| ==> Typed(attrs[i])
    ensures var w := DoAll(Writer([], []), AllCalls(attrs));
      && (w.Some? <==> |EncodeAll(attrs)| <= ROOM)
      && (w.Some? ==> w.value.open == [] && |w.value.bytes| % 4 == 0 && |w.value.bytes| <= ROOM
                      && Decode(w.value.bytes) == attrs)
  {
    AllCallsEncode(Writer([], []), attrs);
    assert [] + EncodeAll(attrs) == EncodeAll(attrs);
    if |EncodeAll(attrs)| <= ROOM {
      DecodeEncode(attrs);
    }
  }

  // ---- the request buffer ----

  lemma AlignSame(n: nat)
    requires n % 4 == 0
    ensures Align(n) == n
  {}

  /** a with data written over it from position at on. */
  ghost function Spliced(a: Bytes, at: nat, data: Bytes): (b: Bytes)
    requires at + |data| <= |a|
    ensures |b| == |a|
  {
    a[..at] + data + a[at + |data|..]
  }

  class LinkRequest {
    const attrs: array<byte>
    var len: nat                // nlmsg_len

    ghost predicate Valid()
      reads this, attrs
    {
      && attrs.Length == ROOM && HEADERS <= len <= HEADERS + ROOM && len % 4 == 0
      && (forall i :: len - HEADERS <= i < ROOM ==> attrs[i] == 0)
    }

    ghost function Message(): Bytes
      requires Valid()
      reads this, attrs
    {
      attrs[..len - HEADERS]
    }

    constructor ()
      ensures Valid() && Message() == [] && fresh(attrs)
    {
      attrs := new byte[ROOM](_ => 0);
      len := HEADERS;
    }

    method LinkAttr(type_: nat, data: Bytes) returns (ok: bool)
      requires Valid()
      modifies this, attrs
      ensures Valid()
      ensures ok == PutAttr(old(Message()), type_, data).Some?
      ensures Message() == if ok then PutAttr(old(Message()), type_, data).value else old(Message())
    {
      hide Head, Padded, Align, Spliced;
      AlignSame(len);
      var start, size := Align(len), 4 + |data|;
      if start + Align(size) > HEADERS + ROOM {
        return false;
      }
      var at := start - HEADERS;
      ghost var A := attrs[..];
      CopyIn(at, Head(size, type_));
      CopyIn(at + 4, data);
      len := start + Align(size);
      ok := true;
      Appended(A, attrs[..], at, Head(size, type_), data);
      assert attrs[..len - HEADERS] == attrs[..][..len - HEADERS];
    }

    /** memcpy into the request. */
    method CopyIn(at: nat, data: Bytes)
      requires attrs.Length == ROOM && at + |data| <= ROOM
      modifies attrs
      ensures attrs[..] == Spliced(old(attrs[..]), at, data)
    {
      var i := 0;
      while i < |data|
        invariant i <= |data|
        invariant forall j :: 0 <= j < at ==> attrs[j] == old(attrs[j])
        invariant forall j :: at <= j < at + i ==> attrs[j] == data[j - at]
        invariant forall j :: at + i <= j < ROOM ==> attrs[j] == old(attrs[j])
      {
        attrs[at + i] := data[i];
        i := i + 1;
      }
    }

    static lemma Appended(A: Bytes, B: Bytes, at: nat, head: Bytes, data: Bytes)
      requires |A| == ROOM && |head| == 4 && at % 4 == 0 && at + Align(4 + |data|) <= ROOM
      requires forall i :: at <= i < ROOM ==> A[i] == 0
      requires B == Spliced(Spliced(A, at, head), at + 4, data)
      ensures B[..at + Align(4 + |data|)] == A[..at] + head + Padded(data)
      ensures |B| == ROOM && forall i :: at + Align(4 + |data|) <= i < ROOM ==> B[i] == 0
    {
      PaddedSize(data);
      var A1 := A[..at] + head + A[at + 4..];
      assert A1[..at + 4] == A[..at] + head;
      forall i | at + 4 + |data| <= i < ROOM ensures B[i] == 0 {
        assert B[i] == A1[i] == A[i];
      }
      var n := at + Align(4 + |data|);
      assert B[..at + 4 + |data|] == A[..at] + head + data;
      assert B[at + 4 + |data|..n] == Zeros(Align(|data|) - |data|);
      assert B[..n] == B[..at + 4 + |data|] + B[at + 4 + |data|..n];
    }

    method LinkNest(type_: nat) returns (at: Option<nat>)
      requires Valid()
      modifies this, attrs
      ensures Valid()
      ensures at == (if PutAttr(old(Message()), type_ + NESTED, []).Some? then Some(|old(Message())|) else None)
      ensures Message() == if at.Some? then PutAttr(old(Message()), type_ + NESTED, []).value else old(Message())
    {
      hide Head, Padded, Align;
      AlignSame(len);
      var offset := Align(len) - HEADERS;
      var ok := LinkAttr(type_ + NESTED, []);
      at := if ok then Some(offset) else None;
    }

    method LinkNestEnd(at: nat)
      requires Valid() && at + 4 <= len - HEADERS
      modifies attrs
      ensures Valid() && Message() == CloseAt(old(Message()), at)
    {
      var b := U16((len - HEADERS - at) % 0x10000);
      attrs[at], attrs[at + 1] := b[0], b[1];
      ghost var m := attrs[..len - HEADERS];
      assert m == m[..at] + m[at..at + 2] + m[at + 2..];
      assert m[at + 2..] == old(Message())[at + 2..];
    }
  }

  /** Run any sequence of the three calls on a request. nests holds the attributes still open; the
      calls act on the buffer exactly as on the abstract writer, and stop where it is refused. */
  method Write(req: LinkRequest, ops: seq<Op>) returns (ok: bool, nests: seq<nat>)
    requires req.Valid()
    modifies req, req.attrs
    ensures req.Valid()
    ensures ok <==> DoAll(Writer(old(req.Message()), []), ops).Some?
    ensures ok ==> DoAll(Writer(old(req.Message()), []), ops).value == Writer(req.Message(), nests)
  {
    hide PutAttr, CloseAt, Align;
    nests := [];
    ghost var all := DoAll(Writer(req.Message(), []), ops);
    var i := 0;
    while i < |ops|
      invariant i <= |ops| && req.Valid()
      invariant forall n :: 0 <= n < |nests| ==> nests[n] + 4 <= |req.Message()|
      invariant all == DoAll(Writer(req.Message(), nests), ops[i..])
    {
      assert ops[i..][0] == ops[i] && ops[i..][1..] == ops[i + 1..];
      match ops[i] {
        case Put(t, d) =>
          PutGrows(req.Message(), t, d);
          ok := req.LinkAttr(t, d);
          if !ok {
            return;
          }
        case Open(t) =>
          PutGrows(req.Message(), t + NESTED, []);
          var at := req.LinkNest(t);
          if at.None? {
            return false, nests;
          }
          nests := nests + [at.value];
        case Close =>
          if nests == [] {
            return false, nests;
          }
          var top := nests[|nests| - 1];
          ClosedSize(req.Message(), top);
          req.LinkNestEnd(top);
          nests := nests[..|nests| - 1];
      }
      i := i + 1;
    }
    ok := true;
  }

  lemma PutGrows(b: Bytes, t: nat, d: Bytes)
    ensures PutAttr(b, t, d).Some? ==> |b| + 4 <= |PutAttr(b, t, d).value|
  {}

  lemma ClosedSize(b: Bytes, at: nat)
    requires at + 2 <= |b|
    ensures |CloseAt(b, at)| == |b|
  {}

  /** Writing any tree into a new request succeeds if and only if its encoding fits, and what then
      stands in the buffer decodes to the tree. */
  method WriteTree(attrs: seq<Attr>) returns (req: LinkRequest, ok: bool)
    requires forall i :: 0 <= i < |attrs| ==> Typed(attrs[i])
    ensures fresh(req) && fresh(req.attrs) && req.Valid()
    ensures ok <==> |EncodeAll(attrs)| <= 1024
    ensures ok ==> req.Message() == EncodeAll(attrs) && Decode(req.Message()) == attrs
  {
    hide Typed, Decode, EncodeAll, AllCalls, DoAll;
    req := new LinkRequest();
    AllCallsEncode(Writer([], []), attrs);
    assert [] + EncodeAll(attrs) == EncodeAll(attrs);
    var nests;
    ok, nests := Write(req, AllCalls(attrs));
    if ok {
      DecodeEncode(attrs);
    }
  }

  lemma PutIsLeaf(b: Bytes, t: nat, d: Bytes)
    ensures |Encode(Leaf(t, d))| == Align(4 + |d|)
    ensures PutAttr(b, t, d) == if |b| + Align(4 + |d|) > ROOM then None else Some(b + Encode(Leaf(t, d)))
  {
    PaddedSize(d);
    assert b + Head(4 + |d|, t) + Padded(d) == b + (Head(4 + |d|, t) + Padded(d));
  }

  lemma OpenIsHead(b: Bytes, t: nat)
    ensures PutAttr(b, t, []) == if |b| + 4 > ROOM then None else Some(b + Head(4, t))
  {
    PaddedNothing();
    assert b + Head(4, t) + [] == b + Head(4, t);
  }

  lemma EncodePair(a: Attr, b: Attr)
    ensures EncodeAll([a, b]) == Encode(a) + Encode(b)
  {
    hide Encode;
    EncodeCons(a, [b]);
    EncodeCons(b, []);
    assert [a] + [b] == [a, b] && [b] + [] == [b];
    assert Encode(b) + [] == Encode(b);
  }

  lemma EncodeCons(a: Attr, rest: seq<Attr>)
    ensures EncodeAll([a] + rest) == Encode(a) + EncodeAll(rest)
  {
    assert ([a] + rest)[1..] == rest;
  }

  lemma EncodeSnoc(rest: seq<Attr>, a: Attr)
    ensures EncodeAll(rest + [a]) == EncodeAll(rest) + Encode(a)
  {
    hide Encode;
    if rest == [] {
      EncodeCons(a, []);
      assert [] + [a] == [a] + [];
    } else {
      var r := rest[1..];
      EncodeSnoc(r, a);
      assert rest + [a] == [rest[0]] + (r + [a]) && rest == [rest[0]] + r;
      EncodeCons(rest[0], r + [a]);
      EncodeCons(rest[0], r);
      assert Encode(rest[0]) + EncodeAll(r) + Encode(a) == Encode(rest[0]) + (EncodeAll(r) + Encode(a));
    }
  }

  const IFNAME := 3
  const LINKINFO := 18
  const INFO_KIND := 1
  const INFO_DATA := 2
  const GRE_LINK := 1
  const GRE_LOCAL := 6
  const GRE_REMOTE := 7
  const GRE_PMTUDISC := 10

  method PutLeaf(req: LinkRequest, t: nat, d: Bytes) returns (ok: bool)
    requires req.Valid()
    modifies req, req.attrs
    ensures req.Valid() && ok == (|old(req.Message())| + Align(4 + |d|) <= ROOM)
    ensures ok ==> req.Message() == old(req.Message()) + Encode(Leaf(t, d))
    ensures ok ==> |req.Message()| == |old(req.Message())| + Align(4 + |d|)
  {
    hide Encode, PutAttr, Align;
    PutIsLeaf(req.Message(), t, d);
    ok := req.LinkAttr(t, d);
  }

  /** The four leaves that describe the tunnel endpoints. */
  method PutGreData(req: LinkRequest, link: Bytes, local: Bytes, remote: Bytes) returns (ok: bool)
    requires req.Valid() && |link| == 4 && |local| == 4 && |remote| == 4
    modifies req, req.attrs
    ensures req.Valid() && ok == (|old(req.Message())| + 32 <= ROOM)
    ensures ok ==> req.Message() == old(req.Message()) + EncodeAll(GreData(link, local, remote))
    ensures ok ==> |req.Message()| == |old(req.Message())| + 32
  {
    hide Encode, EncodeAll;
    GreDataBytes(req.Message(), link, local, remote);
    ok := PutLeaf(req, GRE_LINK, link);
    if ok {
      ok := PutLeaf(req, GRE_LOCAL, local);
    }
    if ok {
      ok := PutLeaf(req, GRE_REMOTE, remote);
    }
    if ok {
      ok := PutLeaf(req, GRE_PMTUDISC, [0]);
    }
  }

  function GreData(link: Bytes, local: Bytes, remote: Bytes): seq<Attr> {
    [Leaf(GRE_LINK, link), Leaf(GRE_LOCAL, local), Leaf(GRE_REMOTE, remote), Leaf(GRE_PMTUDISC, [0])]
  }

  lemma GreDataBytes(m: Bytes, link: Bytes, local: Bytes, remote: Bytes)
    ensures m + Encode(Leaf(GRE_LINK, link)) + Encode(Leaf(GRE_LOCAL, local)) + Encode(Leaf(GRE_REMOTE, remote))
            + Encode(Leaf(GRE_PMTUDISC, [0])) == m + EncodeAll(GreData(link, local, remote))
  {
    hide Encode, EncodeAll;
    var a, b, c, d := Leaf(GRE_LINK, link), Leaf(GRE_LOCAL, local), Leaf(GRE_REMOTE, remote), Leaf(GRE_PMTUDISC, [0]);
    EncodePair(a, b);
    EncodeSnoc([a, b], c);
    EncodeSnoc([a, b, c], d);
    assert [a, b] + [c] == [a, b, c] && [a, b, c] + [d] == GreData(link, local, remote);
  }

  method PutInfoData(req: LinkRequest, link: Bytes, local: Bytes, remote: Bytes) returns (ok: bool)
    requires req.Valid() && |link| == 4 && |local| == 4 && |remote| == 4
    modifies req, req.attrs
    ensures req.Valid() && ok == (|old(req.Message())| + 36 <= ROOM)
    ensures ok ==> req.Message() == old(req.Message()) + Encode(Nest(INFO_DATA, GreData(link, local, remote)))
    ensures ok ==> |req.Message()| == |old(req.Message())| + 36
  {
    hide Encode, EncodeAll, PutAttr, Head;
    ghost var M := req.Message();
    OpenIsHead(M, INFO_DATA + NESTED);
    var data := req.LinkNest(INFO_DATA);
    if data.None? {
      return false;
    }
    ok := PutGreData(req, link, local, remote);
    if !ok {
      return;
    }
    CloseNest(M, INFO_DATA + NESTED, EncodeAll(GreData(link, local, remote)));
    req.LinkNestEnd(data.value);
    NestBytes(INFO_DATA, GreData(link, local, remote));
  }

  method PutLinkInfo(req: LinkRequest, kind: Bytes, link: Bytes, local: Bytes, remote: Bytes) returns (ok: bool)
    requires req.Valid() && |link| == 4 && |local| == 4 && |remote| == 4
    modifies req, req.attrs
    ensures req.Valid() && ok == (|old(req.Message())| + 40 + Align(4 + |kind|) <= ROOM)
    ensures ok ==> req.Message() == old(req.Message()) + Encode(Nest(LINKINFO, GreInfo(kind, link, local, remote)))
  {
    hide Encode, EncodeAll, PutAttr, Head, Align, CloseAt, GreData;
    ghost var M := req.Message();
    OpenIsHead(M, LINKINFO + NESTED);
    var info := req.LinkNest(LINKINFO);
    if info.None? {
      return false;
    }
    ok := PutLeaf(req, INFO_KIND, kind);
    if ok {
      ok := PutInfoData(req, link, local, remote);
    }
    if !ok {
      return;
    }
    ClosePair(M, LINKINFO, Leaf(INFO_KIND, kind), Nest(INFO_DATA, GreData(link, local, remote)));
    req.LinkNestEnd(info.value);
  }

  lemma ClosePair(m: Bytes, t: nat, a: Attr, b: Attr)
    ensures CloseAt(m + Head(4, t + NESTED) + Encode(a) + Encode(b), |m|) == m + Encode(Nest(t, [a, b]))
  {
    hide Encode, EncodeAll, Head, CloseAt;
    EncodePair(a, b);
    NestBytes(t, [a, b]);
    CloseNest(m, t + NESTED, EncodeAll([a, b]));
    var h := m + Head(4, t + NESTED);
    assert h + Encode(a) + Encode(b) == h + (Encode(a) + Encode(b));
  }

  function GreInfo(kind: Bytes, link: Bytes, local: Bytes, remote: Bytes): seq<Attr> {
    [Leaf(INFO_KIND, kind), Nest(INFO_DATA, GreData(link, local, remote))]
  }

  function GreTree(name: Bytes, kind: Bytes, link: Bytes, local: Bytes, remote: Bytes): seq<Attr> {
    [Leaf(IFNAME, name), Nest(LINKINFO, GreInfo(kind, link, local, remote))]
  }

  lemma GreTyped(name: Bytes, kind: Bytes, link: Bytes, local: Bytes, remote: Bytes)
    ensures var t := GreTree(name, kind, link, local, remote); forall i :: 0 <= i < |t| ==> Typed(t[i])
  {
    assert forall a :: a in GreData(link, local, remote) ==> Typed(a);
    assert Typed(Nest(INFO_DATA, GreData(link, local, remote)));
    assert Typed(Nest(LINKINFO, GreInfo(kind, link, local, remote)));
  }

  /** The request that creates a gretap interface always fits, and says what was meant. */
  method GreRequest(name: Bytes, kind: Bytes, link: Bytes, local: Bytes, remote: Bytes)
    returns (req: LinkRequest, ok: bool)
    requires |link| == 4 && |local| == 4 && |remote| == 4
    ensures fresh(req) && fresh(req.attrs) && req.Valid()
    ensures ok ==>
      var data := [Leaf(1, link), Leaf(6, local), Leaf(7, remote), Leaf(10, [0])];
      Decode(req.Message()) == [Leaf(3, name), Nest(18, [Leaf(1, kind), Nest(2, data)])]
    ensures |name| <= 16 && |kind| <= 16 ==> ok
  {
    hide Encode, EncodeAll, Decode;
    req := new LinkRequest();
    ok := PutLeaf(req, IFNAME, name);
    if ok {
      ok := PutLinkInfo(req, kind, link, local, remote);
    }
    if ok {
      EncodePair(Leaf(IFNAME, name), Nest(LINKINFO, GreInfo(kind, link, local, remote)));
      assert [] + Encode(Leaf(IFNAME, name)) == Encode(Leaf(IFNAME, name));
      GreTyped(name, kind, link, local, remote);
      DecodeEncode(GreTree(name, kind, link, local, remote));
    }
  }
}
