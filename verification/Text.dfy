/** Destructive splitting and trimming of a C string in one shared buffer. */
module Text {
  import opened Types

  const NUL: char := '\0'

  predicate IsSpace(c: char) {
    c == ' ' || c == '\t' || c == '\n' || c == '\r' || c == '\U{0B}' || c == '\U{0C}'
  }

  predicate IsDigit(c: char) { '0' <= c <= '9' }

  predicate IsNumber(s: string) { s != [] && forall i :: 0 <= i < |s| ==> IsDigit(s[i]) }

  function Value(s: string): nat
    requires forall i :: 0 <= i < |s| ==> IsDigit(s[i])
  {
    if s == [] then 0
    else
      assert IsDigit(s[|s| - 1]);
      10 * Value(s[..|s| - 1]) + (s[|s| - 1] - '0') as nat
  }

  function TrimLeft(s: string): string {
    if s != [] && IsSpace(s[0]) then TrimLeft(s[1..]) else s
  }

  function TrimRight(s: string): string {
    if s != [] && IsSpace(s[|s| - 1]) then TrimRight(s[..|s| - 1]) else s
  }

  function Trim(s: string): string { TrimRight(TrimLeft(s)) }

  /** Fields between delimiters; empty fields are kept. */
  function Split(s: string, delim: char): seq<string>
    decreases |s|
  {
    var i := Find(s, delim);
    if i == |s| then [s] else [s[..i]] + Split(s[i + 1..], delim)
  }

  /** The first position of c, or the length. */
  function Find(s: string, c: char): (i: nat)
    ensures i <= |s| && (i < |s| ==> s[i] == c) && forall j :: 0 <= j < i ==> s[j] != c
  {
    if s == [] || s[0] == c then 0 else 1 + Find(s[1..], c)
  }

  function Join(fields: seq<string>, delim: char): string {
    if fields == [] then [] else if |fields| == 1 then fields[0] else fields[0] + [delim] + Join(fields[1..], delim)
  }

  /** Splitting loses nothing and leaves no delimiter inside a field. */
  lemma {:induction false} SplitJoins(s: string, delim: char)
    ensures Split(s, delim) != [] && Join(Split(s, delim), delim) == s
    ensures forall f :: f in Split(s, delim) ==> delim !in f
    decreases |s|
  {
    var i := Find(s, delim);
    if i < |s| {
      SplitJoins(s[i + 1..], delim);
      var rest := Split(s[i + 1..], delim);
      var all := [s[..i]] + rest;
      assert all[1..] == rest;
      assert s == s[..i] + [delim] + s[i + 1..];
    }
  }

  /** Blank, tabulator, line feed, vertical tabulator, form feed and carriage return. */
  const SPACES: set<char> := {' ', '\t', '\n', '\U{0B}', '\U{0C}', '\r'}

  ghost predicate AllSpace(s: string) { forall i :: 0 <= i < |s| ==> s[i] in SPACES }

  lemma {:induction false} TrimLeftDrops(s: string) returns (before: string)
    ensures s == before + TrimLeft(s) && AllSpace(before)
    ensures TrimLeft(s) != [] ==> TrimLeft(s)[0] !in SPACES
  {
    if s != [] && IsSpace(s[0]) {
      var b := TrimLeftDrops(s[1..]);
      before := [s[0]] + b;
    } else {
      before := [];
    }
  }

  lemma {:induction false} TrimRightDrops(s: string) returns (after: string)
    ensures s == TrimRight(s) + after && AllSpace(after)
    ensures TrimRight(s) != [] ==> TrimRight(s)[|TrimRight(s)| - 1] !in SPACES
  {
    if s != [] && IsSpace(s[|s| - 1]) {
      var a := TrimRightDrops(s[..|s| - 1]);
      after := a + [s[|s| - 1]];
    } else {
      after := [];
    }
  }

  /** Trimming removes exactly the surrounding whitespace. */
  lemma TrimExact(s: string) returns (before: string, after: string)
    ensures s == before + Trim(s) + after && AllSpace(before) && AllSpace(after)
    ensures Trim(s) != [] ==> Trim(s)[0] !in SPACES && Trim(s)[|Trim(s)| - 1] !in SPACES
  {
    before := TrimLeftDrops(s);
    after := TrimRightDrops(TrimLeft(s));
    assert Trim(s) != [] ==> Trim(s)[0] == TrimLeft(s)[0];
  }

  /** A text without surrounding white space stays as it is. */
  lemma TrimNothing(s: string)
    requires s != [] && s[0] !in SPACES && s[|s| - 1] !in SPACES
    ensures Trim(s) == s
  {}

  /** Splitting undoes joining, for fields that hold no delimiter. */
  lemma {:induction false} JoinSplits(fields: seq<string>, delim: char)
    requires fields != [] && forall i :: 0 <= i < |fields| ==> delim !in fields[i]
    ensures Split(Join(fields, delim), delim) == fields
    decreases |fields|
  {
    hide Split;
    if |fields| == 1 {
      SplitWhole(fields[0], delim);
    } else {
      JoinSplits(fields[1..], delim);
      SplitAt(fields[0], Join(fields[1..], delim), delim);
      assert fields == [fields[0]] + fields[1..];
    }
  }

  lemma SplitWhole(s: string, delim: char)
    requires delim !in s
    ensures Split(s, delim) == [s]
  {}

  lemma SplitAt(a: string, rest: string, delim: char)
    requires delim !in a
    ensures Split(a + [delim] + rest, delim) == [a] + Split(rest, delim)
  {
    var s := a + [delim] + rest;
    assert s[|a|] == delim && forall j :: 0 <= j < |a| ==> s[j] == a[j];
    assert Find(s, delim) == |a|;
    assert s[..|a|] == a && s[|a| + 1..] == rest;
  }

  /** The string of length n that starts at p. */
  ghost predicate Holds(b: seq<char>, p: nat, s: string) {
    p + |s| < |b| && b[p..p + |s|] == s && b[p + |s|] == NUL && NUL !in s
  }

  lemma HeldAt(b: seq<char>, p: nat, s: string, i: nat)
    requires Holds(b, p, s) && i <= |s|
    ensures b[p + i] == (if i < |s| then s[i] else NUL)
    ensures Holds(b, p + i, s[i..]) && (i < |s| ==> s[i] != NUL)
  {
    if i < |s| {
      assert b[p..p + |s|][i] == b[p + i];
      assert s[i] in s;
    }
    assert b[p + i..p + |s|] == s[i..];
  }

  method StrLen(buf: array<char>, p: nat, ghost s: string) returns (n: nat)
    requires Holds(buf[..], p, s)
    ensures n == |s|
  {
    n := 0;
    HeldAt(buf[..], p, s, 0);
    while buf[p + n] != NUL
      invariant n <= |s| && buf[p + n] == (if n < |s| then s[n] else NUL)
      decreases |s| - n
    {
      n := n + 1;
      HeldAt(buf[..], p, s, n);
    }
    HeldAt(buf[..], p, s, n);
  }

  lemma TrimLeftFrom(s: string, i: nat)
    requires i <= |s|
    ensures TrimLeft(s[i..]) == if i < |s| && IsSpace(s[i]) then TrimLeft(s[i + 1..]) else s[i..]
  {
    assert i < |s| ==> s[i..][0] == s[i] && s[i..][1..] == s[i + 1..];
  }

  /** The address of the first character that is not a space. */
  method SkipSpace(buf: array<char>, p: nat, ghost s: string) returns (start: nat)
    requires Holds(buf[..], p, s)
    ensures p <= start <= p + |s| && TrimLeft(s) == s[start - p..]
  {
    hide TrimLeft, Holds, IsSpace;
    Fits(buf[..], p, s);
    start := p;
    ghost var i := 0;
    HeldAt(buf[..], p, s, 0);
    assert s[0..] == s;
    while buf[start] != NUL && IsSpace(buf[start])
      invariant start == p + i && i <= |s| && TrimLeft(s) == TrimLeft(s[i..])
      invariant buf[start] == (if i < |s| then s[i] else NUL)
      decreases |s| - i
    {
      TrimLeftFrom(s, i);
      start, i := start + 1, i + 1;
      HeldAt(buf[..], p, s, i);
    }
    HeldAt(buf[..], p, s, i);
    TrimLeftFrom(s, i);
  }

  /** memmove of a string and its terminator to a lower address. */
  method MoveDown(buf: array<char>, p: nat, from: nat, ghost s: string)
    requires p <= from && Holds(buf[..], from, s)
    modifies buf
    ensures Holds(buf[..], p, s)
    ensures buf[..p] == old(buf[..p]) && buf[from + |s|..] == old(buf[from + |s|..])
  {
    var n := StrLen(buf, from, s);
    var i := 0;
    while i < n + 1
      invariant 0 <= i <= n + 1
      invariant forall j :: 0 <= j < p ==> buf[j] == old(buf[j])
      invariant forall k :: p <= k < p + i ==> buf[k] == (if k - p < n then s[k - p] else NUL)
      invariant forall j :: p + i <= j < buf.Length ==> buf[j] == old(buf[j])
    {
      HeldAt(old(buf[..]), from, s, i);
      assert buf[from + i] == old(buf[from + i]);
      buf[p + i] := buf[from + i];
      i := i + 1;
    }
    HeldAt(old(buf[..]), from, s, n);
    assert buf[p + n] == NUL && buf[p..p + n] == s;
  }

  /** Cut trailing spaces off by moving the terminator down. */
  method TrimTail(buf: array<char>, p: nat, ghost s: string)
    requires Holds(buf[..], p, s)
    modifies buf
    ensures Holds(buf[..], p, TrimRight(s)) && |TrimRight(s)| <= |s|
    ensures buf[..p] == old(buf[..p]) && buf[p + |s|..] == old(buf[p + |s|..])
  {
    var n := StrLen(buf, p, s);
    ghost var kept := s;
    while n > 0 && IsSpace(buf[p + n - 1])
      invariant n == |kept| <= |s| && TrimRight(s) == TrimRight(kept)
      invariant Holds(buf[..], p, kept)
      invariant forall j :: 0 <= j < p || p + |s| <= j < buf.Length ==> buf[j] == old(buf[j])
    {
      HeldAt(buf[..], p, kept, n - 1);
      n := n - 1;
      ghost var cut := kept[..n];
      buf[p + n] := NUL;
      assert buf[p..p + n] == cut;
      kept := cut;
    }
    if n > 0 {
      HeldAt(buf[..], p, kept, n - 1);
    }
  }

  /** str_trim: the string at p becomes its trimmed self; nothing beyond its end changes. */
  method StrTrim(buf: array<char>, p: nat, ghost s: string)
    requires Holds(buf[..], p, s)
    modifies buf
    ensures Holds(buf[..], p, Trim(s)) && |Trim(s)| <= |s|
    ensures buf[..p] == old(buf[..p]) && buf[p + |s|..] == old(buf[p + |s|..])
  {
    hide Trim, TrimLeft, TrimRight, Holds;
    ghost var B := buf[..];
    var start := SkipSpace(buf, p, s);
    HeldAt(buf[..], p, s, start - p);
    ghost var rest := s[start - p..];
    if start != p {
      MoveDown(buf, p, start, rest);
    }
    ghost var C := buf[..];
    Fits(C, p, rest);
    TrimTail(buf, p, rest);
    TrimIs(s);
    TailLater(C, buf[..], p + |rest|, p + |s|);
  }

  lemma TrimIs(s: string)
    ensures Trim(s) == TrimRight(TrimLeft(s))
  {}

  lemma Fits(b: seq<char>, p: nat, s: string)
    requires Holds(b, p, s)
    ensures p + |s| < |b|
  {}

  /** What is equal from one position on is equal from every later one. */
  lemma TailLater(b: seq<char>, c: seq<char>, from: nat, later: nat)
    requires |b| == |c| && from <= later <= |b| && c[from..] == b[from..]
    ensures c[later..] == b[later..]
  {
    assert c[later..] == c[from..][later - from..] && b[later..] == b[from..][later - from..];
  }

  /** str_split_next: the field at p ends at the first delimiter, which becomes a terminator;
      the cursor moves behind it, or is gone when there was none. */
  method StrSplitNext(buf: array<char>, p: nat, delim: char, ghost s: string) returns (next: Option<nat>)
    requires Holds(buf[..], p, s) && delim != NUL
    modifies buf
    ensures var i := Find(s, delim);
      && next == (if i < |s| then Some(p + i + 1) else None)
      && Holds(buf[..], p, s[..i])
      && buf[..p] == old(buf[..p])
      && (i < |s| ==> Holds(buf[..], p + i + 1, s[i + 1..]))
  {
    var n := StrChr(buf, p, delim, s);
    HeldAt(buf[..], p, s, n);
    if buf[p + n] == delim {
      CutField(buf[..], p, s, n);
      ghost var B := buf[..];
      buf[p + n] := NUL;
      assert buf[..] == B[p + n := NUL];
      next := Some(p + n + 1);
    } else {
      assert s[..n] == s;
      next := None;
    }
  }

  /** strchr: how far the first delimiter, or the terminator, is away. */
  method StrChr(buf: array<char>, p: nat, c: char, ghost s: string) returns (n: nat)
    requires Holds(buf[..], p, s)
    ensures n == Find(s, c)
  {
    n := 0;
    HeldAt(buf[..], p, s, 0);
    assert s[0..] == s;
    while buf[p + n] != NUL && buf[p + n] != c
      invariant n <= |s| && Find(s, c) == n + Find(s[n..], c)
      invariant buf[p + n] == (if n < |s| then s[n] else NUL)
      decreases |s| - n
    {
      HeldAt(buf[..], p, s, n);
      assert s[n..][1..] == s[n + 1..];
      n := n + 1;
      HeldAt(buf[..], p, s, n);
    }
    HeldAt(buf[..], p, s, n);
  }

  lemma CutField(b: seq<char>, p: nat, s: string, n: nat)
    requires Holds(b, p, s) && n < |s|
    ensures Holds(b[p + n := NUL], p, s[..n]) && Holds(b[p + n := NUL], p + n + 1, s[n + 1..])
  {
    HeldAt(b, p, s, n + 1);
    var c := b[p + n := NUL];
    assert c[p..p + n] == b[p..p + |s|][..n];
    assert c[p + n + 1..p + |s|] == b[p + n + 1..p + |s|];
  }

  ghost function TrimEach(fields: seq<string>): seq<string> {
    seq(|fields|, i requires 0 <= i < |fields| => Trim(fields[i]))
  }

  method ReadString(buf: array<char>, p: nat, ghost s: string) returns (r: string)
    requires Holds(buf[..], p, s)
    ensures r == s
  {
    var n := StrLen(buf, p, s);
    r := buf[p..p + n];
  }

  /** The loop of the configuration parsers: split and trim in one buffer, field by field. */
  method Fields(list: string, delim: char) returns (fields: seq<string>)
    requires NUL !in list && delim != NUL
    ensures fields == TrimEach(Split(list, delim))
  {
    hide Split, Trim;
    var buf := new char[|list| + 1](i requires 0 <= i <= |list| => if i < |list| then list[i] else NUL);
    assert buf[0..|list|] == list;
    var cursor := Some(0);
    ghost var rest := list;
    fields := [];
    assert [] + TrimEach(Split(list, delim)) == TrimEach(Split(list, delim));
    while cursor.Some?
      invariant cursor.Some? ==> Holds(buf[..], cursor.value, rest)
      invariant cursor.Some? ==> fields + TrimEach(Split(rest, delim)) == TrimEach(Split(list, delim))
      invariant cursor.None? ==> fields == TrimEach(Split(list, delim))
      decreases cursor.Some?, |rest|
    {
      ghost var before := fields;
      var entry;
      entry, cursor := NextField(buf, cursor.value, delim, rest);
      fields := fields + [entry];
      SplitUnfold(rest, delim);
      ghost var i := Find(rest, delim);
      if i < |rest| {
        TrimEachCons(rest[..i], Split(rest[i + 1..], delim));
        ghost var later := TrimEach(Split(rest[i + 1..], delim));
        assert before + ([entry] + later) == fields + later;
        rest := rest[i + 1..];
      } else {
        TrimEachCons(rest, []);
        assert [rest] + [] == [rest] && rest[..i] == rest;
      }
    }
  }

  lemma {:induction false} SplitUnfold(s: string, delim: char)
    ensures var i := Find(s, delim);
      Split(s, delim) == if i == |s| then [s] else [s[..i]] + Split(s[i + 1..], delim)
  {}

  /** One round: cut the next field off, trim it, and read it. */
  method NextField(buf: array<char>, p: nat, delim: char, ghost s: string) returns (entry: string, cursor: Option<nat>)
    requires Holds(buf[..], p, s) && delim != NUL
    modifies buf
    ensures var i := Find(s, delim);
      && entry == Trim(s[..i])
      && (cursor.Some? <==> i < |s|)
      && (i < |s| ==> Holds(buf[..], cursor.value, s[i + 1..]))
  {
    hide Trim;
    ghost var i := Find(s, delim);
    cursor := StrSplitNext(buf, p, delim, s);
    ghost var B := buf[..];
    StrTrim(buf, p, s[..i]);
    entry := ReadString(buf, p, Trim(s[..i]));
    if cursor.Some? {
      StillHeld(B, buf[..], p + i, p + i + 1, s[i + 1..]);
    }
  }

  lemma StillHeld(b: seq<char>, c: seq<char>, from: nat, p: nat, s: string)
    requires from <= p && |b| == |c| && from <= |b| && c[from..] == b[from..] && Holds(b, p, s)
    ensures Holds(c, p, s)
  {
    forall j | from <= j < |b| ensures c[j] == b[j] {
      assert c[from..][j - from] == b[from..][j - from];
    }
    assert c[p..p + |s|] == b[p..p + |s|];
  }

  lemma TrimEachCons(f: string, rest: seq<string>)
    ensures TrimEach([f] + rest) == [Trim(f)] + TrimEach(rest)
  {}

  /** What is left of the buffer starts with the next field of the list. */
  lemma FieldAhead(F: seq<string>, n: nat, rest: string, delim: char)
    requires n <= |F| && F == F[..n] + TrimEach(Split(rest, delim))
    ensures var i := Find(rest, delim);
      && n < |F| && F[n] == Trim(rest[..i])
      && (if i < |rest| then F == F[..n + 1] + TrimEach(Split(rest[i + 1..], delim)) else |F| == n + 1)
  {
    hide Split, Trim, TrimEach;
    var i := Find(rest, delim);
    var later := if i < |rest| then Split(rest[i + 1..], delim) else [];
    SplitUnfold(rest, delim);
    assert i == |rest| ==> rest[..i] == rest;
    assert Split(rest, delim) == [rest[..i]] + later;
    TrimEachCons(rest[..i], later);
    TrimEachNone();
    Advance(F, n, Trim(rest[..i]), TrimEach(later));
  }

  lemma TrimEachNone()
    ensures TrimEach([]) == []
  {}

  lemma Advance(F: seq<string>, n: nat, entry: string, later: seq<string>)
    requires n <= |F| && F == F[..n] + ([entry] + later)
    ensures n < |F| && F[n] == entry && F == F[..n + 1] + later && (later == [] ==> |F| == n + 1)
  {
    var all := F[..n] + ([entry] + later);
    assert all[n] == entry && all[n + 1..] == later;
  }
}
