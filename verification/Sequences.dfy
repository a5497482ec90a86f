/** Sequences assembled from what the elements of another sequence contribute. */
module Sequences {

  /** What the elements contribute, in order. */
  function Collect<S, T>(s: seq<S>, f: S -> seq<T>): seq<T> {
    if s == [] then []
    else
      var n := |s| - 1;
      Collect(s[..n], f) + f(s[n])
  }

  lemma CollectSnoc<S, T>(s: seq<S>, x: S, f: S -> seq<T>)
    ensures Collect(s + [x], f) == Collect(s, f) + f(x)
  {
    assert (s + [x])[..|s|] == s;
  }

  lemma CollectConcatStep<S, T>(a: seq<S>, b: seq<S>, x: S, f: S -> seq<T>)
    requires Collect(a + b, f) == Collect(a, f) + Collect(b, f)
    ensures Collect(a + (b + [x]), f) == Collect(a, f) + Collect(b + [x], f)
  {
    hide Collect;
    CollectSnoc(b, x, f);
    CollectSnoc(a + b, x, f);
    assert a + (b + [x]) == a + b + [x];
    assert Collect(a, f) + Collect(b, f) + f(x) == Collect(a, f) + (Collect(b, f) + f(x));
  }

  lemma {:induction false} CollectConcat<S, T>(a: seq<S>, b: seq<S>, f: S -> seq<T>)
    ensures Collect(a + b, f) == Collect(a, f) + Collect(b, f)
    decreases |b|
  {
    if b == [] {
      assert a + b == a;
    } else {
      var n := |b| - 1;
      assert b == b[..n] + [b[n]];
      CollectConcat(a, b[..n], f);
      CollectConcatStep(a, b[..n], b[n], f);
    }
  }

  lemma CollectAround<S, T>(a: seq<S>, x: S, b: seq<S>, f: S -> seq<T>)
    ensures Collect(a + [x] + b, f) == Collect(a, f) + f(x) + Collect(b, f)
  {
    hide Collect;
    CollectSnoc(a, x, f);
    CollectConcat(a + [x], b, f);
  }

  /** Overwriting one element exchanges its contribution. */
  lemma Exchanged<S, T>(s: seq<S>, i: nat, x: S, f: S -> seq<T>)
    requires i < |s|
    ensures multiset(Collect(s[i := x], f)) + multiset(f(s[i])) == multiset(Collect(s, f)) + multiset(f(x))
    ensures |Collect(s[i := x], f)| + |f(s[i])| == |Collect(s, f)| + |f(x)|
  {
    hide Collect;
    var a, b := s[..i], s[i + 1..];
    assert s == a + [s[i]] + b && s[i := x] == a + [x] + b;
    CollectAround(a, s[i], b, f);
    CollectAround(a, x, b, f);
  }

  lemma {:induction false} CollectNothing<S, T>(s: seq<S>, f: S -> seq<T>)
    requires forall i :: 0 <= i < |s| ==> f(s[i]) == []
    ensures Collect(s, f) == []
  {
    if s != [] {
      CollectNothing(s[..|s| - 1], f);
    }
  }
}
