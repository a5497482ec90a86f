/** The open-addressing hash map, updated in place, against a mathematical map. */
module HashMap {
  import opened Types
  import opened Bits
  import opened Sequences
  import opened HashTable

  const MIN_CAP: nat := 16

  /** The home slot is what masking the hash with the capacity less one selects. */
  lemma HomeIsMasked(hash: nat, cap: nat)
    requires PowerOfTwo(cap)
    ensures And(hash, cap - 1) == Home(hash, cap)
  {
    AndRemainder(hash, cap);
  }

  /** What the map has been asked to do and has done since its creation. */
  datatype Ledger<P, V> = Ledger(
    inserts: nat,               // inserts performed
    scanned: nat,               // old slots visited by all rehashes
    peak: nat,                  // most live entries since the last reset
    keysIn: multiset<P>,        // keys handed over
    keysFreed: multiset<P>,     // keys released
    valuesIn: multiset<V>,
    valuesFreed: multiset<V>)

  /** Every key and value handed over is either live or released, and never both. */
  ghost predicate Conserved<P, V>(l: Ledger<P, V>, S: seq<Slot<P, V>>) {
    && l.keysIn == l.keysFreed + multiset(Keys(S))
    && l.valuesIn == l.valuesFreed + multiset(Values(S))
  }

  /** Load, memory and amortised cost. */
  ghost predicate Bounded<P, V>(l: Ledger<P, V>, cap: nat, count: nat, occupied: nat) {
    && MIN_CAP <= cap && PowerOfTwo(cap) && cap % 4 == 0
    && occupied * 4 < cap * 3
    && count <= l.peak && (cap == MIN_CAP || cap < 4 * (l.peak + 1))
    && l.scanned <= 4 * l.inserts
    && l.scanned + 4 * (occupied + 1) <= 4 * l.inserts + 2 * cap
  }

  /** The capacity a rehash before an insert chooses: double only when live entries need it. */
  function NextCap(cap: nat, count: nat): nat { if (count + 1) * 2 > cap then cap * 2 else cap }

  lemma Doubled(cap: nat)
    requires PowerOfTwo(cap)
    ensures PowerOfTwo(cap * 2)
  {
    assert cap * 2 / 2 == cap;
  }

  /** A rehash pays for itself: the inserts that filled the table cover the slots it scans. */
  lemma RehashBounded<P, V>(l: Ledger<P, V>, cap: nat, count: nat, occupied: nat)
    requires Bounded(l, cap, count, occupied) && count <= occupied && (occupied + 1) * 4 >= cap * 3
    ensures var next := NextCap(cap, count);
      Bounded(l.(scanned := l.scanned + cap), next, count, count) && (count + 1) * 4 < next * 3 && count < next
  {
    hide PowerOfTwo;
    Doubled(cap);
  }

  lemma InsertBounded<P, V>(l: Ledger<P, V>, cap: nat, count: nat, occupied: nat, l': Ledger<P, V>, occupied': nat)
    requires Bounded(l, cap, count, occupied) && (occupied + 1) * 4 < cap * 3
    requires occupied <= occupied' <= occupied + 1
    requires l'.inserts == l.inserts + 1 && l'.scanned == l.scanned
    requires l'.peak == if count + 1 > l.peak then count + 1 else l.peak
    ensures Bounded(l', cap, count + 1, occupied')
  {
    hide PowerOfTwo;
  }

  /** The ledger once the live entries of S are released. */
  ghost function Freed<P, V>(l: Ledger<P, V>, S: seq<Slot<P, V>>): Ledger<P, V> {
    l.(keysFreed := l.keysFreed + multiset(Keys(S)), valuesFreed := l.valuesFreed + multiset(Values(S)))
  }

  lemma FreedNext<P, V>(l: Ledger<P, V>, S: seq<Slot<P, V>>, s: Slot<P, V>)
    ensures var f := Freed(l, S);
      Freed(l, S + [s]) == if !s.Full? then f else
        f.(keysFreed := f.keysFreed + multiset{s.key}, valuesFreed := f.valuesFreed + multiset{s.value})
  {
    hide Collect;
    CollectSnoc(S, s, LiveKey);
    CollectSnoc(S, s, LiveValue);
    assert s.Full? ==> multiset([s.key]) == multiset{s.key} && multiset([s.value]) == multiset{s.value};
  }

  lemma FreedNone<P, V>(l: Ledger<P, V>)
    ensures Freed(l, []) == l
  {}

  lemma FreedAll<P, V>(l: Ledger<P, V>, S: seq<Slot<P, V>>)
    requires Conserved(l, S)
    ensures Freed(l, S) == l.(keysFreed := l.keysIn, valuesFreed := l.valuesIn)
  {}

  /** The books after a new entry has entered a reusable slot. */
  lemma InsertBalance<P, V>(S: seq<Slot<P, V>>, i: nat, key: P, value: V, h: nat,
                            keysIn: multiset<P>, keysFreed: multiset<P>,
                            valuesIn: multiset<V>, valuesFreed: multiset<V>)
    requires i < |S| && !S[i].Full?
    requires keysIn == keysFreed + multiset(Keys(S)) && valuesIn == valuesFreed + multiset(Values(S))
    ensures var S' := S[i := Full(key, value, h)];
      && keysIn + multiset{key} == keysFreed + multiset(Keys(S'))
      && valuesIn + multiset{value} == valuesFreed + multiset(Values(S'))
      && |Keys(S')| == |Keys(S)| + 1 && Used(S') == Used(S) + (if S[i].Empty? then 1 else 0)
  {
    hide Keys, Values, Used;
    SlotExchanged(S, i, Full(key, value, h));
    var S' := S[i := Full(key, value, h)];
    assert multiset([key]) == multiset{key} && multiset([value]) == multiset{value};
    assert multiset(Keys(S')) == multiset(Keys(S)) + multiset{key};
    assert multiset(Values(S')) == multiset(Values(S)) + multiset{value};
  }

  /** The books after a value has been replaced. */
  lemma ReplaceBalance<P, V>(S: seq<Slot<P, V>>, i: nat, value: V, valuesIn: multiset<V>, valuesFreed: multiset<V>)
    requires i < |S| && S[i].Full? && valuesIn == valuesFreed + multiset(Values(S))
    ensures var S' := S[i := S[i].(value := value)];
      && multiset(Keys(S')) == multiset(Keys(S)) && |Keys(S')| == |Keys(S)| && Used(S') == Used(S)
      && valuesIn + multiset{value} == valuesFreed + multiset{S[i].value} + multiset(Values(S'))
  {
    hide Keys, Values, Used;
    var S' := S[i := S[i].(value := value)];
    SlotExchanged(S, i, S[i].(value := value));
    assert multiset([value]) == multiset{value} && multiset([S[i].value]) == multiset{S[i].value};
    assert multiset(Values(S')) + multiset{S[i].value} == multiset(Values(S)) + multiset{value};
    assert valuesIn + multiset{value} == valuesFreed + (multiset(Values(S)) + multiset{value});
    assert multiset(Keys(S')) + multiset([S[i].key]) == multiset(Keys(S)) + multiset([S[i].key]);
    Cancel(multiset(Keys(S')), multiset(Keys(S)), multiset([S[i].key]));
  }

  lemma Cancel<T>(a: multiset<T>, b: multiset<T>, c: multiset<T>)
    requires a + c == b + c
    ensures a == b
  {
    assert a == (a + c) - c && b == (b + c) - c;
  }

  /** The books after an entry has become a tombstone. */
  lemma ReleaseBalance<P, V>(S: seq<Slot<P, V>>, i: nat,
                             keysIn: multiset<P>, keysFreed: multiset<P>,
                             valuesIn: multiset<V>, valuesFreed: multiset<V>)
    requires i < |S| && S[i].Full?
    requires keysIn == keysFreed + multiset(Keys(S)) && valuesIn == valuesFreed + multiset(Values(S))
    ensures var S' := S[i := Deleted];
      && keysIn == keysFreed + multiset{S[i].key} + multiset(Keys(S'))
      && valuesIn == valuesFreed + multiset{S[i].value} + multiset(Values(S'))
      && |Keys(S')| + 1 == |Keys(S)| && Used(S') == Used(S)
  {
    hide Keys, Values, Used;
    SlotExchanged(S, i, Deleted);
    var S' := S[i := Deleted];
    assert multiset([S[i].key]) == multiset{S[i].key} && multiset([S[i].value]) == multiset{S[i].value};
    assert multiset(Keys(S')) + multiset{S[i].key} == multiset(Keys(S));
    assert multiset(Values(S')) + multiset{S[i].value} == multiset(Values(S));
  }

  lemma OneLess<K, W>(m: map<K, W>, k: K)
    requires k in m
    ensures |m - {k}| == |m| - 1
  {
    assert (m - {k}).Keys == m.Keys - {k};
  }

  /** Keys are pointers of type P. Two keys are equal when their contents are, and the hash
      is a function of the content. */
  class HashMap<P, C(==), V> {
    const content: P -> C
    const hash: C -> nat

    var slots: array<Slot<P, V>>
    var cap: nat
    var count: nat
    var occupied: nat

    ghost var M: map<C, (P, V)>       // the map this object stands for
    ghost var ledger: Ledger<P, V>

    ghost predicate Valid()
      reads this, slots
    {
      && cap == slots.Length
      && Table(content, hash, slots[..], M)
      && count == |M| == |Keys(slots[..])|
      && occupied == Used(slots[..])
      && Bounded(ledger, cap, count, occupied)
      && Conserved(ledger, slots[..])
    }

    constructor (content: P -> C, hash: C -> nat)
      ensures Valid() && fresh(slots)
      ensures this.content == content && this.hash == hash
      ensures M == map[] && ledger == Ledger(0, 0, 0, multiset{}, multiset{}, multiset{}, multiset{})
    {
      this.content, this.hash := content, hash;
      cap := MIN_CAP;
      slots := new Slot<P, V>[MIN_CAP](_ => Empty);
      count, occupied := 0, 0;
      M, ledger := map[], Ledger(0, 0, 0, multiset{}, multiset{}, multiset{}, multiset{});
      new;
      EmptyTable(content, hash, slots[..]);
    }

    /** Probe for c: the slot that holds it, or the first reusable slot. An empty slot always
        ends the walk, so no bound on the number of probes is ever reached. */
    method Find(c: C) returns (found: Option<nat>, insertAt: nat)
      requires Valid()
      ensures found.Some? <==> c in M
      ensures found.Some? ==>
        found.value < cap && slots[found.value].Full? && content(slots[found.value].key) == c
      ensures found.None? ==>
        insertAt < cap && !slots[insertAt].Full? && Path(slots[..], Home(hash(c), cap), insertAt)
    {
      hide Table, Bounded, Conserved, Keys, Values, Used;
      ghost var S := slots[..];
      ghost var e := RoomLeft();
      var h := Home(hash(c), cap);
      var i := h;
      ghost var probed := 0;
      var reusable: Option<nat> := None;
      while !slots[i].Empty?
        invariant 0 <= probed <= Dist(h, e, cap) && i == Walk(h, probed, cap)
        invariant forall d :: 0 <= d < probed ==>
          var s := S[Walk(h, d, cap)]; !s.Empty? && (s.Full? ==> content(s.key) != c)
        invariant reusable.Some? ==>
          reusable.value < cap && S[reusable.value].Deleted? && Dist(h, reusable.value, cap) < probed
        decreases cap - probed
      {
        if slots[i].Deleted? {
          if reusable.None? {
            reusable := Some(i);
          }
        } else {
          Stored(i);
          if slots[i].hash == hash(c) && content(slots[i].key) == c {
            return Some(i), 0;
          }
        }
        i := if i + 1 == cap then 0 else i + 1;
        probed := probed + 1;
      }
      NotStored(c, probed);
      found := None;
      insertAt := if reusable.Some? then reusable.value else i;
    }

    lemma RoomLeft() returns (e: nat)
      requires Valid()
      ensures e < cap && slots[e].Empty?
    {
      e := EmptyExists(slots[..]);
    }

    lemma NotStored(c: C, probed: nat)
      requires Valid() && probed < cap
      requires var h := Home(hash(c), cap);
        && (forall d :: 0 <= d < probed ==>
              var s := slots[Walk(h, d, cap)]; s.Full? ==> content(s.key) != c)
        && slots[Walk(h, probed, cap)].Empty?
      ensures c !in M
    {
      hide Bounded, Conserved, Keys, Values, Used, Unique, Path;
      ghost var S := slots[..];
      forall j | 0 <= j < cap && S[j].Full? ensures content(S[j].key) != c {
        Absent(content, hash, S, c, probed, j);
      }
    }

    method Lookup(key: P) returns (v: Option<V>)
      requires Valid()
      ensures v == if content(key) in M then Some(M[content(key)].1) else None
    {
      var found, _ := Find(content(key));
      v := if found.Some? then Some(slots[found.value].value) else None;
    }

    method Contains(key: P) returns (b: bool)
      requires Valid()
      ensures b <==> content(key) in M
    {
      var found, _ := Find(content(key));
      b := found.Some?;
    }

    /** m holds the entries of the first i slots. */
    ghost predicate Moved(S: seq<Slot<P, V>>, i: nat, m: map<C, (P, V)>)
      requires i <= |S|
    {
      && (forall j :: 0 <= j < i && S[j].Full? ==>
            content(S[j].key) in m && m[content(S[j].key)] == (S[j].key, S[j].value))
      && (forall c :: c in m ==> exists j :: 0 <= j < i && S[j].Full? && content(S[j].key) == c)
    }

    lemma MovedOnce(S: seq<Slot<P, V>>, i: nat, m: map<C, (P, V)>)
      requires i < |S| && Unique(content, S) && Moved(S, i, m) && S[i].Full?
      ensures content(S[i].key) !in m
      ensures Moved(S, i + 1, m[content(S[i].key) := (S[i].key, S[i].value)])
    {
      var c, m' := content(S[i].key), m[content(S[i].key) := (S[i].key, S[i].value)];
      forall x | x in m' ensures exists j :: 0 <= j < i + 1 && S[j].Full? && content(S[j].key) == x {
        if x != c {
          var j :| 0 <= j < i && S[j].Full? && content(S[j].key) == x;
          assert S[j].Full? && content(S[j].key) == x;
        }
      }
    }

    /** The first i slots of S have been moved into T. */
    ghost predicate Rehashed(S: seq<Slot<P, V>>, i: nat, T: seq<Slot<P, V>>, m: map<C, (P, V)>)
      requires i <= |S|
    {
      && Table(content, hash, T, m) && Moved(S, i, m)
      && multiset(Keys(T)) == multiset(Keys(S[..i])) && multiset(Values(T)) == multiset(Values(S[..i]))
      && Used(T) == |Keys(T)| == |Keys(S[..i])|
    }

    lemma RehashBegins(S: seq<Slot<P, V>>, T: seq<Slot<P, V>>)
      requires forall j :: 0 <= j < |T| ==> T[j].Empty?
      ensures Rehashed(S, 0, T, map[])
    {
      AllEmpty(T);
    }

    /** There is always an empty slot left in the new table. */
    lemma RehashRoom(S: seq<Slot<P, V>>, i: nat, T: seq<Slot<P, V>>, m: map<C, (P, V)>)
      requires i <= |S| && Rehashed(S, i, T, m)
      ensures Used(T) <= |Keys(S)|
    {
      PrefixShorter(S, i);
    }

    lemma RehashStep(S: seq<Slot<P, V>>, i: nat, T: seq<Slot<P, V>>, m: map<C, (P, V)>, j: nat)
      requires i < |S| && Rehashed(S, i, T, m) && S[i].Full?
      requires Table(content, hash, S, M)
      requires j < |T| && T[j].Empty? && Path(T, Home(S[i].hash, |T|), j)
      ensures Rehashed(S, i + 1, T[j := S[i]], m[content(S[i].key) := (S[i].key, S[i].value)])
    {
      hide Keys, Values, Used, Path, Moved;
      MovedOnce(S, i, m);
      assert S[i].hash == hash(content(S[i].key));
      Inserted(content, hash, T, m, j, S[i].key, S[i].value);
      SlotExchanged(T, j, S[i]);
      PrefixGrows(S, i);
    }

    lemma RehashSkip(S: seq<Slot<P, V>>, i: nat, T: seq<Slot<P, V>>, m: map<C, (P, V)>)
      requires i < |S| && Rehashed(S, i, T, m) && !S[i].Full?
      ensures Rehashed(S, i + 1, T, m)
    {
      hide Table, Keys, Values, Used;
      PrefixGrows(S, i);
      forall c | c in m ensures exists j :: 0 <= j < i + 1 && S[j].Full? && content(S[j].key) == c {
        var j :| 0 <= j < i && S[j].Full? && content(S[j].key) == c;
        assert S[j].Full? && content(S[j].key) == c;
      }
    }

    lemma PrefixGrows(S: seq<Slot<P, V>>, i: nat)
      requires i < |S|
      ensures Keys(S[..i + 1]) == Keys(S[..i]) + LiveKey(S[i])
      ensures Values(S[..i + 1]) == Values(S[..i]) + LiveValue(S[i])
    {
      assert S[..i + 1] == S[..i] + [S[i]];
      CollectSnoc(S[..i], S[i], LiveKey);
      CollectSnoc(S[..i], S[i], LiveValue);
    }

    lemma RehashEnds(S: seq<Slot<P, V>>, T: seq<Slot<P, V>>, m: map<C, (P, V)>)
      requires Table(content, hash, S, M) && Rehashed(S, |S|, T, m)
      ensures Table(content, hash, T, M)
      ensures multiset(Keys(T)) == multiset(Keys(S)) && multiset(Values(T)) == multiset(Values(S))
      ensures Used(T) == |Keys(T)| == |Keys(S)|
    {
      assert S[..|S|] == S;
      AllMoved(S, m);
    }

    lemma AllMoved(S: seq<Slot<P, V>>, m: map<C, (P, V)>)
      requires Represents(content, S, M) && Moved(S, |S|, m)
      ensures m == M
    {
      assert m.Keys == M.Keys;
    }

    lemma PrefixShorter(S: seq<Slot<P, V>>, i: nat)
      requires i <= |S|
      ensures |Keys(S[..i])| <= |Keys(S)|
    {
      CollectConcat(S[..i], S[i..], LiveKey);
      assert S == S[..i] + S[i..];
    }

    /** Where the next entry of a rehash goes: the new table has no tombstones. */
    method Vacant(next: array<Slot<P, V>>, h: nat) returns (j: nat)
      requires 0 <= h < next.Length && Used(next[..]) < next.Length
      requires forall i :: 0 <= i < next.Length ==> !next[i].Deleted?
      ensures j < next.Length && next[j].Empty? && Path(next[..], h, j)
    {
      ghost var e := EmptyExists(next[..]);
      ghost var probed := 0;
      j := h;
      while next[j].Full?
        invariant 0 <= probed <= Dist(h, e, next.Length) && j == Walk(h, probed, next.Length)
        invariant forall d :: 0 <= d < probed ==> next[Walk(h, d, next.Length)].Full?
        decreases next.Length - probed
      {
        j := if j + 1 == next.Length then 0 else j + 1;
        probed := probed + 1;
      }
    }

    /** Rehash into newCap slots: same map, no tombstones. */
    method Resize(newCap: nat)
      requires Valid() && count < newCap
      modifies this
      ensures fresh(slots) && cap == newCap == slots.Length && count == old(count) && occupied == count
      ensures M == old(M) && ledger == old(ledger).(scanned := old(ledger).scanned + old(cap))
      ensures Table(content, hash, slots[..], M)
      ensures count == |Keys(slots[..])| == Used(slots[..])
      ensures Conserved(ledger, slots[..])
    {
      hide Table, Bounded, Keys, Values, Used;
      var next := Rehash(newCap);
      ledger := ledger.(scanned := ledger.scanned + cap);
      slots := next;
      cap := newCap;
      occupied := count;
    }

    method Rehash(newCap: nat) returns (next: array<Slot<P, V>>)
      requires Valid() && count < newCap
      ensures fresh(next) && next.Length == newCap
      ensures Table(content, hash, next[..], M)
      ensures multiset(Keys(next[..])) == multiset(Keys(slots[..]))
      ensures multiset(Values(next[..])) == multiset(Values(slots[..]))
      ensures count == |Keys(next[..])| == Used(next[..])
    {
      hide Table, Rehashed, Keys, Values, Used, Path, Bounded, Conserved;
      next := new Slot<P, V>[newCap](_ => Empty);
      ghost var S, m := slots[..], map[];
      RehashBegins(S, next[..]);
      var i := 0;
      while i < cap
        modifies next
        invariant i <= cap
        invariant Rehashed(S, i, next[..], m) && forall k :: 0 <= k < newCap ==> !next[k].Deleted?
      {
        ghost var T := next[..];
        RehashRoom(S, i, T, m);
        if slots[i].Full? {
          var j := Vacant(next, Home(slots[i].hash, newCap));
          RehashStep(S, i, T, m, j);
          next[j] := slots[i];
          assert next[..] == T[j := S[i]];
          m := m[content(S[i].key) := (S[i].key, S[i].value)];
        } else {
          RehashSkip(S, i, T, m);
        }
        i := i + 1;
      }
      RehashEnds(S, next[..], m);
    }

    /** Rehash before an insert, doubling only when live entries need the room. */
    method Reserve()
      requires Valid()
      modifies this
      ensures Valid() && M == old(M) && (slots == old(slots) || fresh(slots))
      ensures ledger == old(ledger).(scanned := ledger.scanned)
      ensures slots == old(slots) ==> slots[..] == old(slots[..])
      ensures (occupied + 1) * 4 < cap * 3
    {
      hide Table, Bounded, PowerOfTwo, Keys, Values, Used;
      if (occupied + 1) * 4 >= cap * 3 {
        FewerLive();
        RehashBounded(ledger, cap, count, occupied);
        Resize(NextCap(cap, count));
      }
    }

    lemma FewerLive()
      requires Valid()
      ensures count <= occupied
    {
      KeysFewer(slots[..]);
    }

    method Insert(key: P, value: V)
      requires Valid()
      modifies this, slots
      ensures Valid() && (slots == old(slots) || fresh(slots))
      ensures var c := content(key);
        && M == old(M)[c := (if c in old(M) then old(M)[c].0 else key, value)]
        && ledger == old(ledger).(
             scanned := ledger.scanned,
             inserts := old(ledger).inserts + 1,
             peak := if |M| > old(ledger).peak then |M| else old(ledger).peak,
             keysIn := old(ledger).keysIn + multiset{key},
             valuesIn := old(ledger).valuesIn + multiset{value},
             keysFreed := old(ledger).keysFreed + (if c in old(M) then multiset{key} else multiset{}),
             valuesFreed := old(ledger).valuesFreed + (if c in old(M) then multiset{old(M)[c].1} else multiset{}))
    {
      hide Table, Keys, Values, Used, PowerOfTwo, Path;
      Reserve();
      var found, insertAt := Find(content(key));
      if found.Some? {
        ReplaceAt(found.value, key, value);
      } else {
        InsertAt(insertAt, key, value);
      }
    }

    /** The key is present: keep the stored key, release the new key and the old value. */
    method ReplaceAt(i: nat, key: P, value: V)
      requires Valid() && i < cap && slots[i].Full? && content(slots[i].key) == content(key)
      modifies this, slots
      ensures Valid() && slots == old(slots) && content(key) in old(M)
      ensures M == old(M)[content(key) := (old(M)[content(key)].0, value)] && |M| == |old(M)| <= old(ledger).peak
      ensures ledger == old(ledger).(
        inserts := old(ledger).inserts + 1,
        keysIn := old(ledger).keysIn + multiset{key}, keysFreed := old(ledger).keysFreed + multiset{key},
        valuesIn := old(ledger).valuesIn + multiset{value},
        valuesFreed := old(ledger).valuesFreed + multiset{old(M)[content(key)].1})
    {
      hide Table, Keys, Values, Used, PowerOfTwo;
      ghost var S, s := slots[..], slots[i];
      Stored(i);
      Replaced(content, hash, S, M, i, value);
      ReplaceBalance(S, i, value, ledger.valuesIn, ledger.valuesFreed);
      ledger := ledger.(
        inserts := ledger.inserts + 1,
        keysIn := ledger.keysIn + multiset{key}, keysFreed := ledger.keysFreed + multiset{key},
        valuesIn := ledger.valuesIn + multiset{value}, valuesFreed := ledger.valuesFreed + multiset{s.value});
      M := M[content(key) := (s.key, value)];
      slots[i] := slots[i].(value := value);
      assert slots[..] == S[i := s.(value := value)];
    }

    method InsertAt(i: nat, key: P, value: V)
      requires Valid() && (occupied + 1) * 4 < cap * 3 && content(key) !in M
      requires i < cap && !slots[i].Full? && Path(slots[..], Home(hash(content(key)), cap), i)
      modifies this, slots
      ensures Valid() && slots == old(slots)
      ensures M == old(M)[content(key) := (key, value)]
      ensures ledger == old(ledger).(
        inserts := old(ledger).inserts + 1, peak := if |M| > old(ledger).peak then |M| else old(ledger).peak,
        keysIn := old(ledger).keysIn + multiset{key}, valuesIn := old(ledger).valuesIn + multiset{value})
    {
      hide Table, Bounded, Keys, Values, Used, PowerOfTwo, Path;
      ghost var S, l, used := slots[..], ledger, occupied;
      var s := Full(key, value, hash(content(key)));
      Inserted(content, hash, S, M, i, key, value);
      InsertBalance(S, i, key, value, s.hash, ledger.keysIn, ledger.keysFreed, ledger.valuesIn, ledger.valuesFreed);
      if slots[i].Empty? {
        occupied := occupied + 1;
      }
      M := M[content(key) := (key, value)];
      slots[i] := s;
      assert slots[..] == S[i := s];
      count := count + 1;
      ledger := ledger.(
        inserts := ledger.inserts + 1, peak := if count > ledger.peak then count else ledger.peak,
        keysIn := ledger.keysIn + multiset{key}, valuesIn := ledger.valuesIn + multiset{value});
      InsertBounded(l, cap, count - 1, used, ledger, occupied);
    }

    /** What the bounds mean for a caller. */
    lemma Within()
      requires Valid()
      ensures PowerOfTwo(cap) && (cap == MIN_CAP || cap < 4 * (ledger.peak + 1))
      ensures |M| <= occupied && occupied * 4 < cap * 3 && ledger.scanned <= 4 * ledger.inserts
    {
      hide Table, Conserved, PowerOfTwo;
      FewerLive();
    }

    lemma Distinct()
      requires Valid()
      ensures Unique(content, slots[..])
    {}

    lemma Stored(i: nat)
      requires Valid() && i < cap && slots[i].Full?
      ensures content(slots[i].key) in M && M[content(slots[i].key)] == (slots[i].key, slots[i].value)
      ensures slots[i].hash == hash(content(slots[i].key))
    {
      assert slots[..][i] == slots[i];
    }

    /** Release the entry in slot i and leave a tombstone. */
    method Release(i: nat)
      requires Valid() && i < cap && slots[i].Full?
      modifies this, slots
      ensures Valid() && slots == old(slots) && cap == old(cap)
      ensures slots[..] == old(slots[..])[i := Deleted]
      ensures M == old(M) - {content(old(slots[i]).key)}
      ensures ledger == old(ledger).(
        keysFreed := old(ledger).keysFreed + multiset{old(slots[i]).key},
        valuesFreed := old(ledger).valuesFreed + multiset{old(slots[i]).value})
    {
      hide Table, Keys, Values, Used, PowerOfTwo;
      ghost var S := slots[..];
      Stored(i);
      Removed(content, hash, S, M, i);
      ReleaseBalance(S, i, ledger.keysIn, ledger.keysFreed, ledger.valuesIn, ledger.valuesFreed);
      OneLess(M, content(slots[i].key));
      ledger := ledger.(keysFreed := ledger.keysFreed + multiset{slots[i].key},
                        valuesFreed := ledger.valuesFreed + multiset{slots[i].value});
      M := M - {content(slots[i].key)};
      slots[i] := Deleted;
      assert slots[..] == S[i := Deleted];
      count := count - 1;
    }

    method Remove(key: P) returns (removed: bool)
      requires Valid()
      modifies this, slots
      ensures Valid() && slots == old(slots)
      ensures removed <==> content(key) in old(M)
      ensures M == old(M) - {content(key)}
      ensures ledger == if !removed then old(ledger) else old(ledger).(
        keysFreed := old(ledger).keysFreed + multiset{old(M)[content(key)].0},
        valuesFreed := old(ledger).valuesFreed + multiset{old(M)[content(key)].1})
    {
      hide Table, Keys, Values, Used, Bounded, Path;
      var found, _ := Find(content(key));
      if found.None? {
        assert M - {content(key)} == M;
        return false;
      }
      Stored(found.value);
      Release(found.value);
      removed := true;
    }

    method Size() returns (n: nat)
      requires Valid()
      ensures n == |M|
    {
      n := count;
    }


    /** Snapshot of the live keys: every entry of the map once, within a buffer of count. */
    method KeyList() returns (keys: seq<P>)
      requires Valid()
      ensures keys == Keys(slots[..]) && |keys| == |M|
      ensures forall j :: 0 <= j < |keys| ==> content(keys[j]) in M && M[content(keys[j])].0 == keys[j]
      ensures forall i, j :: 0 <= i < j < |keys| ==> content(keys[i]) != content(keys[j])
      ensures forall c :: c in M ==> exists j :: 0 <= j < |keys| && content(keys[j]) == c
    {
      hide Table, Bounded, Conserved, Used, Keys;
      ghost var S := slots[..];
      keys := [];
      KeysNil<P, V>();
      assert S[..0] == [];
      var i := 0;
      while i < cap
        invariant i <= cap && keys == Keys(S[..i])
      {
        PrefixGrows(S, i);
        PrefixShorter(S, i + 1);
        if slots[i].Full? {
          assert |keys| < count;
          keys := keys + [slots[i].key];
        }
        i := i + 1;
      }
      assert S[..i] == S;
      KeysExact(S);
    }

    /** Each listed key comes from its own live slot, and every live slot is listed. */
    static lemma {:induction false} KeysOrigin(S: seq<Slot<P, V>>) returns (origin: seq<nat>)
      ensures |origin| == |Keys(S)|
      ensures forall j :: 0 <= j < |origin| ==> origin[j] < |S| && S[origin[j]].Full? && S[origin[j]].key == Keys(S)[j]
      ensures forall j, k :: 0 <= j < k < |origin| ==> origin[j] < origin[k]
      ensures forall k :: 0 <= k < |S| && S[k].Full? ==> exists j :: 0 <= j < |origin| && origin[j] == k
    {
      if S == [] {
        origin := [];
      } else {
        var n := |S| - 1;
        var rest := KeysOrigin(S[..n]);
        origin := rest + if S[n].Full? then [n] else [];
        forall k | 0 <= k < |S| && S[k].Full? ensures exists j :: 0 <= j < |origin| && origin[j] == k {
          if k < n {
            assert S[..n][k].Full?;
            var j :| 0 <= j < |rest| && rest[j] == k;
            assert origin[j] == k;
          } else {
            assert origin[|rest|] == k;
          }
        }
      }
    }

    lemma KeysExact(S: seq<Slot<P, V>>)
      requires Table(content, hash, S, M)
      ensures forall j :: 0 <= j < |Keys(S)| ==> content(Keys(S)[j]) in M && M[content(Keys(S)[j])].0 == Keys(S)[j]
      ensures forall i, j :: 0 <= i < j < |Keys(S)| ==> content(Keys(S)[i]) != content(Keys(S)[j])
      ensures forall c :: c in M ==> exists j :: 0 <= j < |Keys(S)| && content(Keys(S)[j]) == c
    {
      hide Keys, Probed;
      var origin := KeysOrigin(S);
      forall c | c in M ensures exists j :: 0 <= j < |Keys(S)| && content(Keys(S)[j]) == c {
        var k :| 0 <= k < |S| && S[k].Full? && content(S[k].key) == c;
        var j :| 0 <= j < |origin| && origin[j] == k;
        assert content(Keys(S)[j]) == c;
      }
      forall i, j | 0 <= i < j < |Keys(S)| ensures content(Keys(S)[i]) != content(Keys(S)[j]) {
        assert origin[i] != origin[j];
      }
    }

    /** The loop that releases every live entry and marks its slot deleted. */
    method ReleaseAll()
      requires Valid()
      modifies this`ledger, slots
      ensures ledger == old(ledger).(keysFreed := old(ledger).keysIn, valuesFreed := old(ledger).valuesIn)
    {
      hide Table, Bounded, Conserved, Keys, Values, Used, Freed;
      ghost var S, l := slots[..], ledger;
      FreedNone(l);
      assert S[..0] == [];
      var i := 0;
      while i < cap
        invariant i <= cap && forall j :: i <= j < cap ==> slots[j] == S[j]
        invariant ledger == Freed(l, S[..i])
      {
        FreedNext(l, S[..i], S[i]);
        assert S[..i + 1] == S[..i] + [S[i]];
        if slots[i].Full? {
          ledger := ledger.(keysFreed := ledger.keysFreed + multiset{slots[i].key},
                            valuesFreed := ledger.valuesFreed + multiset{slots[i].value});
          slots[i] := Deleted;
        }
        i := i + 1;
      }
      assert S[..i] == S;
      FreedAll(l, S);
    }

    /** Back to an empty table of the least capacity. */
    method RemoveAll()
      requires Valid()
      modifies this, slots
      ensures Valid() && fresh(slots) && M == map[] && cap == MIN_CAP
      ensures ledger == old(ledger).(
        peak := 0, keysFreed := old(ledger).keysIn, valuesFreed := old(ledger).valuesIn)
    {
      hide Table, Keys, Values, Used, PowerOfTwo;
      ReleaseAll();
      count := 0;
      cap := MIN_CAP;
      slots := new Slot<P, V>[MIN_CAP](_ => Empty);
      occupied := 0;
      M, ledger := map[], ledger.(peak := 0);
      EmptyTable(content, hash, slots[..]);
    }

    /** Everything ever handed over has been released exactly once. */
    method Destroy()
      requires Valid()
      modifies this, slots
      ensures ledger == old(ledger).(keysFreed := old(ledger).keysIn, valuesFreed := old(ledger).valuesIn)
    {
      ReleaseAll();
    }
  }

  lemma EmptyTable<P, C, V>(content: P -> C, hash: C -> nat, S: seq<Slot<P, V>>)
    requires forall i :: 0 <= i < |S| ==> S[i].Empty?
    ensures Table(content, hash, S, map[])
    ensures Keys(S) == [] && Values(S) == [] && Used(S) == 0 && PowerOfTwo(MIN_CAP)
  {
    AllEmpty(S);
    assert PowerOfTwo(1) && PowerOfTwo(2) && PowerOfTwo(4) && PowerOfTwo(8);
  }

  lemma KeysNil<P, V>()
    ensures Keys<P, V>([]) == [] && Values<P, V>([]) == []
  {}
}
