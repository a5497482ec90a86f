/** Slot sequences of an open-addressing table with linear probing and tombstones. */
module HashTable {
  import opened Sequences

  /** A key is a pointer of type P; what it points to decides equality and hash. */
  datatype Slot<P, V> = Empty | Full(key: P, value: V, hash: nat) | Deleted

  /** The slot d steps after start in a table of cap slots. */
  function Walk(start: nat, d: nat, cap: nat): (i: nat)
    requires start < cap && d < cap
    ensures i < cap
  {
    if start + d < cap then start + d else start + d - cap
  }

  function Dist(start: nat, i: nat, cap: nat): (d: nat)
    requires start < cap && i < cap
    ensures d < cap && Walk(start, d, cap) == i
  {
    if start <= i then i - start else i + cap - start
  }

  function Home(hash: nat, cap: nat): (i: nat)
    requires cap > 0
    ensures i < cap
  {
    hash % cap
  }

  /** No slot on the way from start to i, exclusive, is empty. */
  ghost predicate Path<P, V>(slots: seq<Slot<P, V>>, start: nat, i: nat)
    requires start < |slots| && i < |slots|
  {
    forall d :: 0 <= d < Dist(start, i, |slots|) ==> !slots[Walk(start, d, |slots|)].Empty?
  }

  /** Every live key can be found by probing from its home slot. */
  ghost predicate Probed<P, C, V>(content: P -> C, hash: C -> nat, slots: seq<Slot<P, V>>) {
    forall i :: 0 <= i < |slots| && slots[i].Full? ==>
      slots[i].hash == hash(content(slots[i].key)) && Path(slots, Home(slots[i].hash, |slots|), i)
  }

  ghost predicate Unique<P, C, V>(content: P -> C, slots: seq<Slot<P, V>>) {
    forall i, j :: 0 <= i < |slots| && 0 <= j < |slots| && slots[i].Full? && slots[j].Full? ==>
      content(slots[i].key) == content(slots[j].key) ==> i == j
  }

  /** The live slots are exactly the entries of m. */
  ghost predicate Represents<P, C, V>(content: P -> C, slots: seq<Slot<P, V>>, m: map<C, (P, V)>) {
    && (forall i :: 0 <= i < |slots| && slots[i].Full? ==>
          content(slots[i].key) in m && m[content(slots[i].key)] == (slots[i].key, slots[i].value))
    && (forall c :: c in m ==> exists i :: 0 <= i < |slots| && slots[i].Full? && content(slots[i].key) == c)
  }

  ghost predicate Table<P, C, V>(content: P -> C, hash: C -> nat, slots: seq<Slot<P, V>>, m: map<C, (P, V)>) {
    Probed(content, hash, slots) && Unique(content, slots) && Represents(content, slots, m)
  }

  function LiveKey<P, V>(s: Slot<P, V>): seq<P> { if s.Full? then [s.key] else [] }

  function LiveValue<P, V>(s: Slot<P, V>): seq<V> { if s.Full? then [s.value] else [] }

  function Mark<P, V>(s: Slot<P, V>): seq<bool> { if s.Empty? then [] else [true] }

  /** The live keys, in slot order. */
  function Keys<P, V>(slots: seq<Slot<P, V>>): seq<P> { Collect(slots, LiveKey) }

  function Values<P, V>(slots: seq<Slot<P, V>>): seq<V> { Collect(slots, LiveValue) }

  /** The number of live and deleted slots. */
  function Used<P, V>(slots: seq<Slot<P, V>>): nat { |Collect(slots, Mark)| }

  lemma SlotExchanged<P, V>(slots: seq<Slot<P, V>>, i: nat, s: Slot<P, V>)
    requires i < |slots|
    ensures var slots' := slots[i := s];
      && multiset(Keys(slots')) + multiset(LiveKey(slots[i])) == multiset(Keys(slots)) + multiset(LiveKey(s))
      && multiset(Values(slots')) + multiset(LiveValue(slots[i])) == multiset(Values(slots)) + multiset(LiveValue(s))
      && |Keys(slots')| + |LiveKey(slots[i])| == |Keys(slots)| + |LiveKey(s)|
      && Used(slots') + |Mark(slots[i])| == Used(slots) + |Mark(s)|
  {
    Exchanged(slots, i, s, LiveKey);
    Exchanged(slots, i, s, LiveValue);
    Exchanged(slots, i, s, Mark);
  }

  lemma {:induction false} EmptyExists<P, V>(slots: seq<Slot<P, V>>) returns (e: nat)
    requires Used(slots) < |slots|
    ensures e < |slots| && slots[e].Empty?
  {
    var n := |slots| - 1;
    if slots[n].Empty? {
      e := n;
    } else {
      e := EmptyExists(slots[..n]);
    }
  }

  lemma AllEmpty<P, V>(slots: seq<Slot<P, V>>)
    requires forall i :: 0 <= i < |slots| ==> slots[i].Empty?
    ensures Keys(slots) == [] && Values(slots) == [] && Used(slots) == 0
  {
    CollectNothing(slots, LiveKey);
    CollectNothing(slots, LiveValue);
    CollectNothing(slots, Mark);
  }

  lemma {:induction false} KeysFewer<P, V>(slots: seq<Slot<P, V>>)
    ensures |Keys(slots)| <= Used(slots) <= |slots|
  {
    if slots != [] {
      KeysFewer(slots[..|slots| - 1]);
    }
  }

  /** If probing from the home slot of c has passed only other keys and then meets an empty
      slot, the key is nowhere in the table: tombstones never hide a live key. */
  lemma Absent<P, C, V>(content: P -> C, hash: C -> nat, slots: seq<Slot<P, V>>, c: C, probed: nat, j: nat)
    requires Probed(content, hash, slots) && probed < |slots|
    requires var h := Home(hash(c), |slots|);
      && (forall d :: 0 <= d < probed ==>
            var s := slots[Walk(h, d, |slots|)]; s.Full? ==> content(s.key) != c)
      && slots[Walk(h, probed, |slots|)].Empty?
    requires j < |slots| && slots[j].Full?
    ensures content(slots[j].key) != c
  {
    var h := Home(hash(c), |slots|);
    assert slots[j].hash == hash(c) ==> Path(slots, h, j);
    assert slots[Walk(h, Dist(h, j, |slots|), |slots|)] == slots[j];
  }

  /** A new key in a reusable slot that probing reaches. */
  lemma Inserted<P, C, V>(content: P -> C, hash: C -> nat, slots: seq<Slot<P, V>>, m: map<C, (P, V)>,
                          i: nat, key: P, value: V)
    requires Table(content, hash, slots, m) && i < |slots| && !slots[i].Full?
    requires content(key) !in m && Path(slots, Home(hash(content(key)), |slots|), i)
    ensures Table(content, hash, slots[i := Full(key, value, hash(content(key)))], m[content(key) := (key, value)])
  {
    var c := content(key);
    var slots' := slots[i := Full(key, value, hash(c))];
    var m' := m[c := (key, value)];
    forall k | 0 <= k < |slots'| && slots'[k].Full?
      ensures slots'[k].hash == hash(content(slots'[k].key)) && Path(slots', Home(slots'[k].hash, |slots'|), k)
    {
      if k != i {
        assert Path(slots, Home(slots[k].hash, |slots|), k);
      }
    }
    forall x | x in m' ensures exists k :: 0 <= k < |slots'| && slots'[k].Full? && content(slots'[k].key) == x {
      if x == c {
        assert slots'[i].Full? && content(slots'[i].key) == x;
      } else {
        var k :| 0 <= k < |slots| && slots[k].Full? && content(slots[k].key) == x;
        assert slots'[k].Full? && content(slots'[k].key) == x;
      }
    }
  }

  lemma Replaced<P, C, V>(content: P -> C, hash: C -> nat, slots: seq<Slot<P, V>>, m: map<C, (P, V)>, i: nat, value: V)
    requires Table(content, hash, slots, m) && i < |slots| && slots[i].Full?
    ensures var s := slots[i];
      Table(content, hash, slots[i := s.(value := value)], m[content(s.key) := (s.key, value)])
  {
    var s := slots[i];
    var slots' := slots[i := s.(value := value)];
    var m' := m[content(s.key) := (s.key, value)];
    forall k | 0 <= k < |slots'| && slots'[k].Full?
      ensures slots'[k].hash == hash(content(slots'[k].key)) && Path(slots', Home(slots'[k].hash, |slots'|), k)
    {
      assert Path(slots, Home(slots[k].hash, |slots|), k);
    }
    forall x | x in m' ensures exists k :: 0 <= k < |slots'| && slots'[k].Full? && content(slots'[k].key) == x {
      var k :| 0 <= k < |slots| && slots[k].Full? && content(slots[k].key) == x;
      assert slots'[k].Full? && content(slots'[k].key) == x;
    }
  }

  /** A tombstone keeps every other key reachable. */
  lemma Removed<P, C, V>(content: P -> C, hash: C -> nat, slots: seq<Slot<P, V>>, m: map<C, (P, V)>, i: nat)
    requires Table(content, hash, slots, m) && i < |slots| && slots[i].Full?
    ensures Table(content, hash, slots[i := Deleted], m - {content(slots[i].key)})
  {
    var slots' := slots[i := Deleted];
    var m' := m - {content(slots[i].key)};
    forall k | 0 <= k < |slots'| && slots'[k].Full?
      ensures slots'[k].hash == hash(content(slots'[k].key)) && Path(slots', Home(slots'[k].hash, |slots'|), k)
    {
      assert Path(slots, Home(slots[k].hash, |slots|), k);
    }
    forall x | x in m' ensures exists k :: 0 <= k < |slots'| && slots'[k].Full? && content(slots'[k].key) == x {
      var k :| 0 <= k < |slots| && slots[k].Full? && content(slots[k].key) == x;
      assert slots'[k].Full? && content(slots'[k].key) == x;
    }
  }
}
