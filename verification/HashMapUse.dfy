/** Iteration with removal, and whole histories of hash-map operations. */
module HashMapUse {
  import opened Types
  import opened Bits
  import opened HashTable
  import opened HashMap

  /** From slot on the table holds exactly the entries of start not yet visited. */
  ghost predicate Pending<P, C, V>(content: P -> C, S: seq<Slot<P, V>>, slot: nat, start: set<C>, visited: set<C>) {
    && (forall i :: slot <= i < |S| && S[i].Full? ==> content(S[i].key) !in visited)
    && (forall c :: c in start && c !in visited ==>
          exists i :: slot <= i < |S| && S[i].Full? && content(S[i].key) == c)
  }

  lemma PendingAtStart<P, C, V>(content: P -> C, S: seq<Slot<P, V>>, m: map<C, (P, V)>)
    requires Represents(content, S, m)
    ensures Pending(content, S, 0, m.Keys, {})
  {}

  lemma PendingSkip<P, C, V>(content: P -> C, S: seq<Slot<P, V>>, slot: nat, i: nat, start: set<C>, visited: set<C>)
    requires Pending(content, S, slot, start, visited) && slot <= i <= |S|
    requires forall j :: slot <= j < i ==> !S[j].Full?
    ensures Pending(content, S, i, start, visited)
  {
    forall c | c in start && c !in visited
      ensures exists j :: i <= j < |S| && S[j].Full? && content(S[j].key) == c
    {
      var j :| slot <= j < |S| && S[j].Full? && content(S[j].key) == c;
      assert j >= i;
    }
  }

  lemma PendingVisit<P, C, V>(content: P -> C, S: seq<Slot<P, V>>, slot: nat, start: set<C>, visited: set<C>)
    requires Pending(content, S, slot, start, visited) && slot < |S| && S[slot].Full? && Unique(content, S)
    ensures content(S[slot].key) !in visited
    ensures Pending(content, S, slot + 1, start, visited + {content(S[slot].key)})
  {
    var visited' := visited + {content(S[slot].key)};
    forall c | c in start && c !in visited'
      ensures exists i :: slot + 1 <= i < |S| && S[i].Full? && content(S[i].key) == c
    {
      var i :| slot <= i < |S| && S[i].Full? && content(S[i].key) == c;
      assert i != slot;
    }
  }

  lemma PendingBehind<P, C, V>(content: P -> C, S: seq<Slot<P, V>>, slot: nat, start: set<C>, visited: set<C>, j: nat)
    requires Pending(content, S, slot, start, visited) && j < slot <= |S|
    ensures Pending(content, S[j := Deleted], slot, start, visited)
  {
    var S' := S[j := Deleted];
    forall c | c in start && c !in visited
      ensures exists i :: slot <= i < |S'| && S'[i].Full? && content(S'[i].key) == c
    {
      var i :| slot <= i < |S| && S[i].Full? && content(S[i].key) == c;
      assert S'[i] == S[i];
    }
  }

  /** The map is what it was at the start without the removed entries, all of which were visited. */
  ghost predicate Tracked<P, C, V>(m: map<C, (P, V)>, start: map<C, (P, V)>, visited: set<C>, removed: set<C>) {
    m == start - removed && removed <= visited <= start.Keys
  }

  lemma TrackedVisit<P, C, V>(m: map<C, (P, V)>, start: map<C, (P, V)>, visited: set<C>, removed: set<C>, c: C)
    requires Tracked(m, start, visited, removed) && c in m
    ensures Tracked(m, start, visited + {c}, removed) && c in start && start[c] == m[c]
  {}

  lemma TrackedRemove<P, C, V>(m: map<C, (P, V)>, start: map<C, (P, V)>, visited: set<C>, removed: set<C>, c: C)
    requires Tracked(m, start, visited, removed) && c in visited
    ensures Tracked(m - {c}, start, visited, removed + {c})
  {
    assert m - {c} == start - (removed + {c});
  }

  lemma TrackedNone<P, C, V>(m: map<C, (P, V)>)
    ensures Tracked(m, m, {}, {})
  {}

  /** The position of an iteration over a table that only this iteration changes. */
  class Iter<P, C(==), V> {
    const table: HashMap<P, C, V>
    var slot: nat
    var current: nat
    var valid: bool

    ghost const start: map<C, (P, V)>   // the entries live when the iteration began
    ghost var visited: set<C>
    ghost var removed: set<C>

    ghost predicate Valid()
      reads this, table, table.slots
    {
      && table.Valid() && slot <= table.cap
      && Tracked(table.M, start, visited, removed)
      && Pending(table.content, table.slots[..], slot, start.Keys, visited)
      && (valid ==> current < slot && table.slots[current].Full?)
    }

    constructor (m: HashMap<P, C, V>)
      requires m.Valid()
      ensures Valid() && table == m && start == m.M && visited == {} && removed == {} && !valid
    {
      hide Table, Bounded, Conserved, Keys, Values, Used, Pending, Tracked;
      table := m;
      slot, current, valid := 0, 0, false;
      start, visited, removed := m.M, {}, {};
      new;
      TrackedNone(m.M);
      Begins(m);
    }

    static lemma Begins(m: HashMap<P, C, V>)
      requires m.Valid()
      ensures Pending(m.content, m.slots[..], 0, m.M.Keys, {})
    {
      hide Probed, Unique, Bounded, Conserved, Keys, Values, Used, Pending;
      PendingAtStart(m.content, m.slots[..], m.M);
    }

    /** The next entry not yet visited; None only when every entry of start was. */
    method Next() returns (r: Option<(P, V)>)
      requires Valid()
      modifies this
      ensures Valid() && removed == old(removed) && valid == r.Some?
      ensures r.None? ==> visited == old(visited) == start.Keys
      ensures r.Some? ==>
        var c := table.content(r.value.0);
        && c in start && c !in old(visited) && visited == old(visited) + {c} && start[c] == r.value
        && table.slots[current].key == r.value.0
    {
      hide Table, Bounded, Conserved, Keys, Values, Used, Pending, Tracked;
      ghost var S := table.slots[..];
      valid := false;
      var i := Scan();
      PendingSkip(table.content, S, slot, i, start.Keys, visited);
      if i == table.cap {
        slot := i;
        Exhausted();
        return None;
      }
      var s := table.slots[i];
      table.Stored(i);
      table.Distinct();
      PendingVisit(table.content, S, i, start.Keys, visited);
      TrackedVisit(table.M, start, visited, removed, table.content(s.key));
      slot, current, valid := i + 1, i, true;
      visited := visited + {table.content(s.key)};
      r := Some((s.key, s.value));
    }

    /** The next live slot, or the end of the table. */
    method Scan() returns (i: nat)
      requires table.cap == table.slots.Length && slot <= table.cap
      ensures slot <= i <= table.cap && (i < table.cap ==> table.slots[i].Full?)
      ensures forall j :: slot <= j < i ==> !table.slots[j].Full?
    {
      i := slot;
      while i < table.cap && !table.slots[i].Full?
        invariant slot <= i <= table.cap && forall j :: slot <= j < i ==> !table.slots[j].Full?
      {
        i := i + 1;
      }
    }

    lemma Exhausted()
      requires Valid() && slot == table.cap
      ensures visited == start.Keys
    {
      hide Table, Bounded, Conserved, Keys, Values, Used;
    }

    /** Remove the entry returned last and release it once; a second call does nothing. */
    method Remove()
      requires Valid()
      modifies this, table, table.slots
      ensures Valid() && !valid && visited == old(visited) && table.slots == old(table.slots)
      ensures removed == old(removed) +
        if old(valid) then {table.content(old(table.slots[current]).key)} else {}
      ensures table.ledger == if !old(valid) then old(table.ledger) else old(table.ledger).(
        keysFreed := old(table.ledger).keysFreed + multiset{old(table.slots[current]).key},
        valuesFreed := old(table.ledger).valuesFreed + multiset{old(table.slots[current]).value})
    {
      hide Table, Bounded, Conserved, Keys, Values, Used, Pending, Tracked;
      if !valid {
        return;
      }
      ghost var c := table.content(table.slots[current].key);
      table.Stored(current);
      PendingBehind(table.content, table.slots[..], slot, start.Keys, visited, current);
      Behind(current);
      TrackedRemove(table.M, start, visited, removed, c);
      table.Release(current);
      removed := removed + {c};
      valid := false;
    }

    /** An entry behind the iteration has been visited. */
    lemma Behind(i: nat)
      requires Valid() && i < slot && table.slots[i].Full?
      ensures table.content(table.slots[i].key) in visited
    {
      hide Probed, Represents, Bounded, Conserved, Keys, Values, Used;
      table.Stored(i);
      var c := table.content(table.slots[i].key);
      assert forall j :: slot <= j < table.cap && table.slots[..][j].Full? ==>
        table.content(table.slots[..][j].key) == c ==> j == i;
      assert table.slots[..][i] == table.slots[i];
    }
  }

  /** keys lists the stored key of every entry of m once. */
  ghost predicate Listing<P, C, V>(content: P -> C, m: map<C, (P, V)>, keys: seq<P>) {
    && (forall i :: 0 <= i < |keys| ==> content(keys[i]) in m && m[content(keys[i])].0 == keys[i])
    && (forall i, j :: 0 <= i < j < |keys| ==> content(keys[i]) != content(keys[j]))
    && (forall c :: c in m ==> exists i :: 0 <= i < |keys| && content(keys[i]) == c)
  }

  /** The entries that keep does not reject. */
  ghost function Kept<C, P, V>(m: map<C, (P, V)>, keep: (P, V) -> bool): (r: map<C, (P, V)>)
    ensures r.Keys <= m.Keys
  {
    map c | c in m && keep(m[c].0, m[c].1) :: m[c]
  }

  lemma KeptNoMore<C, P, V>(m: map<C, (P, V)>, keep: (P, V) -> bool)
    ensures |Kept(m, keep)| <= |m|
  {
    SubsetSize(Kept(m, keep).Keys, m.Keys);
  }

  lemma {:induction false} SubsetSize<T>(a: set<T>, b: set<T>)
    requires a <= b
    ensures |a| <= |b|
  {
    assert b == a + (b - a);
  }

  /** The entries seen so far have been treated as keep demands. */
  ghost predicate Treated<P, C, V>(content: P -> C, start: map<C, (P, V)>, keep: (P, V) -> bool,
                                   done: set<C>, removed: set<C>, offered: seq<P>)
  {
    && removed <= done
    && (forall c :: c in done ==> c in start && (c in removed <==> !keep(start[c].0, start[c].1)))
    && Listing(content, map c | c in start && c in done :: start[c], offered)
  }

  lemma ListingNext<P, C, V>(content: P -> C, m: map<C, (P, V)>, keys: seq<P>, p: P, v: V)
    requires Listing(content, m, keys) && content(p) !in m
    ensures Listing(content, m[content(p) := (p, v)], keys + [p])
  {
    var m', keys' := m[content(p) := (p, v)], keys + [p];
    forall c | c in m' ensures exists i :: 0 <= i < |keys'| && content(keys'[i]) == c {
      if c == content(p) {
        assert content(keys'[|keys|]) == c;
      } else {
        var i :| 0 <= i < |keys| && content(keys[i]) == c;
        assert content(keys'[i]) == c;
      }
    }
  }

  lemma TreatedNext<P, C, V>(content: P -> C, start: map<C, (P, V)>, keep: (P, V) -> bool,
                             done: set<C>, removed: set<C>, offered: seq<P>, p: P)
    requires Treated(content, start, keep, done, removed, offered)
    requires content(p) in start && start[content(p)].0 == p && content(p) !in done
    ensures var e := start[content(p)];
      Treated(content, start, keep, done + {content(p)},
              if keep(e.0, e.1) then removed else removed + {content(p)}, offered + [p])
  {
    hide Listing;
    var c := content(p);
    var seen := map x | x in start && x in done :: start[x];
    ListingNext(content, seen, offered, p, start[c].1);
    assert seen[c := (p, start[c].1)] == map x | x in start && x in done + {c} :: start[x];
  }

  lemma TreatedNone<P, C, V>(content: P -> C, start: map<C, (P, V)>, keep: (P, V) -> bool)
    ensures Treated(content, start, keep, {}, {}, [])
  {}

  lemma TreatedAll<P, C, V>(content: P -> C, start: map<C, (P, V)>, keep: (P, V) -> bool,
                            removed: set<C>, offered: seq<P>)
    requires Treated(content, start, keep, start.Keys, removed, offered)
    ensures start - removed == Kept(start, keep)
    ensures Listing(content, start, offered)
  {
    assert start == map c | c in start && c in start.Keys :: start[c];
  }

  /** Walk over the whole table and drop the entries that keep rejects: every entry is
      offered once, and exactly the rejected ones are gone. What a removed entry held has been
      released; nothing is handed over, and nothing is rehashed. */
  method Sweep<P, C(==), V>(m: HashMap<P, C, V>, keep: (P, V) -> bool) returns (offered: seq<P>)
    requires m.Valid()
    modifies m, m.slots
    ensures m.Valid() && m.slots == old(m.slots)
    ensures m.M == Kept(old(m.M), keep) && Listing(m.content, old(m.M), offered)
    ensures m.ledger == old(m.ledger).(keysFreed := m.ledger.keysFreed, valuesFreed := m.ledger.valuesFreed)
  {
    hide Table, Bounded, Conserved, Keys, Values, Used, Pending, Treated, Listing, Kept;
    var it := new Iter(m);
    offered := [];
    TreatedNone(m.content, it.start, keep);
    while true
      invariant it.Valid() && fresh(it) && it.table == m && m.slots == old(m.slots) && it.start == old(m.M)
      invariant Treated(m.content, it.start, keep, it.visited, it.removed, offered)
      invariant m.ledger == old(m.ledger).(keysFreed := m.ledger.keysFreed, valuesFreed := m.ledger.valuesFreed)
      decreases it.start.Keys - it.visited
    {
      ghost var done := it.visited;
      var r := it.Next();
      if r.None? {
        TreatedAll(m.content, it.start, keep, it.removed, offered);
        return;
      }
      TreatedNext(m.content, it.start, keep, done, it.removed, offered, r.value.0);
      offered := offered + [r.value.0];
      if !keep(r.value.0, r.value.1) {
        it.Remove();
      }
    }
  }

  /** What a caller can ask of the map. Sweep is a whole iteration that removes what keep rejects. */
  datatype Op<!P, !V> =
    | Put(key: P, value: V) | Take(key: P) | Get(key: P) | Has(key: P) | Clear | Size
    | List | Sweeping(keep: (P, V) -> bool)

  datatype Answer<P, V> =
    | Done | Present(b: bool) | Got(found: Option<V>) | Count(n: nat) | Listed(keys: seq<P>)

  /** What one operation does to a mathematical map. */
  ghost function Apply<P, C, V>(content: P -> C, m: map<C, (P, V)>, op: Op<P, V>): map<C, (P, V)> {
    match op
    case Put(k, v) => m[content(k) := (if content(k) in m then m[content(k)].0 else k, v)]
    case Take(k) => m - {content(k)}
    case Clear => map[]
    case Sweeping(keep) => Kept(m, keep)
    case _ => m
  }

  /** What one operation on a mathematical map may answer; only the order of keys is open. */
  ghost predicate Answers<P(!new), C(!new), V(!new)>(content: P -> C, m: map<C, (P, V)>, op: Op<P, V>,
                                                     a: Answer<P, V>)
  {
    match op
    case Put(_, _) => a == Done
    case Take(k) => a == Present(content(k) in m)
    case Get(k) => a == Got(if content(k) in m then Some(m[content(k)].1) else None)
    case Has(k) => a == Present(content(k) in m)
    case Clear => a == Done
    case Size => a == Count(|m|)
    case List => a.Listed? && Listing(content, m, a.keys)
    case Sweeping(_) => a.Listed? && Listing(content, m, a.keys)
  }

  ghost function After<P, C, V>(content: P -> C, ops: seq<Op<P, V>>): map<C, (P, V)> {
    if ops == [] then map[] else Apply(content, After(content, ops[..|ops| - 1]), ops[|ops| - 1])
  }

  /** Every operation is answered from the mathematical map its predecessors lead to. */
  ghost predicate AllAnswered<P(!new), C(!new), V(!new)>(content: P -> C, ops: seq<Op<P, V>>,
                                                         answers: seq<Answer<P, V>>)
  {
    && |answers| == |ops|
    && forall i :: 0 <= i < |ops| ==> Answers(content, After(content, ops[..i]), ops[i], answers[i])
  }

  lemma AnsweredNext<P(!new), C(!new), V(!new)>(content: P -> C, ops: seq<Op<P, V>>, answers: seq<Answer<P, V>>,
                                               op: Op<P, V>, a: Answer<P, V>)
    requires AllAnswered(content, ops, answers) && Answers(content, After(content, ops), op, a)
    ensures AllAnswered(content, ops + [op], answers + [a])
  {
    hide Answers, After;
    var ops', answers' := ops + [op], answers + [a];
    forall i | 0 <= i < |ops'| ensures Answers(content, After(content, ops'[..i]), ops'[i], answers'[i]) {
      if i < |ops| {
        assert ops'[..i] == ops[..i];
      } else {
        assert ops'[..i] == ops;
      }
    }
  }

  ghost function Puts<P, V>(ops: seq<Op<P, V>>): nat {
    if ops == [] then 0 else Puts(ops[..|ops| - 1]) + if ops[|ops| - 1].Put? then 1 else 0
  }

  /** The most entries live at one time since the last Clear. */
  ghost function Peak<P, C, V>(content: P -> C, ops: seq<Op<P, V>>): nat {
    if ops == [] || ops[|ops| - 1].Clear? then 0
    else
      var before, now := Peak(content, ops[..|ops| - 1]), |After(content, ops)|;
      if now > before then now else before
  }

  ghost function KeysPut<P, V>(ops: seq<Op<P, V>>): multiset<P> {
    if ops == [] then multiset{}
    else
      var op := ops[|ops| - 1];
      KeysPut(ops[..|ops| - 1]) + if op.Put? then multiset{op.key} else multiset{}
  }

  ghost function ValuesPut<P, V>(ops: seq<Op<P, V>>): multiset<V> {
    if ops == [] then multiset{}
    else
      var op := ops[|ops| - 1];
      ValuesPut(ops[..|ops| - 1]) + if op.Put? then multiset{op.value} else multiset{}
  }

  /** The ledger of a map agrees with the history that led to it. */
  ghost predicate Booked<P, C, V>(content: P -> C, ops: seq<Op<P, V>>, m: map<C, (P, V)>, l: Ledger<P, V>) {
    && m == After(content, ops) && l.inserts == Puts(ops) && l.peak == Peak(content, ops)
    && l.keysIn == KeysPut(ops) && l.valuesIn == ValuesPut(ops)
  }

  lemma BookedNext<P, C, V>(content: P -> C, ops: seq<Op<P, V>>, m: map<C, (P, V)>, l: Ledger<P, V>,
                            op: Op<P, V>, l': Ledger<P, V>)
    requires Booked(content, ops, m, l) && |m| <= l.peak
    requires l'.inserts == l.inserts + (if op.Put? then 1 else 0)
    requires l'.peak == if op.Clear? then 0 else
      var n := |Apply(content, m, op)|; if n > l.peak then n else l.peak
    requires l'.keysIn == l.keysIn + (if op.Put? then multiset{op.key} else multiset{})
    requires l'.valuesIn == l.valuesIn + (if op.Put? then multiset{op.value} else multiset{})
    ensures Booked(content, ops + [op], Apply(content, m, op), l')
  {
    hide Apply, KeysPut, ValuesPut;
    assert (ops + [op])[..|ops|] == ops;
    PutNext(ops, op);
  }

  lemma PutNext<P, V>(ops: seq<Op<P, V>>, op: Op<P, V>)
    ensures KeysPut(ops + [op]) == KeysPut(ops) + (if op.Put? then multiset{op.key} else multiset{})
    ensures ValuesPut(ops + [op]) == ValuesPut(ops) + (if op.Put? then multiset{op.value} else multiset{})
  {
    assert (ops + [op])[..|ops|] == ops;
  }

  lemma BookedNone<P, C, V>(content: P -> C)
    ensures Booked<P, C, V>(content, [], map[], Ledger(0, 0, 0, multiset{}, multiset{}, multiset{}, multiset{}))
  {}

  lemma BookedMeans<P, C, V>(content: P -> C, ops: seq<Op<P, V>>, m: map<C, (P, V)>, l: Ledger<P, V>)
    requires Booked(content, ops, m, l)
    ensures m == After(content, ops) && l.inserts == Puts(ops) && l.peak == Peak(content, ops)
    ensures l.keysIn == KeysPut(ops) && l.valuesIn == ValuesPut(ops)
  {}

  lemma TakeNoMore<K, W>(m: map<K, W>, k: K)
    ensures |m - {k}| <= |m|
  {
    assert (m - {k}).Keys == m.Keys - {k};
  }

  method Perform<P(!new), C(==, !new), V(!new)>(m: HashMap<P, C, V>, op: Op<P, V>, ghost ops: seq<Op<P, V>>)
    returns (a: Answer<P, V>)
    requires m.Valid() && Booked(m.content, ops, m.M, m.ledger)
    modifies m, m.slots
    ensures m.Valid() && (m.slots == old(m.slots) || fresh(m.slots))
    ensures Booked(m.content, ops + [op], m.M, m.ledger)
    ensures Answers(m.content, old(m.M), op, a)
  {
    hide Table, Conserved, Keys, Values, Used, Booked, PowerOfTwo, Listing, Kept;
    ghost var M0, l := m.M, m.ledger;
    match op {
      case Put(k, v) =>
        m.Insert(k, v);
        a := Done;
      case Take(k) =>
        TakeNoMore(m.M, m.content(k));
        var b := m.Remove(k);
        a := Present(b);
      case Get(k) =>
        var v := m.Lookup(k);
        a := Got(v);
      case Has(k) =>
        var b := m.Contains(k);
        a := Present(b);
      case Clear =>
        m.RemoveAll();
        a := Done;
      case Size =>
        var n := m.Size();
        a := Count(n);
      case List =>
        var keys := m.KeyList();
        ListingOf(m.content, m.M, keys);
        a := Listed(keys);
      case Sweeping(keep) =>
        KeptNoMore(m.M, keep);
        var offered := Sweep(m, keep);
        a := Listed(offered);
    }
    BookedNext(m.content, ops, M0, l, op, m.ledger);
  }

  lemma ListingOf<P, C, V>(content: P -> C, m: map<C, (P, V)>, keys: seq<P>)
    requires forall i :: 0 <= i < |keys| ==> content(keys[i]) in m && m[content(keys[i])].0 == keys[i]
    requires forall i, j :: 0 <= i < j < |keys| ==> content(keys[i]) != content(keys[j])
    requires forall c :: c in m ==> exists i :: 0 <= i < |keys| && content(keys[i]) == c
    ensures Listing(content, m, keys)
  {}

  /** Any history, iterations with removal and key listings included, answers as a mathematical
      map would. The table always keeps more than a quarter of its slots free of keys and
      tombstones, its capacity stays in proportion to the peak, all its rehashes together scan at
      most four slots per insert, and after destroy every key and value it was given has been
      released exactly once. */
  method Replay<P(!new), C(==, !new), V(!new)>(content: P -> C, hash: C -> nat, ops: seq<Op<P, V>>)
    returns (answers: seq<Answer<P, V>>, cap: nat, occupied: nat, ghost ledger: Ledger<P, V>)
    ensures AllAnswered(content, ops, answers)
    ensures PowerOfTwo(cap) && (cap == 16 || cap < 4 * (Peak(content, ops) + 1))
    ensures |After(content, ops)| <= occupied && occupied * 4 < cap * 3
    ensures ledger.scanned <= 4 * Puts(ops)
    ensures ledger.keysFreed == KeysPut(ops) && ledger.valuesFreed == ValuesPut(ops)
  {
    hide Table, Bounded, Conserved, Keys, Values, Used, PowerOfTwo, Answers, Puts, Peak, After,
      KeysPut, ValuesPut, Booked, AllAnswered;
    var m := new HashMap<P, C, V>(content, hash);
    answers := [];
    var i := 0;
    BookedNone<P, C, V>(content);
    assert ops[..0] == [];
    NoneAnswered<P, C, V>(content);
    while i < |ops|
      invariant i <= |ops| && fresh(m) && fresh(m.slots) && m.content == content && m.Valid()
      invariant Booked(content, ops[..i], m.M, m.ledger)
      invariant AllAnswered(content, ops[..i], answers)
    {
      BookedMeans(content, ops[..i], m.M, m.ledger);
      var a := Perform(m, ops[i], ops[..i]);
      assert ops[..i + 1] == ops[..i] + [ops[i]];
      AnsweredNext(content, ops[..i], answers, ops[i], a);
      answers := answers + [a];
      i := i + 1;
    }
    assert ops[..i] == ops;
    BookedMeans(content, ops, m.M, m.ledger);
    m.Within();
    cap, occupied := m.cap, m.occupied;
    m.Destroy();
    ledger := m.ledger;
  }

  lemma NoneAnswered<P(!new), C(!new), V(!new)>(content: P -> C)
    ensures AllAnswered<P, C, V>(content, [], [])
  {}
}
