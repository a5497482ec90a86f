/** The slots of the status service: every accepted descriptor is closed exactly once, and every
    connection goes through the conversation its own polls describe. */
module Server {
  import opened Types
  import opened Text
  import opened Sequences
  import opened Service

  const MAX_CLIENTS: nat := 128
  const BATCH: nat := 16
  const TIMEOUT: int := 5_000_000

  function Held(c: Client): seq<nat> { if c.fd.Some? then [c.fd.value] else [] }

  /** The descriptors in use. */
  function Open(clients: seq<Client>): seq<nat> { Collect(clients, Held) }

  /** How the descriptors in use change with one slot. */
  lemma OpenChanges(S: seq<Client>, i: nat, c: Client)
    requires i < |S|
    ensures var S' := S[i := c];
      && (S[i].fd == c.fd ==> multiset(Open(S')) == multiset(Open(S)))
      && (S[i].fd.Some? && c.fd.None? ==> multiset(Open(S)) == multiset(Open(S')) + multiset{S[i].fd.value})
      && (S[i].fd.None? && c.fd.Some? ==> multiset(Open(S')) == multiset(Open(S)) + multiset{c.fd.value})
  {
    hide Collect;
    Exchanged(S, i, c, Held);
    var a, b := multiset(Open(S)), multiset(Open(S[i := c]));
    assert b + multiset(Held(S[i])) == a + multiset(Held(c));
    match (S[i].fd, c.fd)
    case (Some(f), None) => assert multiset([f]) == multiset{f} && b + multiset{f} == a + multiset{};
    case (None, Some(g)) => assert multiset([g]) == multiset{g} && b + multiset{} == a + multiset{g};
    case (Some(f), Some(g)) =>
      assert f == g ==> a == (a + multiset([f])) - multiset([f]) && b == (b + multiset([f])) - multiset([f]);
    case (None, None) => assert b == b + multiset{} == a + multiset{} == a;
  }

  // ---- the story of a connection ----

  /** An admitted connection: the slot and the dispatch that admitted it, the rounds it has been
      through, what it was sent, and whether the end of the service cut it short. */
  datatype Conv = Conv(fd: nat, slot: nat, since: nat, deadline: int, rounds: seq<Round>, out: string,
                       open: bool, cut: bool)

  ghost function Begun(v: Conv): Client { FREE.(fd := Some(v.fd), deadline := v.deadline) }

  ghost function Now(command: string -> string, v: Conv): Client { Talk(command, Begun(v), v.rounds).c }

  /** What the connection was sent is what its conversation says; the conversation went on until
      its last round, and with that round it was over unless it is still open or was cut. */
  ghost predicate Told(command: string -> string, v: Conv) {
    && v.out == Talk(command, Begun(v), v.rounds).out
    && (forall n :: 0 <= n < |v.rounds| ==> Talk(command, Begun(v), v.rounds[..n]).c.fd.Some?)
    && (if v.open || v.cut then Now(command, v).fd == Some(v.fd) else Now(command, v) == FREE)
  }

  ghost function Heard(command: string -> string, v: Conv, r: Round): Conv {
    var s := Step(command, Now(command, v), r.poll, r.now);
    v.(rounds := v.rounds + [r], out := v.out + s.out, open := s.c.fd.Some?)
  }

  lemma {:induction false} TalkMore(command: string -> string, c: Client, rounds: seq<Round>, r: Round)
    requires Talk(command, c, rounds).c.fd.Some?
    ensures Talk(command, c, rounds + [r]) ==
      var s := Talk(command, c, rounds);
      var t := Step(command, s.c, r.poll, r.now);
      Stepped(t.c, s.out + t.out)
    decreases |rounds|
  {
    hide Step;
    if rounds == [] {
      assert [r][1..] == [];
      var t := Step(command, c, r.poll, r.now);
      assert t.out + [] == t.out == [] + t.out;
      assert rounds + [r] == [r];
    } else {
      var s := Step(command, c, rounds[0].poll, rounds[0].now);
      assert (rounds + [r])[0] == rounds[0] && (rounds + [r])[1..] == rounds[1..] + [r];
      TalkMore(command, s.c, rounds[1..], r);
      var rest := Talk(command, s.c, rounds[1..]);
      var t := Step(command, rest.c, r.poll, r.now);
      assert s.out + (rest.out + t.out) == s.out + rest.out + t.out;
    }
  }

  /** A round keeps the descriptor or frees the slot completely. */
  lemma StepOwns(command: string -> string, c: Client, p: Poll, now: int)
    ensures var s := Step(command, c, p, now); s.c == FREE || s.c.fd == c.fd
  {}

  lemma HeardTold(command: string -> string, v: Conv, r: Round)
    requires Told(command, v) && v.open && !v.cut
    ensures Told(command, Heard(command, v, r))
    ensures Now(command, Heard(command, v, r)) == Step(command, Now(command, v), r.poll, r.now).c
  {
    hide Step, Talk;
    TalkMore(command, Begun(v), v.rounds, r);
    StepOwns(command, Now(command, v), r.poll, r.now);
    var rounds := v.rounds + [r];
    forall n | 0 <= n < |rounds| ensures Talk(command, Begun(v), rounds[..n]).c.fd.Some? {
      assert rounds[..n] == if n < |v.rounds| then v.rounds[..n] else v.rounds;
    }
  }

  /** A conversation that is still open has never been served past its deadline or on an error. */
  lemma {:induction false} TalkInTime(command: string -> string, c: Client, rounds: seq<Round>)
    requires c.fd.Some? && Talk(command, c, rounds).c.fd.Some?
    ensures forall j :: 0 <= j < |rounds| ==> rounds[j].now < c.deadline && !rounds[j].poll.error
    decreases |rounds|
  {
    hide Step;
    if rounds != [] {
      var s := Step(command, c, rounds[0].poll, rounds[0].now);
      StepExpires(command, c, rounds[0].poll, rounds[0].now);
      TalkInTime(command, s.c, rounds[1..]);
      forall j | 0 <= j < |rounds| ensures rounds[j].now < c.deadline && !rounds[j].poll.error {
        assert j > 0 ==> rounds[j] == rounds[1..][j - 1];
      }
    }
  }

  lemma StepExpires(command: string -> string, c: Client, p: Poll, now: int)
    ensures var s := Step(command, c, p, now);
      s.c.fd.Some? ==> now < c.deadline && !p.error && s.c.deadline == c.deadline
  {}

  /** The first round at or past the deadline, or with a socket error, is the last one, and the
      service itself ends the connection with it. */
  ghost predicate Punctual(v: Conv) {
    forall j :: 0 <= j < |v.rounds| && (v.deadline <= v.rounds[j].now || v.rounds[j].poll.error) ==>
      j == |v.rounds| - 1 && !v.open && !v.cut
  }

  lemma ToldInTime(command: string -> string, v: Conv)
    requires Told(command, v)
    ensures Punctual(v)
  {
    hide Talk;
    forall j | 0 <= j < |v.rounds| && (v.deadline <= v.rounds[j].now || v.rounds[j].poll.error)
      ensures j == |v.rounds| - 1 && !v.open && !v.cut
    {
      if j < |v.rounds| - 1 {
        assert v.rounds[..j + 1][j] == v.rounds[j];
        TalkInTime(command, Begun(v), v.rounds[..j + 1]);
      } else if v.open || v.cut {
        TalkInTime(command, Begun(v), v.rounds);
      }
    }
  }

  /** A round that finds the connection broken: reading fails or yields a NUL, or sending fails. */
  ghost predicate Fatal(c: Client, r: Round) {
    || (Reads(c, r) && (r.poll.recv.RecvError? || (r.poll.recv.Data? && NUL in c.input + r.poll.recv.bytes)))
    || (c.response.Some? && (r.poll.writable || r.poll.hangup) && r.poll.send.SendFailed?)
  }

  lemma FatalCloses(command: string -> string, c: Client, r: Round)
    requires Fatal(c, r)
    ensures Step(command, c, r.poll, r.now) == Stepped(FREE, [])
  {}

  /** A round that finds the connection broken is its last one, and the service itself ends it. */
  ghost predicate EndsBroken(command: string -> string, v: Conv) {
    forall j :: 0 <= j < |v.rounds| && Fatal(Talk(command, Begun(v), v.rounds[..j]).c, v.rounds[j]) ==>
      j == |v.rounds| - 1 && !v.open && !v.cut
  }

  lemma ToldEndsBroken(command: string -> string, v: Conv)
    requires Told(command, v)
    ensures EndsBroken(command, v)
  {
    hide Talk, Step, Fatal;
    forall j | 0 <= j < |v.rounds| && Fatal(Talk(command, Begun(v), v.rounds[..j]).c, v.rounds[j])
      ensures j == |v.rounds| - 1 && !v.open && !v.cut
    {
      FatalCloses(command, Talk(command, Begun(v), v.rounds[..j]).c, v.rounds[j]);
      TalkMore(command, Begun(v), v.rounds[..j], v.rounds[j]);
      assert v.rounds[..j + 1] == v.rounds[..j] + [v.rounds[j]];
      assert j == |v.rounds| - 1 ==> v.rounds[..j + 1] == v.rounds;
    }
  }

  /** The slots in use are exactly the open connections, each where its conversation has got to.
      current names the connection a slot belongs to. */
  ghost predicate Stories(command: string -> string, S: seq<Client>, told: seq<Conv>, current: seq<nat>) {
    && |current| == |S|
    && (forall i :: 0 <= i < |S| && S[i].fd.Some? ==>
          && current[i] < |told| && told[current[i]].open && told[current[i]].slot == i
          && Now(command, told[current[i]]) == S[i])
    && (forall q :: 0 <= q < |told| ==> Told(command, told[q]))
    && (forall q :: 0 <= q < |told| && told[q].open ==>
          !told[q].cut && told[q].slot < |S| && S[told[q].slot].fd.Some? && current[told[q].slot] == q)
  }

  lemma StoriesStore(command: string -> string, S: seq<Client>, told: seq<Conv>, current: seq<nat>,
                     i: nat, c: Client, v: Conv)
    requires Stories(command, S, told, current) && i < |S| && S[i].fd.Some?
    requires Told(command, v) && v.slot == i && v.open == c.fd.Some?
    requires v.open ==> Now(command, v) == c && !v.cut
    ensures Stories(command, S[i := c], told[current[i] := v], current)
  {
    hide Told, Now;
  }

  lemma StoriesAdmit(command: string -> string, S: seq<Client>, told: seq<Conv>, current: seq<nat>, i: nat, v: Conv)
    requires Stories(command, S, told, current) && i < |S| && S[i].fd.None?
    requires v.slot == i && v.open && !v.cut && v.rounds == [] && v.out == []
    ensures Stories(command, S[i := Begun(v)], told + [v], current[i := |told|])
  {
    hide Told, Now, Talk;
    FreshTold(command, v);
    var told' := told + [v];
    assert forall q :: 0 <= q < |told| ==> told'[q] == told[q];
    assert told'[|told|] == v;
  }

  lemma FreshTold(command: string -> string, v: Conv)
    requires v.open && v.rounds == [] && v.out == []
    ensures Told(command, v) && Now(command, v) == Begun(v)
  {}

  /** A connection that was turned away: when, and which connections held the slots then. */
  datatype Refusal = Refusal(fd: nat, at: nat, holders: seq<nat>)

  ghost function Refused(refusals: seq<Refusal>): seq<nat> {
    seq(|refusals|, q requires 0 <= q < |refusals| => refusals[q].fd)
  }

  lemma RefusedMore(refusals: seq<Refusal>, f: Refusal)
    ensures multiset(Refused(refusals + [f])) == multiset(Refused(refusals)) + multiset{f.fd}
  {
    assert Refused(refusals + [f]) == Refused(refusals) + [f.fd];
  }

  /** Every slot belongs to an open connection. */
  ghost predicate Crowded(limit: nat, told: seq<Conv>, holders: seq<nat>) {
    && |holders| == limit
    && forall i :: 0 <= i < limit ==>
         holders[i] < |told| && told[holders[i]].open && told[holders[i]].slot == i
  }

  ghost function Fds(told: seq<Conv>): seq<nat> { seq(|told|, q requires 0 <= q < |told| => told[q].fd) }

  lemma FdsSame(told: seq<Conv>, q: nat, v: Conv)
    requires q < |told| && v.fd == told[q].fd
    ensures Fds(told[q := v]) == Fds(told)
  {}

  lemma FdsMore(told: seq<Conv>, v: Conv)
    ensures multiset(Fds(told + [v])) == multiset(Fds(told)) + multiset{v.fd}
  {
    assert Fds(told + [v]) == Fds(told) + [v.fd];
  }

  /** No open connection has this slot. */
  ghost predicate Vacant(told: seq<Conv>, slot: nat) {
    forall q :: 0 <= q < |told| && told[q].open ==> told[q].slot != slot
  }

  /** The connections a batch added: each is new, and its slot was vacant. */
  ghost predicate Admitted(limit: nat, before: seq<Conv>, told: seq<Conv>, fds: seq<nat>, now: int, at: nat) {
    && before <= told
    && (forall q :: |before| <= q < |told| ==>
          && told[q].fd in fds && told[q].slot < limit
          && told[q] == Conv(told[q].fd, told[q].slot, at, now + TIMEOUT, [], [], true, false))
    && (forall q :: |before| <= q < |told| ==> Vacant(told[..q], told[q].slot))
  }

  lemma OneAdmitted(limit: nat, before: seq<Conv>, told: seq<Conv>, told': seq<Conv>, fds: seq<nat>, now: int, at: nat)
    requires Admitted(limit, before, told, fds, now, at)
    requires |told'| == |told| + 1 && told' == told + [told'[|told|]]
    requires var v := told'[|told|];
      && v.fd in fds && v.slot < limit && Vacant(told, v.slot)
      && v == Conv(v.fd, v.slot, at, now + TIMEOUT, [], [], true, false)
    ensures Admitted(limit, before, told', fds, now, at)
  {
    hide Vacant;
    forall q | |before| <= q < |told'| ensures Vacant(told'[..q], told'[q].slot) {
      assert told'[..q] == told[..q];
      assert q == |told| ==> told[..q] == told;
    }
  }

  /** The connections a batch turned away: all slots were held by open connections. */
  ghost predicate TurnedAway(limit: nat, before: seq<Refusal>, refusals: seq<Refusal>, told: seq<Conv>,
                             fds: seq<nat>, at: nat)
  {
    && before <= refusals
    && forall q :: |before| <= q < |refusals| ==>
         refusals[q].fd in fds && refusals[q].at == at && Crowded(limit, told, refusals[q].holders)
  }

  lemma StillTurnedAway(limit: nat, before: seq<Refusal>, refusals: seq<Refusal>, told: seq<Conv>, told': seq<Conv>,
                        fds: seq<nat>, at: nat)
    requires TurnedAway(limit, before, refusals, told, fds, at) && told <= told'
    ensures TurnedAway(limit, before, refusals, told', fds, at)
  {}

  lemma OneTurnedAway(limit: nat, before: seq<Refusal>, refusals: seq<Refusal>, refusals': seq<Refusal>,
                      told: seq<Conv>, fds: seq<nat>, at: nat)
    requires TurnedAway(limit, before, refusals, told, fds, at)
    requires |refusals'| == |refusals| + 1 && refusals' == refusals + [refusals'[|refusals|]]
    requires var f := refusals'[|refusals|]; f.fd in fds && f.at == at && Crowded(limit, told, f.holders)
    ensures TurnedAway(limit, before, refusals', told, fds, at)
  {
    hide Crowded;
  }

  lemma NobodyYet(limit: nat, told: seq<Conv>, refusals: seq<Refusal>, fds: seq<nat>, now: int, at: nat)
    ensures Admitted(limit, told, told, fds, now, at) && TurnedAway(limit, refusals, refusals, told, fds, at)
  {}

  /** One dispatch over the given slots, as the connections and as the slots see it. */
  ghost function HeardIn(command: string -> string, told: seq<Conv>, slots: seq<nat>, poll: nat -> Poll,
                         now: int): seq<Conv>
  {
    seq(|told|, q requires 0 <= q < |told| =>
      if told[q].open && told[q].slot in slots
      then Heard(command, told[q], Round(poll(told[q].slot), now))
      else told[q])
  }

  ghost function Served(command: string -> string, S: seq<Client>, slots: seq<nat>, poll: nat -> Poll,
                        now: int): seq<Client>
  {
    seq(|S|, i requires 0 <= i < |S| => if i in slots then Step(command, S[i], poll(i), now).c else S[i])
  }

  lemma ServedMore(command: string -> string, S: seq<Client>, told: seq<Conv>, slots: seq<nat>, i: nat,
                   poll: nat -> Poll, now: int)
    requires i !in slots && i < |S|
    ensures Served(command, S, slots + [i], poll, now)
      == Served(command, S, slots, poll, now)[i := Step(command, S[i], poll(i), now).c]
    ensures HeardIn(command, told, slots + [i], poll, now)
      == HeardIn(command, HeardIn(command, told, slots, poll, now), [i], poll, now)
  {
    hide Step;
    assert forall j :: j in slots + [i] <==> j in slots || j == i;
  }

  lemma ServedNone(command: string -> string, S: seq<Client>, told: seq<Conv>, poll: nat -> Poll, now: int)
    ensures Served(command, S, [], poll, now) == S && HeardIn(command, told, [], poll, now) == told
  {}

  /** The service ended for the connections in the first n slots. */
  ghost function CutBelow(told: seq<Conv>, n: nat): (r: seq<Conv>)
    ensures |r| == |told|
  {
    seq(|told|, q requires 0 <= q < |told| =>
      if told[q].open && told[q].slot < n then told[q].(open := false, cut := true) else told[q])
  }

  lemma CutOne(told: seq<Conv>, n: nat, q: nat)
    requires q < |told| && CutBelow(told, n)[q].open && told[q].slot == n
    requires forall p :: 0 <= p < |told| && CutBelow(told, n)[p].open && told[p].slot == n ==> p == q
    ensures CutBelow(told, n + 1) == CutBelow(told, n)[q := CutBelow(told, n)[q].(open := false, cut := true)]
  {
    var a, b := CutBelow(told, n), CutBelow(told, n + 1);
    forall p | 0 <= p < |told| ensures b[p] == if p == q then a[q].(open := false, cut := true) else a[p] {
      assert a[p].open && told[p].slot == n ==> p == q;
    }
  }

  lemma CutNone(told: seq<Conv>, n: nat)
    requires forall p :: 0 <= p < |told| && CutBelow(told, n)[p].open ==> told[p].slot != n
    ensures CutBelow(told, n + 1) == CutBelow(told, n)
  {
    var a, b := CutBelow(told, n), CutBelow(told, n + 1);
    forall p | 0 <= p < |told| ensures b[p] == a[p] {
      assert a[p].open ==> told[p].slot != n;
    }
  }

  lemma CutStart(told: seq<Conv>)
    ensures CutBelow(told, 0) == told
  {}

  class Server {
    const command: string -> string
    const limit: nat
    const clients: array<Client>
    ghost var accepted: multiset<nat>
    ghost var closed: multiset<nat>
    ghost var refusals: seq<Refusal>
    ghost var told: seq<Conv>
    ghost var current: seq<nat>

    ghost predicate Valid()
      reads this, clients
    {
      && clients.Length == MAX_CLIENTS == |current| && limit <= MAX_CLIENTS
      && (forall i :: 0 <= i < MAX_CLIENTS && (clients[i].fd.None? || limit <= i) ==> clients[i] == FREE)
      && accepted == closed + multiset(Open(clients[..]))
      && accepted == multiset(Fds(told)) + multiset(Refused(refusals))
      && Stories(command, clients[..], told, current)
    }

    constructor (command: string -> string, limit: nat)
      requires limit <= MAX_CLIENTS
      ensures Valid() && fresh(clients) && accepted == multiset{} && closed == multiset{}
      ensures told == [] && refusals == []
      ensures this.command == command && this.limit == limit
    {
      this.command, this.limit := command, limit;
      clients := new Client[MAX_CLIENTS](_ => FREE);
      accepted, closed := multiset{}, multiset{};
      told, refusals, current := [], [], seq(MAX_CLIENTS, _ => 0);
      new;
      CollectNothing(clients[..], Held);
    }

    /** service_pollfds: the slots in use, in order. */
    method PollSlots() returns (slots: seq<nat>)
      requires Valid()
      ensures forall i :: i in slots <==> 0 <= i < MAX_CLIENTS && clients[i].fd.Some?
      ensures forall i, j :: 0 <= i < j < |slots| ==> slots[i] < slots[j]
    {
      hide Open, Fds, Refused, Stories;
      slots := [];
      for i := 0 to limit
        invariant forall j :: j in slots <==> 0 <= j < i && clients[j].fd.Some?
        invariant forall j, k :: 0 <= j < k < |slots| ==> slots[j] < slots[k]
      {
        if clients[i].fd.Some? {
          assert forall j :: 0 <= j < |slots| ==> slots[j] in slots;
          slots := slots + [i];
        }
      }
    }

    /** Store what became of the client in slot i; an emptied slot releases its descriptor. */
    method Store(i: nat, c: Client, ghost v: Conv)
      requires Valid() && i < limit && clients[i].fd.Some?
      requires c == FREE || c.fd == clients[i].fd
      requires current[i] < |told| && v.fd == told[current[i]].fd && told[current[i]].slot == v.slot == i
      requires Told(command, v) && v.open == c.fd.Some? && (v.open ==> Now(command, v) == c && !v.cut)
      modifies this`closed, this`told, clients
      ensures Valid() && clients[..] == old(clients[..])[i := c] && told == old(told)[current[i] := v]
      ensures closed == old(closed) + (if c == FREE then multiset{old(clients[i]).fd.value} else multiset{})
    {
      hide Open, Fds, Refused, Stories, Told, Now;
      ghost var S := clients[..];
      OpenChanges(S, i, c);
      StoriesStore(command, S, told, current, i, c, v);
      FdsSame(told, current[i], v);
      if c.fd.None? {
        closed := closed + multiset{clients[i].fd.value};
      }
      clients[i] := c;
      told := told[current[i] := v];
      assert clients[..] == S[i := c];
    }

    lemma Owner(i: nat)
      requires Valid() && i < MAX_CLIENTS && clients[i].fd.Some?
      ensures current[i] < |told| && told[current[i]].open && !told[current[i]].cut && told[current[i]].slot == i
      ensures Told(command, told[current[i]]) && Now(command, told[current[i]]) == clients[i]
    {
      hide Told, Now, Open, Fds, Refused;
      assert clients[..][i] == clients[i];
    }

    /** The first loop of service_dispatch: one round for every polled client. */
    method Serve(slots: seq<nat>, poll: nat -> Poll, now: int)
      requires Valid()
      requires forall k :: 0 <= k < |slots| ==> slots[k] < limit && clients[slots[k]].fd.Some?
      requires forall j, k :: 0 <= j < k < |slots| ==> slots[j] != slots[k]
      modifies this`closed, this`told, clients
      ensures Valid()
      ensures clients[..] == Served(command, old(clients[..]), slots, poll, now)
      ensures told == HeardIn(command, old(told), slots, poll, now)
    {
      hide Open, Fds, Refused, Stories, Step, Told, HeardIn, Now, FREE;
      ghost var S := clients[..];
      ServedNone(command, S, told, poll, now);
      assert slots[..0] == [];
      var n := 0;
      while n < |slots|
        invariant n <= |slots| && Valid()
        invariant clients[..] == Served(command, S, slots[..n], poll, now)
        invariant told == HeardIn(command, old(told), slots[..n], poll, now)
      {
        var i := slots[n];
        assert slots[..n + 1] == slots[..n] + [i];
        assert i !in slots[..n];
        assert clients[i] == clients[..][i] == S[i];
        ServedMore(command, S, old(told), slots[..n], i, poll, now);
        ServeOne(i, poll, now);
        n := n + 1;
      }
      assert slots[..n] == slots;
    }

    /** One round of the client in slot i. */
    method ServeOne(i: nat, poll: nat -> Poll, now: int)
      requires Valid() && i < limit && clients[i].fd.Some?
      modifies this`closed, this`told, clients
      ensures Valid() && clients[..] == old(clients[..])[i := Step(command, old(clients[i]), poll(i), now).c]
      ensures told == HeardIn(command, old(told), [i], poll, now)
    {
      hide Open, Fds, Refused, Step, Told, Now, Stories, FREE;
      Owner(i);
      OnlyOwner(i);
      ghost var v, r := told[current[i]], Round(poll(i), now);
      StepOwns(command, clients[i], poll(i), now);
      HeardTold(command, v, r);
      Store(i, Step(command, clients[i], poll(i), now).c, Heard(command, v, r));
      assert told == HeardIn(command, old(told), [i], poll, now);
    }

    lemma OnlyOwner(i: nat)
      requires Valid() && i < MAX_CLIENTS && clients[i].fd.Some?
      ensures forall q :: 0 <= q < |told| && told[q].open && told[q].slot == i ==> q == current[i]
    {
      hide Told, Now, Open, Fds, Refused;
    }

    /** One accepted connection: it gets the first free slot, which is always empty, or is closed at
        once when there is none. */
    method Admit(fd: nat, now: int, ghost at: nat) returns (slot: nat)
      requires Valid()
      modifies this, clients
      ensures Valid() && accepted == old(accepted) + multiset{fd}
      ensures slot <= limit && forall i :: 0 <= i < slot ==> old(clients[i]).fd.Some?
      ensures slot < limit ==>
        && old(clients[slot]).fd.None? && closed == old(closed)
        && clients[..] == old(clients[..])[slot := FREE.(fd := Some(fd), deadline := now + TIMEOUT)]
        && told == old(told) + [Conv(fd, slot, at, now + TIMEOUT, [], [], true, false)]
        && refusals == old(refusals) && Vacant(old(told), slot)
      ensures slot == limit ==>
        && clients[..] == old(clients[..]) && closed == old(closed) + multiset{fd} && told == old(told)
        && refusals == old(refusals) + [Refusal(fd, at, current[..limit])] && Crowded(limit, told, current[..limit])
    {
      hide Open, Fds, Refused, Stories, Talk, FREE, Crowded, Vacant;
      slot := FirstFree();
      if slot < limit {
        NoOwner(slot);
        Place(slot, fd, now, at);
      } else {
        AllHeld();
        RefusedMore(refusals, Refusal(fd, at, current[..limit]));
        accepted, closed := accepted + multiset{fd}, closed + multiset{fd};
        refusals := refusals + [Refusal(fd, at, current[..limit])];
      }
    }

    lemma AllHeld()
      requires Valid() && forall i :: 0 <= i < limit ==> clients[i].fd.Some?
      ensures Crowded(limit, told, current[..limit])
    {
      hide Told, Now, Open, Fds, Refused;
      forall i | 0 <= i < limit
        ensures current[i] < |told| && told[current[i]].open && told[current[i]].slot == i
      {
        Owner(i);
      }
    }

    method FirstFree() returns (slot: nat)
      requires Valid()
      ensures slot <= limit && (forall i :: 0 <= i < slot ==> clients[i].fd.Some?)
      ensures slot < limit ==> clients[slot].fd.None?
    {
      hide Open, Fds, Refused, Stories;
      slot := 0;
      while slot < limit && clients[slot].fd.Some?
        invariant slot <= limit && forall i :: 0 <= i < slot ==> clients[i].fd.Some?
      {
        slot := slot + 1;
      }
    }

    method Place(slot: nat, fd: nat, now: int, ghost at: nat)
      requires Valid() && slot < limit && clients[slot].fd.None?
      modifies this, clients
      ensures Valid() && accepted == old(accepted) + multiset{fd} && closed == old(closed)
      ensures clients[..] == old(clients[..])[slot := FREE.(fd := Some(fd), deadline := now + TIMEOUT)]
      ensures told == old(told) + [Conv(fd, slot, at, now + TIMEOUT, [], [], true, false)]
      ensures refusals == old(refusals)
    {
      hide Open, Fds, Refused, Stories, Talk;
      ghost var S := clients[..];
      var c := clients[slot].(fd := Some(fd), deadline := now + TIMEOUT);
      ghost var v := Conv(fd, slot, at, now + TIMEOUT, [], [], true, false);
      OpenChanges(S, slot, c);
      StoriesAdmit(command, S, told, current, slot, v);
      FdsMore(told, v);
      accepted := accepted + multiset{fd};
      clients[slot] := c;
      told, current := told + [v], current[slot := |told|];
      assert clients[..] == S[slot := c];
    }

    /** The second loop of service_dispatch, over the connections accept returned. */
    method AdmitBatch(fds: seq<nat>, now: int, ghost at: nat)
      requires Valid() && |fds| <= BATCH
      modifies this, clients
      ensures Valid() && accepted == old(accepted) + multiset(fds)
      ensures Admitted(limit, old(told), told, fds, now, at)
      ensures TurnedAway(limit, old(refusals), refusals, told, fds, at)
    {
      hide Open, Fds, Refused, Stories, Talk, Admitted, TurnedAway, Crowded, Vacant;
      var n := 0;
      NobodyYet(limit, told, refusals, fds, now, at);
      while n < |fds|
        invariant n <= |fds| && Valid() && accepted == old(accepted) + multiset(fds[..n])
        invariant Admitted(limit, old(told), told, fds, now, at)
        invariant TurnedAway(limit, old(refusals), refusals, told, fds, at)
      {
        ghost var told0, refusals0 := told, refusals;
        var slot := Admit(fds[n], now, at);
        assert fds[..n + 1] == fds[..n] + [fds[n]];
        if slot < limit {
          OneAdmitted(limit, old(told), told0, told, fds, now, at);
          StillTurnedAway(limit, old(refusals), refusals, told0, told, fds, at);
        } else {
          OneTurnedAway(limit, old(refusals), refusals0, refusals, told, fds, at);
        }
        n := n + 1;
      }
      assert fds[..n] == fds;
    }

    /** service_end: whatever was accepted has now been closed, once. */
    method End()
      requires Valid()
      modifies this`closed, this`told, clients
      ensures Valid() && closed == accepted && told == CutBelow(old(told), limit)
      ensures forall q :: 0 <= q < |told| ==> !told[q].open
    {
      hide Open, Fds, Refused, Told, Now, Stories, CutBelow;
      CutStart(told);
      var i := 0;
      while i < limit
        invariant i <= limit && Valid()
        invariant forall j :: 0 <= j < i ==> clients[j] == FREE
        invariant told == CutBelow(old(told), i)
      {
        EndOne(i, old(told));
        i := i + 1;
      }
      AllFree();
      AllEnded();
    }

    method EndOne(i: nat, ghost before: seq<Conv>)
      requires Valid() && i < limit && told == CutBelow(before, i)
      modifies this`closed, this`told, clients
      ensures Valid() && clients[..] == old(clients[..])[i := FREE] && told == CutBelow(before, i + 1)
    {
      hide Open, Fds, Refused, Told, Now, Stories;
      if clients[i].fd.Some? {
        Owner(i);
        OnlyOwner(i);
        CutTold(command, told[current[i]]);
        CutOne(before, i, current[i]);
        Store(i, FREE, told[current[i]].(open := false, cut := true));
      } else {
        NoOwner(i);
        CutNone(before, i);
      }
    }

    lemma AllTold()
      requires Valid()
      ensures forall q :: 0 <= q < |told| ==> Told(command, told[q])
    {
      hide Told, Now, Open, Fds, Refused;
    }

    /** The slots in use are those of the open connections. */
    lemma Polled(slots: seq<nat>)
      requires Valid() && forall i :: i in slots <==> 0 <= i < MAX_CLIENTS && clients[i].fd.Some?
      ensures forall q :: 0 <= q < |told| && told[q].open ==> told[q].slot in slots
      ensures forall i :: i in slots ==> i < limit
    {
      hide Told, Now, Open, Fds, Refused;
    }

    lemma NoOwner(i: nat)
      requires Valid() && i < MAX_CLIENTS && clients[i].fd.None?
      ensures Vacant(told, i)
    {
      hide Told, Now, Open, Fds, Refused;
      assert clients[..][i] == clients[i];
    }

    lemma AllEnded()
      requires Valid() && forall i :: 0 <= i < limit ==> clients[i] == FREE
      ensures forall q :: 0 <= q < |told| ==> !told[q].open
    {
      hide Told, Now, Open, Fds, Refused;
      assert forall i :: 0 <= i < MAX_CLIENTS ==> clients[..][i] == FREE;
    }

    lemma AllFree()
      requires Valid() && forall i :: 0 <= i < limit ==> clients[i] == FREE
      ensures Open(clients[..]) == []
    {
      CollectNothing(clients[..], Held);
    }
  }

  lemma CutTold(command: string -> string, v: Conv)
    requires Told(command, v) && v.open
    ensures Told(command, v.(open := false, cut := true))
  {
    hide Talk;
  }

  // ---- a whole run of the service ----

  /** One turn of the main loop: what poll, recv and send report for each slot, the time, and the
      connections accept returns. */
  datatype Tick = Tick(poll: nat -> Poll, now: int, fds: seq<nat>)

  ghost function AllFds(ticks: seq<Tick>): multiset<nat> {
    if ticks == [] then multiset{} else AllFds(ticks[..|ticks| - 1]) + multiset(ticks[|ticks| - 1].fds)
  }

  /** The rounds of a connection are exactly those its slot was polled for from the turn after its
      admission on: through the last turn if it is open or was cut, else through the turn that
      closed it. */
  ghost predicate Placed(limit: nat, ticks: seq<Tick>, v: Conv) {
    && v.slot < limit
    && v.since < |ticks| && v.fd in ticks[v.since].fds && v.deadline == ticks[v.since].now + 5_000_000
    && v.since + 1 + |v.rounds| <= |ticks|
    && (v.open || v.cut ==> v.since + 1 + |v.rounds| == |ticks|)
    && forall j :: v.since < j <= v.since + |v.rounds| ==>
         v.rounds[j - v.since - 1] == Round(ticks[j].poll(v.slot), ticks[j].now)
  }

  /** The connection held its slot when turn t accepted new ones. */
  ghost predicate Holding(v: Conv, t: nat) {
    v.since <= t && (t < v.since + |v.rounds| || ((v.open || v.cut) && t == v.since + |v.rounds|))
  }

  /** A connection was turned away at a turn in which each slot was held by some connection. */
  ghost predicate Busy(limit: nat, ticks: seq<Tick>, told: seq<Conv>, f: Refusal) {
    && f.at < |ticks| && f.fd in ticks[f.at].fds && |f.holders| == limit
    && forall i :: 0 <= i < limit ==>
         f.holders[i] < |told| && told[f.holders[i]].slot == i && Holding(told[f.holders[i]], f.at)
  }

  /** A slot is used again only after the service has ended the connection that had it. */
  ghost predicate InTurn(told: seq<Conv>) {
    forall p, q :: 0 <= p < q < |told| && told[p].slot == told[q].slot ==>
      !told[p].open && !told[p].cut && told[p].since + |told[p].rounds| <= told[q].since
  }

  /** What a run of the service has come to. */
  ghost predicate Chronicle(limit: nat, ticks: seq<Tick>, told: seq<Conv>, refusals: seq<Refusal>) {
    && (forall q :: 0 <= q < |told| ==> Placed(limit, ticks, told[q]))
    && (forall q :: 0 <= q < |refusals| ==> Busy(limit, ticks, told, refusals[q]))
    && InTurn(told)
  }

  lemma PlacedLater(command: string -> string, limit: nat, ticks: seq<Tick>, t: Tick, v: Conv)
    requires Placed(limit, ticks, v) && !v.cut
    ensures Placed(limit, ticks + [t], if v.open then Heard(command, v, Round(t.poll(v.slot), t.now)) else v)
  {
    hide Step, Now;
    var later := ticks + [t];
    assert later[|ticks|] == t;
    assert forall j :: 0 <= j < |ticks| ==> later[j] == ticks[j];
  }

  lemma AllPlaced(command: string -> string, limit: nat, ticks: seq<Tick>, t: Tick, told: seq<Conv>, slots: seq<nat>,
                  heard: seq<Conv>, more: seq<Conv>)
    requires forall q :: 0 <= q < |told| ==> Placed(limit, ticks, told[q]) && !told[q].cut
    requires forall q :: 0 <= q < |told| && told[q].open ==> told[q].slot in slots
    requires heard == HeardIn(command, told, slots, t.poll, t.now)
    requires Admitted(limit, heard, more, t.fds, t.now, |ticks|)
    ensures forall q :: 0 <= q < |more| ==> Placed(limit, ticks + [t], more[q]) && !more[q].cut
  {
    hide Heard, Vacant;
    forall q | 0 <= q < |more| ensures Placed(limit, ticks + [t], more[q]) && !more[q].cut {
      if q < |told| {
        PlacedLater(command, limit, ticks, t, told[q]);
        HeardSame(command, told[q], Round(t.poll(told[q].slot), t.now));
        assert more[q] == heard[q];
      } else {
        assert (ticks + [t])[|ticks|] == t;
      }
    }
  }

  lemma HeardSame(command: string -> string, v: Conv, r: Round)
    ensures var h := Heard(command, v, r);
      h.cut == v.cut && h.slot == v.slot && h.since == v.since && |h.rounds| == |v.rounds| + 1
  {}

  lemma BusyLater(command: string -> string, limit: nat, ticks: seq<Tick>, t: Tick, told: seq<Conv>, slots: seq<nat>,
                  more: seq<Conv>, f: Refusal)
    requires Busy(limit, ticks, told, f) && HeardIn(command, told, slots, t.poll, t.now) <= more
    ensures Busy(limit, ticks + [t], more, f)
  {
    hide Heard;
    var heard := HeardIn(command, told, slots, t.poll, t.now);
    forall i | 0 <= i < limit
      ensures f.holders[i] < |more| && more[f.holders[i]].slot == i && Holding(more[f.holders[i]], f.at)
    {
      var v := told[f.holders[i]];
      HeardSame(command, v, Round(t.poll(v.slot), t.now));
      assert more[f.holders[i]] == heard[f.holders[i]];
    }
  }

  lemma BusyNow(limit: nat, ticks: seq<Tick>, t: Tick, told: seq<Conv>, f: Refusal)
    requires Crowded(limit, told, f.holders) && f.at == |ticks| && f.fd in t.fds
    requires forall q :: 0 <= q < |told| ==> Placed(limit, ticks + [t], told[q])
    ensures Busy(limit, ticks + [t], told, f)
  {
    forall i | 0 <= i < limit ensures Holding(told[f.holders[i]], f.at) {
      assert Placed(limit, ticks + [t], told[f.holders[i]]);
    }
  }

  lemma InTurnHeard(command: string -> string, told: seq<Conv>, slots: seq<nat>, poll: nat -> Poll, now: int)
    requires InTurn(told)
    ensures InTurn(HeardIn(command, told, slots, poll, now))
  {
    hide Heard;
    var heard := HeardIn(command, told, slots, poll, now);
    forall p, q | 0 <= p < q < |heard| && heard[p].slot == heard[q].slot
      ensures !heard[p].open && !heard[p].cut && heard[p].since + |heard[p].rounds| <= heard[q].since
    {
      HeardSame(command, told[p], Round(poll(told[p].slot), now));
      HeardSame(command, told[q], Round(poll(told[q].slot), now));
      assert told[p].slot == told[q].slot;
    }
  }

  lemma InTurnMore(limit: nat, ticks: seq<Tick>, t: Tick, heard: seq<Conv>, more: seq<Conv>)
    requires InTurn(heard) && Admitted(limit, heard, more, t.fds, t.now, |ticks|)
    requires forall q :: 0 <= q < |more| ==> Placed(limit, ticks + [t], more[q]) && !more[q].cut
    ensures InTurn(more)
  {
    forall p, q | 0 <= p < q < |more| && more[p].slot == more[q].slot
      ensures !more[p].open && !more[p].cut && more[p].since + |more[p].rounds| <= more[q].since
    {
      assert Placed(limit, ticks + [t], more[p]);
      if q < |heard| {
        assert more[p] == heard[p] && more[q] == heard[q];
      } else {
        assert Vacant(more[..q], more[q].slot);
        assert more[..q][p] == more[p];
      }
    }
  }

  /** One turn continues the chronicle. */
  lemma ChronicleNext(command: string -> string, limit: nat, ticks: seq<Tick>, t: Tick, told: seq<Conv>,
                      slots: seq<nat>, more: seq<Conv>, refusals: seq<Refusal>, refusals': seq<Refusal>)
    requires Chronicle(limit, ticks, told, refusals) && NoneCut(told)
    requires forall q :: 0 <= q < |told| && told[q].open ==> told[q].slot in slots
    requires Admitted(limit, HeardIn(command, told, slots, t.poll, t.now), more, t.fds, t.now, |ticks|)
    requires TurnedAway(limit, refusals, refusals', more, t.fds, |ticks|)
    ensures Chronicle(limit, ticks + [t], more, refusals') && NoneCut(more)
  {
    hide HeardIn, InTurn, Placed, Busy, Crowded, Vacant;
    var heard := HeardIn(command, told, slots, t.poll, t.now);
    AllPlaced(command, limit, ticks, t, told, slots, heard, more);
    InTurnHeard(command, told, slots, t.poll, t.now);
    InTurnMore(limit, ticks, t, heard, more);
    forall q | 0 <= q < |refusals'| ensures Busy(limit, ticks + [t], more, refusals'[q]) {
      if q < |refusals| {
        BusyLater(command, limit, ticks, t, told, slots, more, refusals[q]);
      } else {
        BusyNow(limit, ticks, t, more, refusals'[q]);
      }
    }
  }

  ghost predicate NoneCut(told: seq<Conv>) { forall q :: 0 <= q < |told| ==> !told[q].cut }

  /** The end of the service cuts short exactly the connections that were open. */
  lemma ChronicleEnds(limit: nat, ticks: seq<Tick>, told: seq<Conv>, refusals: seq<Refusal>, n: nat)
    requires Chronicle(limit, ticks, told, refusals)
    ensures Chronicle(limit, ticks, CutBelow(told, n), refusals)
  {
    var cut := CutBelow(told, n);
    forall q | 0 <= q < |cut| ensures Placed(limit, ticks, cut[q]) {
      assert Placed(limit, ticks, told[q]);
    }
    forall q | 0 <= q < |refusals| ensures Busy(limit, ticks, cut, refusals[q]) {
      assert Busy(limit, ticks, told, refusals[q]);
    }
  }

  /** The rounds of the connection delivered this NUL-free stream, without errors or expiry. */
  ghost predicate Answerable(command: string -> string, v: Conv, stream: string) {
    NUL !in stream && CleanTalk(command, stream, Begun(v), v.rounds)
  }

  /** A connection the service closed by itself was sent the one reply its request deserves. */
  lemma ClosedWasAnswered(command: string -> string, v: Conv, stream: string)
    requires Told(command, v) && !v.open && !v.cut
    requires Answerable(command, v, stream)
    ensures v.out == Reply(command, stream)
  {
    hide Talk, CleanTalk, Reply, IdleRounds;
    OneReply(command, stream, v.fd, v.deadline, v.rounds);
  }

  /** The service from start to end. Every descriptor that was ever accepted has been closed
      exactly once. Each of them was either turned away, in a turn in which every slot was held
      by a connection, or has a story. Its rounds are those its own slot was polled for until
      the service closed it, or until the end if that cut it short; no slot had two stories
      at a time. It was sent what its own conversation says however the clients were
      interleaved, and it was gone with the first round that came past its deadline or found it
      broken. Unless it was cut short, a clean request was answered by exactly its one reply. */
  method Session(command: string -> string, limit: nat, ticks: seq<Tick>) returns (s: Server)
    requires limit <= MAX_CLIENTS && forall i :: 0 <= i < |ticks| ==> |ticks[i].fds| <= BATCH
    ensures s.closed == s.accepted == AllFds(ticks) == multiset(Fds(s.told)) + multiset(Refused(s.refusals))
    ensures Chronicle(limit, ticks, s.told, s.refusals)
    ensures forall q :: 0 <= q < |s.told| ==>
      !s.told[q].open && Told(command, s.told[q]) && Punctual(s.told[q]) && EndsBroken(command, s.told[q])
    ensures forall q, stream ::
      0 <= q < |s.told| && !s.told[q].cut && Answerable(command, s.told[q], stream) ==>
        s.told[q].out == Reply(command, stream)
  {
    hide Open, Fds, Refused, Stories, Step, Told, HeardIn, Now, FREE, AllFds, Chronicle, NoneCut, Answerable, Reply,
      CutBelow, Punctual, EndsBroken;
    s := new Server(command, limit);
    NoFds(limit);
    assert ticks[..0] == [];
    var n := 0;
    while n < |ticks|
      invariant n <= |ticks| && fresh(s) && fresh(s.clients) && s.command == command && s.limit == limit && s.Valid()
      invariant s.accepted == AllFds(ticks[..n])
      invariant Chronicle(limit, ticks[..n], s.told, s.refusals) && NoneCut(s.told)
    {
      Turn(s, ticks[n], ticks[..n]);
      FdsNext(ticks[..n], ticks[n]);
      assert ticks[..n + 1] == ticks[..n] + [ticks[n]];
      n := n + 1;
    }
    assert ticks[..n] == ticks;
    ChronicleEnds(limit, ticks, s.told, s.refusals, s.limit);
    s.End();
    s.AllTold();
    forall q | 0 <= q < |s.told| ensures Punctual(s.told[q]) && EndsBroken(command, s.told[q]) {
      ToldInTime(command, s.told[q]);
      ToldEndsBroken(command, s.told[q]);
    }
    forall q, stream | 0 <= q < |s.told| && !s.told[q].cut && Answerable(command, s.told[q], stream)
      ensures s.told[q].out == Reply(command, stream)
    {
      ClosedWasAnswered(command, s.told[q], stream);
    }
  }

  method Turn(s: Server, t: Tick, ghost before: seq<Tick>)
    requires s.Valid() && |t.fds| <= BATCH
    requires Chronicle(s.limit, before, s.told, s.refusals) && NoneCut(s.told)
    modifies s, s.clients
    ensures s.Valid() && s.accepted == old(s.accepted) + multiset(t.fds)
    ensures Chronicle(s.limit, before + [t], s.told, s.refusals) && NoneCut(s.told)
  {
    hide Open, Fds, Refused, Stories, Step, Told, HeardIn, Now, FREE, Chronicle, NoneCut, Served, Admitted, TurnedAway;
    ghost var told, refusals := s.told, s.refusals;
    var slots := s.PollSlots();
    s.Polled(slots);
    assert forall k :: 0 <= k < |slots| ==> slots[k] in slots;
    s.Serve(slots, t.poll, t.now);
    s.AdmitBatch(t.fds, t.now, |before|);
    ChronicleNext(s.command, s.limit, before, t, told, slots, s.told, refusals, s.refusals);
  }

  lemma NoFds(limit: nat)
    ensures AllFds([]) == multiset{} && Chronicle(limit, [], [], []) && NoneCut([])
  {}

  lemma FdsNext(ticks: seq<Tick>, t: Tick)
    ensures AllFds(ticks + [t]) == AllFds(ticks) + multiset(t.fds)
  {
    assert (ticks + [t])[..|ticks|] == ticks;
  }
}
