/** What holds over whole runs of the daemon, for every pattern of kernel failures. */
module ProvisionTheorems {
  import opened Types
  import opened Kernel
  import opened Firewall
  import opened Provision
  import opened ProvisionInvariant
  import opened ProvisionCalls

  /** s is a state of a run: the daemon started and handled the events. */
  ghost predicate Reachable(env: Env, cfg: Config, foreign: set<nat>, events: seq<Event>, s: State) {
    env.Valid() && Boot(env, foreign).Some? && s == Run(env, cfg, Boot(env, foreign).value, events)
  }

  lemma StepSound(env: Env, cfg: Config, s: State, e: Event)
    requires env.Valid() && Inv(cfg, s)
    ensures Inv(cfg, Step(env, cfg, s, e))
  {
    hide Inv, HandlePacket, DelAll;
    match e
    case Captured(p, now) => PacketSound(env, cfg, s, p, now);
    case Cleanup => DelAllSound(env, cfg, s);
  }

  lemma {:induction false} RunSound(env: Env, cfg: Config, s: State, events: seq<Event>)
    requires env.Valid() && Inv(cfg, s)
    ensures Inv(cfg, Run(env, cfg, s, events))
    decreases |events|
  {
    hide Inv, Step;
    if events != [] {
      StepSound(env, cfg, s, events[0]);
      RunSound(env, cfg, Step(env, cfg, s, events[0]), events[1..]);
    }
  }

  lemma BootSound(env: Env, cfg: Config, foreign: set<nat>)
    requires Boot(env, foreign).Some?
    ensures Inv(cfg, Boot(env, foreign).value)
  {
    hide Inv;
    var w := World(Kernel(foreign, map[], {}, map[], multiset{}, [], []), []);
    ChainDefaultsSound(env, w);
    EmptyCore(cfg, ChainDefaults(env, w).w);
  }

  lemma ReachableSound(env: Env, cfg: Config, foreign: set<nat>, events: seq<Event>, s: State)
    requires Reachable(env, cfg, foreign, events, s)
    ensures Inv(cfg, s)
  {
    hide Inv, Run, Boot;
    BootSound(env, cfg, foreign);
    RunSound(env, cfg, Boot(env, foreign).value, events);
  }

  /** Without a tunnel interface the chains need not end in DROP: a cleanup empties them first. */
  lemma CleanupEmptiesChains(env: Env, cfg: Config, foreign: set<nat>)
    requires env.Valid() && forall n: nat :: env.succeeds(n)
    ensures Boot(env, foreign).Some?
    ensures var s := Run(env, cfg, Boot(env, foreign).value, [Cleanup]);
      |s.w.log| > 3 && !EndsInDrop(s.w.log[3].after.inChain)
  {
    hide Boot, Run, DelAll, Env.Valid;
    BootLog(env, foreign);
    var b := Boot(env, foreign).value;
    RunOne(env, cfg, b, Cleanup);
    CleanupOfNothing(env, b);
  }

  lemma BootLog(env: Env, foreign: set<nat>)
    requires env.succeeds(0) && env.succeeds(1) && env.succeeds(2)
    ensures Boot(env, foreign).Some?
    ensures var b := Boot(env, foreign).value; |b.w.log| == 3 && b.tunnels == map[]
  {
    hide Leaked;
  }

  lemma RunOne(env: Env, cfg: Config, s: State, e: Event)
    requires env.Valid()
    ensures Run(env, cfg, s, [e]) == Step(env, cfg, s, e)
  {
    hide Step, Env.Valid;
    assert [e][1..] == [];
    assert Run(env, cfg, Step(env, cfg, s, e), []) == Step(env, cfg, s, e);
  }

  lemma CleanupOfNothing(env: Env, s: State)
    requires env.Valid() && env.succeeds(|s.w.log|) && s.tunnels == map[]
    ensures var s' := DelAll(env, s);
      |s'.w.log| > |s.w.log| && s'.w.log[|s.w.log|].after.inChain == []
  {
    hide Leaked;
    var order := env.tunnelOrder(|s.w.log|, s.tunnels.Keys);
    assert Enumerates(order, s.tunnels.Keys);
    EnumeratesSize(order, s.tunnels.Keys);
  }

  /** First-match traversal of the installed rules is the learned relation, plus exactly the
      ingress rules whose undo failed since the last flush. */
  lemma FirewallExact(env: Env, cfg: Config, foreign: set<nat>, events: seq<Event>, s: State, r: Ip, m: Mac)
    requires Reachable(env, cfg, foreign, events, s)
    requires r in s.tunnels && s.tunnels[r].ready
    ensures var t := s.tunnels[r];
      && (Ingress(s.w.k, t.id, m) <==> m in t.macs || (t.id, m) in Leaked(s.w.log))
      && (Egress(s.w.k, 1, t.id, m) <==> m.b0 % 2 == 1 || m in t.macs)
      && (Egress(s.w.k, 2, t.id, m) <==> m.b0 % 2 == 1 || m in t.macs)
  {
    ReachableSound(env, cfg, foreign, events, s);
    hide Reachable, Run, Boot;
    ReadyFilters(cfg, s, r, m);
  }

  lemma ReadyJumps(cfg: Config, s: State, r: Ip)
    requires Hooks(s) && Links(cfg, s) && r in s.tunnels && s.tunnels[r].ready
    ensures forall h: nat :: h < HOOKS ==> Jump(s.tunnels[r].id, h) in s.w.k.jumps
  {
    forall h: nat | h < HOOKS ensures Jump(s.tunnels[r].id, h) in s.w.k.jumps {
      assert h in ALL_HOOKS;
      assert s.w.k.jumps[Jump(s.tunnels[r].id, h)] == 1;
    }
  }

  lemma ReadyFilters(cfg: Config, s: State, r: Ip, m: Mac)
    requires Inv(cfg, s) && r in s.tunnels && s.tunnels[r].ready
    ensures var t := s.tunnels[r];
      && (Ingress(s.w.k, t.id, m) <==> m in t.macs || (t.id, m) in Leaked(s.w.log))
      && (Egress(s.w.k, 1, t.id, m) <==> IsMulticast(m) || m in t.macs)
      && (Egress(s.w.k, 2, t.id, m) <==> IsMulticast(m) || m in t.macs)
  {
    hide Tables, Indexed, Hooks, Links, AllFenced, Admitted, Leaked, RulesOwned, IdleEmpty;
    ReadyJumps(cfg, s, r);
    ChainDecides(s.w.k.inChain, IN_DEFAULTS, s.tunnels[r].id, m);
    ChainDecides(s.w.k.outChain, OUT_DEFAULTS, s.tunnels[r].id, m);
  }

  lemma ChainDecides(rules: seq<Rule>, defaults: seq<Rule>, id: nat, m: Mac)
    requires NormalForm(rules, defaults) && (defaults == IN_DEFAULTS || defaults == OUT_DEFAULTS)
    ensures Traverse(rules, id, m) <==> Accept(id, m) in rules || (defaults == OUT_DEFAULTS && IsMulticast(m))
  {
    var n := |rules| - |defaults|;
    assert rules == rules[..n] + defaults;
    TraverseExact(rules[..n], defaults, id, m);
    assert Accept(id, m) in rules <==> Accept(id, m) in rules[..n];
    assert OUT_DEFAULTS[1..] == [Drop];
  }

  /** No command that should have removed an ingress rule has failed. */
  ghost predicate NoUndoFailed(log: seq<Entry>) {
    forall i :: 0 <= i < |log| && log[i].cmd.Delete? && log[i].cmd.chain.In? ==> log[i].ok
  }

  lemma {:induction false} NothingLeaks(log: seq<Entry>)
    requires NoUndoFailed(log)
    ensures Leaked(log) == {}
  {
    if log != [] {
      var n := |log| - 1;
      forall i | 0 <= i < n && log[..n][i].cmd.Delete? && log[..n][i].cmd.chain.In? ensures log[..n][i].ok {
        assert log[i].ok;
      }
      NothingLeaks(log[..n]);
    }
  }

  /** When the egress rule and the undo are both refused, the ingress chain accepts an address
      the tunnel has not learned. */
  lemma UndoFails(env: Env, s: State, r: Ip, m: Mac)
    requires r in s.tunnels && s.tunnels[r].ready && |s.tunnels[r].macs| < MAX_CLIENTS
    requires m !in s.tunnels[r].macs && m !in s.macIndex
    requires env.succeeds(|s.w.log|) && !env.succeeds(|s.w.log| + 1) && !env.succeeds(|s.w.log| + 2)
    ensures var c := AllowMac(env, s, r, m);
      !c.ok && m !in c.s.tunnels[r].macs && Ingress(c.s.w.k, s.tunnels[r].id, m)
  {
    hide Leaked;
    var a := Accept(s.tunnels[r].id, m);
    var w1 := Exec(env, s.w, Insert(In, a)).w;
    assert w1.k.inChain == [a] + s.w.k.inChain && |w1.log| == |s.w.log| + 1;
    var w2 := Exec(env, w1, Insert(Out, a)).w;
    assert w2.k == w1.k && |w2.log| == |s.w.log| + 2;
    assert Traverse(w1.k.inChain, a.id, m);
  }

  /** As long as every undo worked, a client's frames enter through its own tunnel only. */
  lemma ClientsOwnTheirPort(env: Env, cfg: Config, foreign: set<nat>, events: seq<Event>, s: State, r: Ip, m: Mac)
    requires Reachable(env, cfg, foreign, events, s) && NoUndoFailed(s.w.log)
    requires r in s.tunnels && s.tunnels[r].ready
    ensures Ingress(s.w.k, s.tunnels[r].id, m) <==> m in s.macIndex && s.macIndex[m] == r
  {
    hide Reachable, Core, Leaked, NoUndoFailed, Ingress, Egress;
    FirewallExact(env, cfg, foreign, events, s, r, m);
    NothingLeaks(s.w.log);
    ReachableSound(env, cfg, foreign, events, s);
    IndexedMember(cfg, s, r, m);
  }

  lemma IndexedMember(cfg: Config, s: State, r: Ip, m: Mac)
    requires Core(cfg, s) && r in s.tunnels
    ensures m in s.tunnels[r].macs <==> m in s.macIndex && s.macIndex[m] == r
  {
    hide Tables, Hooks, Links, RulesExact, AllFenced, Admitted;
  }

  /** Without a completed cleanup no event takes a client away from its remote. */
  lemma {:induction false} OwnerForLife(env: Env, cfg: Config, s: State, events: seq<Event>)
    requires env.Valid() && Inv(cfg, s)
    requires forall i :: 0 <= i < |events| && events[i].Cleanup? ==> Run(env, cfg, s, events[..i + 1]).cleanupPending
    ensures OwnersKept(s, Run(env, cfg, s, events))
    decreases |events|
  {
    hide Inv, HandlePacket, DelAll;
    if events != [] {
      var e := events[0];
      var s' := Step(env, cfg, s, e);
      assert events[..1] == [e] && [e][1..] == [];
      assert Run(env, cfg, s, events[..1]) == s' by {
        assert Run(env, cfg, s', []) == s';
      }
      StepSound(env, cfg, s, e);
      if e.Captured? {
        PacketSound(env, cfg, s, e.packet, e.now);
      } else {
        DelAllSound(env, cfg, s);
      }
      forall i | 0 <= i < |events[1..]| && events[1..][i].Cleanup?
        ensures Run(env, cfg, s', events[1..][..i + 1]).cleanupPending
      {
        var q := events[..i + 2];
        assert q[0] == e && q[1..] == events[1..][..i + 1];
        assert events[i + 1].Cleanup? && events[..i + 1 + 1] == q;
      }
      OwnerForLife(env, cfg, s', events[1..]);
    }
  }

  // ---- the tables agree ----

  ghost function TotalClients(tunnels: map<Ip, Tunnel>, order: seq<Ip>): nat
    requires forall i :: 0 <= i < |order| ==> order[i] in tunnels
  {
    if order == [] then 0 else |tunnels[order[0]].macs| + TotalClients(tunnels, order[1..])
  }

  ghost function ClientsOf(s: State, order: seq<Ip>): set<Mac> {
    set m | m in s.macIndex && s.macIndex[m] in order
  }

  lemma {:induction false} ClientsCounted(s: State, order: seq<Ip>)
    requires Indexed(s)
    requires forall i :: 0 <= i < |order| ==> order[i] in s.tunnels
    requires forall i, j :: 0 <= i < j < |order| ==> order[i] != order[j]
    ensures |ClientsOf(s, order)| == TotalClients(s.tunnels, order)
    decreases |order|
  {
    if order == [] {
      hide Indexed;
      assert ClientsOf(s, order) == {};
    } else {
      var r, rest := order[0], order[1..];
      hide Indexed, ClientsOf;
      ClientsCounted(s, rest);
      assert r !in rest;
      assert forall q :: q in order <==> q == r || q in rest;
      ClientsSplit(s, r, rest, order);
    }
  }

  lemma ClientsSplit(s: State, r: Ip, rest: seq<Ip>, order: seq<Ip>)
    requires Indexed(s) && r in s.tunnels && r !in rest
    requires forall q :: q in order <==> q == r || q in rest
    ensures ClientsOf(s, order) == s.tunnels[r].macs + ClientsOf(s, rest)
    ensures s.tunnels[r].macs !! ClientsOf(s, rest)
  {}

  ghost function Ids(tunnels: map<Ip, Tunnel>, keys: set<Ip>): set<nat>
    requires keys <= tunnels.Keys
  {
    set r | r in keys :: tunnels[r].id
  }

  lemma {:induction false} IdsDistinct(tunnels: map<Ip, Tunnel>, keys: set<Ip>)
    requires keys <= tunnels.Keys
    requires forall r, q :: r in tunnels && q in tunnels && tunnels[r].id == tunnels[q].id ==> r == q
    ensures |Ids(tunnels, keys)| == |keys|
  {
    if keys != {} {
      var r :| r in keys;
      var rest := keys - {r};
      IdsDistinct(tunnels, rest);
      assert Ids(tunnels, keys) == Ids(tunnels, rest) + {tunnels[r].id};
    }
  }

  lemma {:induction false} BelowSize(ids: set<nat>, n: nat)
    requires forall id :: id in ids ==> id < n
    ensures |ids| <= n
  {
    if n == 0 {
      assert ids == {};
    } else {
      var rest := ids - {n - 1};
      BelowSize(rest, n - 1);
      assert ids <= rest + {n - 1};
    }
  }

  /** In every reachable state the tables describe one relation, and its size is the sum
      of its parts. The listing order is that of any enumeration of the table. */
  lemma TablesAgree(env: Env, cfg: Config, foreign: set<nat>, events: seq<Event>, s: State, order: seq<Ip>)
    requires Reachable(env, cfg, foreign, events, s) && Enumerates(order, s.tunnels.Keys)
    ensures forall r, m :: m in s.macIndex && s.macIndex[m] == r <==> r in s.tunnels && m in s.tunnels[r].macs
    ensures |s.slots| == 4096
    ensures forall i :: 0 <= i < 4096 ==> (s.slots[i] <==> exists r :: r in s.tunnels && s.tunnels[r].id == i)
    ensures forall r, q :: r in s.tunnels && q in s.tunnels && s.tunnels[r].id == s.tunnels[q].id ==> r == q
    ensures forall r :: r in s.tunnels ==> s.tunnels[r].remote == r && |s.tunnels[r].macs| <= 1024
    ensures |s.tunnels| <= 4096
    ensures |s.macIndex| == TotalClients(s.tunnels, order) <= 4096 * 1024
  {
    hide Reachable, Hooks, Links, RulesExact, AllFenced, Admitted, TotalClients;
    ReachableSound(env, cfg, foreign, events, s);
    TunnelsBounded(s, order);
    IndexCounted(s, order);
    SlotsExact(s);
    assert forall i :: 0 <= i < MAX_SLOTS ==> (s.slots[i] <==> Owned(s.tunnels, i));
  }

  lemma SlotsExact(s: State)
    requires Tables(s)
    ensures forall i :: 0 <= i < MAX_SLOTS ==> (s.slots[i] <==> Owned(s.tunnels, i))
  {}

  lemma TunnelsBounded(s: State, order: seq<Ip>)
    requires Tables(s) && Enumerates(order, s.tunnels.Keys)
    ensures |s.tunnels| == |order| <= MAX_SLOTS
  {
    EnumeratesSize(order, s.tunnels.Keys);
    IdsDistinct(s.tunnels, s.tunnels.Keys);
    BelowSize(Ids(s.tunnels, s.tunnels.Keys), MAX_SLOTS);
  }

  lemma IndexCounted(s: State, order: seq<Ip>)
    requires Tables(s) && Indexed(s) && Enumerates(order, s.tunnels.Keys)
    ensures forall i :: 0 <= i < |order| ==> order[i] in s.tunnels
    ensures |s.macIndex| == TotalClients(s.tunnels, order) <= MAX_SLOTS * MAX_CLIENTS
  {
    assert forall i :: 0 <= i < |order| ==> order[i] in order;
    ClientsCounted(s, order);
    assert ClientsOf(s, order) == s.macIndex.Keys;
    TunnelsBounded(s, order);
    TotalBounded(s, order);
  }

  lemma {:induction false} TotalBounded(s: State, order: seq<Ip>)
    requires Tables(s)
    requires forall i :: 0 <= i < |order| ==> order[i] in s.tunnels
    ensures TotalClients(s.tunnels, order) <= |order| * MAX_CLIENTS
    decreases |order|
  {
    if order != [] {
      TotalBounded(s, order[1..]);
    }
  }

  /** Nothing leaks: interfaces, jumps and bridge ports all belong to records that say so. */
  lemma KernelAgrees(env: Env, cfg: Config, foreign: set<nat>, events: seq<Event>, s: State)
    requires Reachable(env, cfg, foreign, events, s)
    ensures forall i :: i in s.w.k.devs ==>
      exists r :: r in s.tunnels && s.tunnels[r].id == i && s.w.k.devs[i] == Ends(cfg.local, r)
    ensures forall r, h: nat :: r in s.tunnels ==>
      s.w.k.jumps[Jump(s.tunnels[r].id, h)] == if h in s.tunnels[r].hooks then 1 else 0
    ensures forall j :: j in s.w.k.jumps ==> exists r :: r in s.tunnels && s.tunnels[r].id == j.id
    ensures forall r :: r in s.tunnels && s.tunnels[r].ready ==>
      !s.cleanupPending && OnBridges(s.w.k, s.tunnels[r].id, cfg.bridges)
  {
    ReachableSound(env, cfg, foreign, events, s);
    hide Reachable, Indexed, RulesExact, AllFenced, Admitted;
    forall i | i in s.w.k.devs
      ensures exists r :: r in s.tunnels && s.tunnels[r].id == i && s.w.k.devs[i] == Ends(cfg.local, r)
    {
      assert UsedSlot(s, i) && Owned(s.tunnels, i);
    }
    forall j | j in s.w.k.jumps ensures exists r :: r in s.tunnels && s.tunnels[r].id == j.id {
      assert UsedSlot(s, j.id) && Owned(s.tunnels, j.id);
    }
    forall r, h: nat | r in s.tunnels
      ensures s.w.k.jumps[Jump(s.tunnels[r].id, h)] == if h in s.tunnels[r].hooks then 1 else 0
    {
      assert JumpsMatch(s.w.k.jumps, s.tunnels[r].id, s.tunnels[r].hooks);
    }
  }

  /** A cleanup either leaves nothing behind or stays pending with every client still owned. */
  lemma CleanupOutcome(env: Env, cfg: Config, foreign: set<nat>, events: seq<Event>, s: State)
    requires Reachable(env, cfg, foreign, events, s)
    ensures var s' := DelAll(env, s); if s'.cleanupPending then s'.macIndex == s.macIndex else Clean(s')
  {
    hide Run, Boot, Inv, Clean, DelAll;
    ReachableSound(env, cfg, foreign, events, s);
    DelAllSound(env, cfg, s);
  }

  // ---- a cleanup completes as soon as the kernel cooperates ----

  lemma TakeDownOneCompletes(env: Env, cfg: Config, s: State, r: Ip)
    requires Core(cfg, s) && s.cleanupPending && r in s.tunnels
    requires forall n: nat :: |s.w.log| <= n < |s.w.log| + 4 ==> env.succeeds(n)
    ensures var c := TakeDownOne(env, s, r); c.ok && |s.w.log| <= |c.s.w.log| <= |s.w.log| + 4
  {
    hide Tables, Indexed, RulesExact, AllFenced, Admitted, Leaked, PortsNested, OnBridges;
    var t := s.tunnels[r];
    var (g, e) := DeleteGre(env, s.w, t.id);
    assert t.id !in s.w.k.foreign;
    assert g.ok || e == NoDev;
    HooksOf(s, r);
    RemoveHooksComplete(env, g.w, t.id, t.hooks, 0);
  }

  lemma {:induction false} TakeDownCompletes(env: Env, cfg: Config, s: State, order: seq<Ip>)
    requires Core(cfg, s) && s.cleanupPending
    requires forall i :: 0 <= i < |order| ==> order[i] in s.tunnels
    requires forall n: nat :: |s.w.log| <= n < |s.w.log| + 4 * |order| ==> env.succeeds(n)
    ensures var c := TakeDown(env, s, order); c.ok && |s.w.log| <= |c.s.w.log| <= |s.w.log| + 4 * |order|
    decreases |order|
  {
    hide Core, TakeDownOne;
    if order != [] {
      TakeDownOneCompletes(env, cfg, s, order[0]);
      TakeDownOneSound(env, cfg, s, order[0]);
      TakeDownCompletes(env, cfg, TakeDownOne(env, s, order[0]).s, order[1..]);
    }
  }

  /** However many attempts failed before, a cleanup succeeds if its own commands do: four for
      each tunnel and five for the chains. */
  lemma CleanupCompletes(env: Env, cfg: Config, foreign: set<nat>, events: seq<Event>, s: State)
    requires Reachable(env, cfg, foreign, events, s)
    requires forall n: nat :: |s.w.log| <= n < |s.w.log| + 4 * |s.tunnels| + 5 ==> env.succeeds(n)
    ensures !DelAll(env, s).cleanupPending && Clean(DelAll(env, s))
  {
    hide Run, Boot, Core, Clean, TakeDown, Leaked;
    ReachableSound(env, cfg, foreign, events, s);
    CleanupOutcome(env, cfg, foreign, events, s);
    CleanupBegins(cfg, s);
    var order := env.tunnelOrder(|s.w.log|, s.tunnels.Keys);
    assert Enumerates(order, s.tunnels.Keys);
    EnumeratesSize(order, s.tunnels.Keys);
    assert |s.tunnels| == |s.tunnels.Keys|;
    TakeDownCompletes(env, cfg, s.(cleanupPending := true), order);
  }

  // ---- backoff and capacity ----

  /** The times at which setting something up failed. */
  ghost function FailTimes(env: Env, cfg: Config, s: State, events: seq<Event>): seq<int>
    requires env.Valid()
    decreases |events|
  {
    if events == [] then []
    else
      var rest := FailTimes(env, cfg, Step(env, cfg, s, events[0]), events[1..]);
      if events[0].Captured? && HandlePacket(env, cfg, s, events[0].packet, events[0].now).verdict == Failed
      then [events[0].now] + rest
      else rest
  }

  /** No cleanup among the events completes. */
  ghost predicate NoReset(env: Env, cfg: Config, s: State, events: seq<Event>)
    requires env.Valid()
    decreases |events|
  {
    events == [] ||
    (var s' := Step(env, cfg, s, events[0]);
     (events[0].Cleanup? ==> s'.cleanupPending) && NoReset(env, cfg, s', events[1..]))
  }

  ghost predicate Spaced(t: seq<int>, earliest: int) {
    && (forall i :: 0 <= i < |t| ==> earliest <= t[i])
    && (forall i, j :: 0 <= i <= j < |t| ==> t[i] + (j - i) * USEC_PER_SEC <= t[j])
  }

  /** Between completed cleanups, failures are at least a second apart, counted in steps. */
  lemma {:induction false} FailuresSpaced(env: Env, cfg: Config, s: State, events: seq<Event>)
    requires env.Valid() && Inv(cfg, s) && NoReset(env, cfg, s, events)
    ensures Spaced(FailTimes(env, cfg, s, events), s.retryAfter)
    decreases |events|
  {
    hide Inv, HandlePacket, DelAll;
    if events != [] {
      var e := events[0];
      var s' := Step(env, cfg, s, e);
      StepSound(env, cfg, s, e);
      FailuresSpaced(env, cfg, s', events[1..]);
      if e.Captured? {
        PacketSound(env, cfg, s, e.packet, e.now);
        FailureArmsBackoff(env, cfg, s, e.packet, e.now);
        if HandlePacket(env, cfg, s, e.packet, e.now).verdict == Failed {
          SpacedCons(e.now, FailTimes(env, cfg, s', events[1..]), s.retryAfter);
        }
      } else {
        DelAllSound(env, cfg, s);
        assert s'.retryAfter == s.retryAfter;
      }
    }
  }

  lemma SpacedCons(now: int, rest: seq<int>, earliest: int)
    requires earliest <= now && Spaced(rest, now + USEC_PER_SEC)
    ensures Spaced([now] + rest, earliest)
  {
    var t := [now] + rest;
    forall i, j | 0 <= i <= j < |t| ensures t[i] + (j - i) * USEC_PER_SEC <= t[j] {
      if i == 0 < j {
        assert rest[0] + (j - 1 - 0) * USEC_PER_SEC <= rest[j - 1];
      } else if 0 < i {
        assert rest[i - 1] + (j - 1 - (i - 1)) * USEC_PER_SEC <= rest[j - 1];
      }
    }
  }

  lemma FailureArmsBackoff(env: Env, cfg: Config, s: State, p: Packet, now: int)
    ensures var h := HandlePacket(env, cfg, s, p, now);
      h.verdict == Failed ==> s.retryAfter <= now && h.s.retryAfter == now + USEC_PER_SEC
  {
    hide Learn, Admitted, Mapped;
  }

  /** Between completed cleanups any window of T microseconds holds at most T/10^6 + 1 failures:
      those from the i-th to the j-th, for any i and j no more than T apart. */
  lemma FailureRate(env: Env, cfg: Config, s: State, events: seq<Event>, i: nat, j: nat, T: nat)
    requires env.Valid() && Inv(cfg, s) && NoReset(env, cfg, s, events)
    requires i <= j < |FailTimes(env, cfg, s, events)|
    requires FailTimes(env, cfg, s, events)[j] - FailTimes(env, cfg, s, events)[i] <= T
    ensures j - i + 1 <= T / 1_000_000 + 1
  {
    hide Inv, NoReset, FailTimes;
    FailuresSpaced(env, cfg, s, events);
    var t := FailTimes(env, cfg, s, events);
    assert t[i] + (j - i) * USEC_PER_SEC <= t[j];
  }

  /** There is no room for another client of r: its tunnel is full, or it has none and no slot
      is left for one. */
  ghost predicate NoRoom(s: State, r: Ip) {
    if r in s.tunnels then s.tunnels[r].ready && |s.tunnels[r].macs| >= MAX_CLIENTS else NoSlot(s)
  }

  /** A packet is refused for want of room if and only if nothing else speaks against it and
      there is no room; such a refusal leaves no trace. */
  lemma FullExactly(env: Env, cfg: Config, s: State, p: Packet, now: int)
    requires env.Valid() && Inv(cfg, s)
    ensures var h := HandlePacket(env, cfg, s, p, now);
      && (h.verdict == Full <==> Eligible(cfg, s, p, now) && NoRoom(s, p.remote))
      && (h.verdict == Full ==> h.s == s)
  {
    hide Core, Admitted, Mapped, Add, AllowMac, NoSlot;
    if Eligible(cfg, s, p, now) {
      AddSound(env, cfg, s, p.remote);
      var a := if p.remote in s.tunnels && s.tunnels[p.remote].ready then Called(s, true, Other)
               else Add(env, cfg, s, p.remote);
      if a.ok {
        AllowMacSound(env, cfg, a.s, p.remote, p.mac);
      }
    }
  }

  /** A packet that only lacks room: its tunnel is full, or its remote is unknown and no slot is
      left. */
  ghost predicate TurnedAway(cfg: Config, s: State, e: Event) {
    e.Captured? && Eligible(cfg, s, e.packet, e.now) && NoRoom(s, e.packet.remote)
  }

  lemma TurnedAwayUnseen(env: Env, cfg: Config, s: State, e: Event)
    requires env.Valid() && Inv(cfg, s) && TurnedAway(cfg, s, e)
    ensures Step(env, cfg, s, e) == s
  {
    hide Inv, Eligible, NoRoom, HandlePacket;
    FullExactly(env, cfg, s, e.packet, e.now);
  }

  /** The run without the packets that were turned away. */
  ghost function Served(env: Env, cfg: Config, s: State, events: seq<Event>): seq<Event>
    requires env.Valid()
    decreases |events|
  {
    if events == [] then []
    else
      var rest := Served(env, cfg, Step(env, cfg, s, events[0]), events[1..]);
      if TurnedAway(cfg, s, events[0]) then rest else [events[0]] + rest
  }

  /** One peer filling its tunnel, or the slot table, changes nothing for the others: not the
      tables, not the kernel, not the backoff. */
  lemma {:induction false} FullPeersUnseen(env: Env, cfg: Config, s: State, events: seq<Event>)
    requires env.Valid() && Inv(cfg, s)
    ensures Run(env, cfg, s, Served(env, cfg, s, events)) == Run(env, cfg, s, events)
    decreases |events|
  {
    hide Inv, Step, TurnedAway;
    if events != [] {
      var e := events[0];
      StepSound(env, cfg, s, e);
      FullPeersUnseen(env, cfg, Step(env, cfg, s, e), events[1..]);
      if TurnedAway(cfg, s, e) {
        TurnedAwayUnseen(env, cfg, s, e);
      } else {
        var rest := Served(env, cfg, Step(env, cfg, s, e), events[1..]);
        assert ([e] + rest)[0] == e && ([e] + rest)[1..] == rest;
      }
    }
  }
}
