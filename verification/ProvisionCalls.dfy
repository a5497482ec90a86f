/** Every call of the provisioning state machine preserves the invariant. */
module ProvisionCalls {
  import opened Types
  import opened Kernel
  import opened Firewall
  import opened Provision
  import opened ProvisionInvariant

  // ---- releasing a record ----

  lemma ForgetIndex(s: State, r: Ip)
    requires Indexed(s) && r in s.tunnels && s.tunnels[r].macs == {}
    ensures Indexed(Forget(s, r))
  {}

  lemma ForgetTables(s: State, r: Ip)
    requires Tables(s) && r in s.tunnels && s.tunnels[r].macs == {}
    ensures Tables(Forget(s, r))
  {
    var s' := Forget(s, r);
    hide SlotsOwned, DistinctIds;
    ForgetSlots(s, r);
    ForgetDistinct(s.tunnels, r);
    assert forall q :: q in s'.tunnels ==> s.tunnels[q].id != s.tunnels[r].id by {
      OthersDiffer(s.tunnels, r);
    }
  }

  lemma ForgetHooks(s: State, r: Ip)
    requires Tables(s) && Hooks(s) && r in s.tunnels && s.tunnels[r].hooks == {}
    ensures Hooks(Forget(s, r))
  {
    var s' := Forget(s, r);
    forall j | j in s'.w.k.jumps ensures UsedSlot(s', j.id) {
      assert UsedSlot(s, j.id);
      assert j == Jump(j.id, j.hook);
    }
  }

  lemma ForgetLinks(cfg: Config, s: State, r: Ip)
    requires Tables(s) && Links(cfg, s) && r in s.tunnels && s.tunnels[r].id !in s.w.k.devs
    ensures Links(cfg, Forget(s, r))
  {
    var s' := Forget(s, r);
    forall i | i in s'.w.k.devs ensures UsedSlot(s', i) {
      assert UsedSlot(s, i);
    }
  }

  lemma ForgetRules(s: State, r: Ip)
    requires Tables(s) && RulesExact(s) && r in s.tunnels && !s.tunnels[r].ready
    ensures RulesExact(Forget(s, r))
  {
    var s' := Forget(s, r);
    var k, leaked := s.w.k, Leaked(s.w.log);
    forall i: nat, m | Accept(i, m) in k.inChain || Accept(i, m) in k.outChain || (i, m) in leaked
      ensures UsedSlot(s', i)
    {
      assert UsedSlot(s, i);
    }
  }

  lemma Forgotten(cfg: Config, s: State, r: Ip)
    requires Core(cfg, s) && !s.cleanupPending && r in s.tunnels
    requires !s.tunnels[r].ready && s.tunnels[r].hooks == {} && s.tunnels[r].id !in s.w.k.devs
    requires s.tunnels[r].macs == {}
    ensures Core(cfg, Forget(s, r))
  {
    hide Tables, Indexed, Hooks, Links, RulesExact, AllFenced, Admitted;
    ForgetTables(s, r);
    ForgetIndex(s, r);
    ForgetHooks(s, r);
    ForgetLinks(cfg, s, r);
    ForgetRules(s, r);
  }

  // ---- recording a new interface ----

  lemma TrackIndex(s: State, r: Ip, id: nat, w: World)
    requires Indexed(s) && r !in s.tunnels && id < |s.slots|
    ensures Indexed(Track(s, r, id, w))
  {}

  lemma TrackTables(s: State, r: Ip, id: nat, w: World)
    requires Tables(s) && r !in s.tunnels && id < MAX_SLOTS && !s.slots[id]
    ensures Tables(Track(s, r, id, w))
  {
    hide SlotsOwned, DistinctIds;
    TrackSlots(s, r, id, w);
    TrackDistinct(s, r, id);
  }

  lemma RecordBounds(s: State, r: Ip)
    requires Tables(s) && r in s.tunnels
    ensures s.tunnels[r].remote == r && |s.tunnels[r].macs| <= MAX_CLIENTS
  {}

  lemma OthersDiffer(tunnels: map<Ip, Tunnel>, r: Ip)
    requires DistinctIds(tunnels) && r in tunnels
    ensures forall q :: q in tunnels && q != r ==> tunnels[q].id != tunnels[r].id
  {}

  lemma ForgetSlots(s: State, r: Ip)
    requires |s.slots| == MAX_SLOTS && SlotsOwned(s) && r in s.tunnels && s.tunnels[r].id < MAX_SLOTS
    ensures SlotsOwned(Forget(s, r))
  {
    var s' := Forget(s, r);
    forall i | 0 <= i < MAX_SLOTS && s'.slots[i] ensures Owned(s'.tunnels, i) {
      assert s.slots[i];
      var q :| q in s.tunnels && s.tunnels[q].id == i;
      assert q in s'.tunnels && s'.tunnels[q].id == i;
    }
  }

  lemma ForgetDistinct(tunnels: map<Ip, Tunnel>, r: Ip)
    requires DistinctIds(tunnels)
    ensures DistinctIds(tunnels - {r})
  {}

  lemma TrackSlots(s: State, r: Ip, id: nat, w: World)
    requires |s.slots| == MAX_SLOTS && SlotsOwned(s) && r !in s.tunnels && id < MAX_SLOTS
    ensures SlotsOwned(Track(s, r, id, w))
  {
    var s' := Track(s, r, id, w);
    forall i | 0 <= i < MAX_SLOTS && s'.slots[i] ensures Owned(s'.tunnels, i) {
      OwnedInsert(s.tunnels, r, s'.tunnels[r], i);
    }
  }

  lemma TrackDistinct(s: State, r: Ip, id: nat)
    requires |s.slots| == MAX_SLOTS && Records(s) && DistinctIds(s.tunnels) && r !in s.tunnels
    requires id < MAX_SLOTS && !s.slots[id]
    ensures DistinctIds(s.tunnels[r := Tunnel(r, id, false, {}, {})])
  {
    assert forall q :: q in s.tunnels ==> s.tunnels[q].id != id;
  }

  lemma OwnedInsert(tunnels: map<Ip, Tunnel>, r: Ip, t: Tunnel, i: nat)
    requires r !in tunnels && (Owned(tunnels, i) || t.id == i)
    ensures Owned(tunnels[r := t], i)
  {
    if t.id == i {
      assert r in tunnels[r := t] && tunnels[r := t][r].id == i;
    } else {
      var q :| q in tunnels && tunnels[q].id == i;
      assert q in tunnels[r := t] && tunnels[r := t][q].id == i;
    }
  }

  lemma TrackHooks(s: State, r: Ip, id: nat, w: World)
    requires Tables(s) && Hooks(s) && r !in s.tunnels && id < MAX_SLOTS && !s.slots[id]
    requires w.k.jumps == s.w.k.jumps
    ensures Hooks(Track(s, r, id, w))
  {
    var s' := Track(s, r, id, w);
    assert forall h: nat :: Jump(id, h) in s.w.k.jumps ==> UsedSlot(s, Jump(id, h).id);
    forall j | j in w.k.jumps ensures UsedSlot(s', j.id) {
      assert UsedSlot(s, j.id);
    }
  }

  lemma TrackLinks(cfg: Config, s: State, r: Ip, id: nat, w: World)
    requires |s.slots| == MAX_SLOTS && Links(cfg, s) && r !in s.tunnels && id < MAX_SLOTS && !s.slots[id]
    requires forall q :: q in s.tunnels ==> s.tunnels[q].id != id
    requires w.k == s.w.k.(devs := s.w.k.devs[id := Ends(cfg.local, r)]) && id !in w.k.foreign
    requires NoPorts(w.k, id)
    ensures Links(cfg, Track(s, r, id, w))
  {
    hide OnBridges, PortsNested;
    var s' := Track(s, r, id, w);
    forall i | i in w.k.devs ensures UsedSlot(s', i) {
      assert i == id || UsedSlot(s, i);
    }
    NestedUnder(s.w.k, w.k);
    forall q | q in s.tunnels && s.tunnels[q].ready ensures OnBridges(w.k, s.tunnels[q].id, cfg.bridges) {
      SameBridges(s.w.k, w.k, s.tunnels[q].id, cfg.bridges);
    }
  }

  lemma NestedUnder(k: Kernel, k': Kernel)
    requires PortsNested(k) && k'.vlans == k.vlans && k'.attached == k.attached && k.devs.Keys <= k'.devs.Keys
    ensures PortsNested(k')
  {}

  lemma SameBridges(k: Kernel, k': Kernel, id: nat, bridges: seq<Bridge>)
    requires OnBridges(k, id, bridges) && k'.attached == k.attached
    ensures OnBridges(k', id, bridges)
  {}

  lemma FreeIsNobodys(s: State, id: nat)
    requires Tables(s) && id < MAX_SLOTS && !s.slots[id]
    ensures forall q :: q in s.tunnels ==> s.tunnels[q].id != id
  {
    hide SlotsOwned, DistinctIds;
  }

  lemma FreshHasNoPorts(cfg: Config, s: State, id: nat)
    requires Links(cfg, s) && !UsedSlot(s, id)
    ensures NoPorts(s.w.k, id)
  {
    forall p | p in s.w.k.attached ensures p.id != id {
      assert p in s.w.k.vlans;
      assert UsedSlot(s, p.id);
    }
  }

  lemma TrackRules(s: State, r: Ip, id: nat, w: World)
    requires Tables(s) && RulesExact(s) && r !in s.tunnels && id < MAX_SLOTS && !s.slots[id]
    requires SameRules(s.w, w)
    ensures RulesExact(Track(s, r, id, w)) && DropsAtEnd(w.k)
  {
    var s' := Track(s, r, id, w);
    var k, leaked := s.w.k, Leaked(s.w.log);
    assert !UsedSlot(s, id);
    forall i: nat, m | Accept(i, m) in k.inChain || Accept(i, m) in k.outChain || (i, m) in leaked
      ensures UsedSlot(s', i)
    {
      assert UsedSlot(s, i);
    }
    NormalFormDrops(k);
  }

  lemma NormalFormDrops(k: Kernel)
    requires NormalForm(k.inChain, IN_DEFAULTS) && NormalForm(k.outChain, OUT_DEFAULTS)
    ensures DropsAtEnd(k)
  {
    assert k.inChain[|k.inChain| - 1] == IN_DEFAULTS[0];
    assert k.outChain[|k.outChain| - 1] == OUT_DEFAULTS[1];
  }

  lemma Tracked(cfg: Config, s: State, r: Ip, id: nat, w: World)
    requires Core(cfg, s) && !s.cleanupPending && r !in s.tunnels && Admitted(cfg, r)
    requires id < MAX_SLOTS == |s.slots| && !s.slots[id]
    requires w.k == s.w.k.(devs := s.w.k.devs[id := Ends(cfg.local, r)]) && SameRules(s.w, w) && AllFenced(w.log)
    requires id !in w.k.foreign
    ensures Core(cfg, Track(s, r, id, w)) && NoPorts(w.k, id)
  {
    hide Tables, Indexed, Hooks, Links, RulesExact, AllFenced, Admitted;
    TrackTables(s, r, id, w);
    TrackIndex(s, r, id, w);
    TrackHooks(s, r, id, w);
    FreshHasNoPorts(cfg, s, id);
    FreeIsNobodys(s, id);
    TrackLinks(cfg, s, r, id, w);
    TrackRules(s, r, id, w);
  }

  // ---- putting a tunnel into service ----

  function Enable(s: State, r: Ip, ready: bool): State
    requires r in s.tunnels
  {
    s.(tunnels := s.tunnels[r := s.tunnels[r].(ready := ready)])
  }

  lemma EnableIndex(s: State, r: Ip, ready: bool)
    requires Indexed(s) && r in s.tunnels
    ensures Indexed(Enable(s, r, ready))
  {}

  lemma EnableTables(s: State, r: Ip, ready: bool)
    requires Tables(s) && r in s.tunnels
    ensures Tables(Enable(s, r, ready))
  {
    var s' := Enable(s, r, ready);
    RecordBounds(s, r);
    TablesUpdate(s, r, s'.tunnels[r], s');
  }

  lemma EnableLinks(cfg: Config, s: State, r: Ip, ready: bool)
    requires Hooks(s) && Links(cfg, s) && r in s.tunnels
    requires ready ==> s.tunnels[r].hooks == ALL_HOOKS && s.tunnels[r].id in s.w.k.devs
                       && OnBridges(s.w.k, s.tunnels[r].id, cfg.bridges)
    ensures Hooks(Enable(s, r, ready)) && Links(cfg, Enable(s, r, ready))
  {
    var s' := Enable(s, r, ready);
    forall i | i in s'.w.k.devs ensures UsedSlot(s', i) {
      assert UsedSlot(s, i);
    }
    forall j | j in s'.w.k.jumps ensures UsedSlot(s', j.id) {
      assert UsedSlot(s, j.id);
    }
  }

  lemma EnableRules(s: State, r: Ip)
    requires RulesExact(s) && r in s.tunnels
    ensures RulesExact(Enable(s, r, true))
  {
    var s' := Enable(s, r, true);
    var k, leaked := s.w.k, Leaked(s.w.log);
    forall i: nat, m | Accept(i, m) in k.inChain || Accept(i, m) in k.outChain || (i, m) in leaked
      ensures UsedSlot(s', i)
    {
      assert UsedSlot(s, i);
    }
  }

  lemma Enabled(cfg: Config, s: State, r: Ip)
    requires Core(cfg, s) && !s.cleanupPending && r in s.tunnels
    requires s.tunnels[r].hooks == ALL_HOOKS && s.tunnels[r].id in s.w.k.devs
    requires OnBridges(s.w.k, s.tunnels[r].id, cfg.bridges)
    ensures Core(cfg, Enable(s, r, true))
  {
    hide Tables, Indexed, Hooks, Links, RulesExact, AllFenced, Admitted, OnBridges;
    EnableTables(s, r, true);
    EnableIndex(s, r, true);
    EnableLinks(cfg, s, r, true);
    EnableRules(s, r);
  }

  lemma Disabled(cfg: Config, s: State, r: Ip)
    requires Core(cfg, s) && s.cleanupPending && r in s.tunnels
    ensures Core(cfg, Enable(s, r, false))
  {
    hide Tables, Indexed, Hooks, Links, RulesExact, AllFenced, Admitted, OnBridges;
    EnableTables(s, r, false);
    EnableIndex(s, r, false);
    EnableLinks(cfg, s, r, false);
  }

  // ---- learning a client ----

  function Own(s: State, r: Ip, m: Mac, w: World): State
    requires r in s.tunnels
  {
    s.(w := w, tunnels := s.tunnels[r := s.tunnels[r].(macs := s.tunnels[r].macs + {m})],
       macIndex := s.macIndex[m := r])
  }

  lemma OwnTables(s: State, r: Ip, m: Mac, w: World)
    requires Tables(s) && r in s.tunnels && |s.tunnels[r].macs| < MAX_CLIENTS
    ensures Tables(Own(s, r, m, w))
  {
    TablesUpdate(s, r, Own(s, r, m, w).tunnels[r], Own(s, r, m, w));
  }

  lemma OwnIndex(s: State, r: Ip, m: Mac, w: World)
    requires Indexed(s) && r in s.tunnels && m !in s.macIndex
    ensures Indexed(Own(s, r, m, w))
  {}

  /** A world that differs from the old one in the owned chains only. */
  ghost predicate ChainFrame(w: World, w': World) {
    w'.k == w.k.(inChain := w'.k.inChain, outChain := w'.k.outChain)
  }

  lemma LinksUnderRules(cfg: Config, s: State, s': State)
    requires Hooks(s) && Links(cfg, s) && ChainFrame(s.w, s'.w)
    requires s'.slots == s.slots && s'.tunnels.Keys == s.tunnels.Keys
    requires forall r :: r in s.tunnels ==>
      && s'.tunnels[r].id == s.tunnels[r].id && s'.tunnels[r].hooks == s.tunnels[r].hooks
      && s'.tunnels[r].ready == s.tunnels[r].ready
    ensures Hooks(s') && Links(cfg, s')
  {
    forall i | i in s'.w.k.devs ensures UsedSlot(s', i) {
      assert UsedSlot(s, i);
    }
    forall j | j in s'.w.k.jumps ensures UsedSlot(s', j.id) {
      assert UsedSlot(s, j.id);
    }
  }

  lemma NormalFormGrows(rules: seq<Rule>, defaults: seq<Rule>, a: Rule)
    requires NormalForm(rules, defaults) && a.Accept?
    ensures NormalForm([a] + rules, defaults)
  {
    var all := [a] + rules;
    assert all[|all| - |defaults|..] == rules[|rules| - |defaults|..];
    forall i | 0 <= i < |all| - |defaults| ensures all[i].Accept? {
      if i > 0 {
        assert all[i] == rules[i - 1];
      }
    }
  }

  ghost predicate GrewBy(rules: seq<Rule>, rules': seq<Rule>, a: Rule) {
    forall x :: x in rules' <==> x == a || x in rules
  }

  lemma OnceGrows(rules: seq<Rule>, leaked: set<(nat, Mac)>, leaked': set<(nat, Mac)>, id: nat, m: Mac)
    requires Once(rules, leaked) && leaked <= leaked'
    requires (id, m) in leaked' || Accept(id, m) !in rules
    ensures Once([Accept(id, m)] + rules, leaked')
  {
    var a := Accept(id, m);
    forall i: nat, c | (i, c) !in leaked' ensures multiset([a] + rules)[Accept(i, c)] <= 1 {
      assert multiset([a] + rules) == multiset{a} + multiset(rules);
      assert a !in rules ==> multiset(rules)[a] == 0;
    }
  }

  lemma OwnChains(s: State, r: Ip, m: Mac, w: World)
    requires Tables(s) && r in s.tunnels
    requires InExact(s.tunnels, s.w.k.inChain, Leaked(s.w.log)) && OutExact(s.tunnels, s.w.k.outChain)
    requires GrewBy(s.w.k.inChain, w.k.inChain, Accept(s.tunnels[r].id, m))
    requires GrewBy(s.w.k.outChain, w.k.outChain, Accept(s.tunnels[r].id, m))
    ensures InExact(Own(s, r, m, w).tunnels, w.k.inChain, Leaked(s.w.log))
    ensures OutExact(Own(s, r, m, w).tunnels, w.k.outChain)
  {
    hide Leaked;
  }

  lemma RulesOwnedGrow(s: State, s': State, id: nat, m: Mac)
    requires RulesOwned(s) && UsedSlot(s, id) && s'.slots == s.slots
    requires GrewBy(s.w.k.inChain, s'.w.k.inChain, Accept(id, m))
    requires s'.w.k.outChain == s.w.k.outChain || GrewBy(s.w.k.outChain, s'.w.k.outChain, Accept(id, m))
    requires Leaked(s'.w.log) <= Leaked(s.w.log) + {(id, m)}
    ensures RulesOwned(s')
  {
    hide Leaked;
    forall i: nat, c | Accept(i, c) in s'.w.k.inChain || Accept(i, c) in s'.w.k.outChain || (i, c) in Leaked(s'.w.log)
      ensures UsedSlot(s', i)
    {
      assert i == id || UsedSlot(s, i);
    }
  }

  /** A client not yet learned has no rule, unless one was left behind. */
  lemma NoRuleYet(s: State, r: Ip, m: Mac)
    requires RulesExact(s) && r in s.tunnels && m !in s.tunnels[r].macs
    ensures var a := Accept(s.tunnels[r].id, m);
      a !in s.w.k.outChain && (a in s.w.k.inChain ==> (a.id, m) in Leaked(s.w.log))
  {
    hide NormalForm, Once, RulesOwned, Leaked;
  }

  /** Both rules went in and the client is recorded. */
  lemma OwnRules(s: State, r: Ip, m: Mac, w: World)
    requires Tables(s) && RulesExact(s) && r in s.tunnels && s.tunnels[r].ready && m !in s.tunnels[r].macs
    requires w.k.inChain == [Accept(s.tunnels[r].id, m)] + s.w.k.inChain
    requires w.k.outChain == [Accept(s.tunnels[r].id, m)] + s.w.k.outChain
    requires Leaked(w.log) == Leaked(s.w.log)
    ensures RulesExact(Own(s, r, m, w))
  {
    hide Leaked, NormalForm, InExact, OutExact, RulesOwned, Once;
    var a := Accept(s.tunnels[r].id, m);
    NoRuleYet(s, r, m);
    OnceGrows(s.w.k.inChain, Leaked(s.w.log), Leaked(s.w.log), a.id, m);
    OnceGrows(s.w.k.outChain, {}, {}, a.id, m);
    NormalFormGrows(s.w.k.inChain, IN_DEFAULTS, a);
    NormalFormGrows(s.w.k.outChain, OUT_DEFAULTS, a);
    OwnChains(s, r, m, w);
    RulesOwnedGrow(s, Own(s, r, m, w), a.id, m);
  }

  lemma LeakChain(s: State, r: Ip, m: Mac, w: World)
    requires Tables(s) && r in s.tunnels
    requires InExact(s.tunnels, s.w.k.inChain, Leaked(s.w.log))
    requires GrewBy(s.w.k.inChain, w.k.inChain, Accept(s.tunnels[r].id, m))
    ensures InExact(s.tunnels, w.k.inChain, Leaked(s.w.log) + {(s.tunnels[r].id, m)})
  {
    hide Leaked;
  }

  /** Only the ingress rule went in, and the command that should have removed it failed. */
  lemma LeakRules(s: State, r: Ip, m: Mac, w: World)
    requires Tables(s) && RulesExact(s) && r in s.tunnels && s.tunnels[r].ready
    requires w.k.inChain == [Accept(s.tunnels[r].id, m)] + s.w.k.inChain
    requires w.k.outChain == s.w.k.outChain
    requires Leaked(w.log) == Leaked(s.w.log) + {(s.tunnels[r].id, m)}
    ensures RulesExact(s.(w := w))
  {
    hide Leaked, NormalForm, InExact, OutExact, RulesOwned, Once;
    var a := Accept(s.tunnels[r].id, m);
    OnceGrows(s.w.k.inChain, Leaked(s.w.log), Leaked(w.log), a.id, m);
    NormalFormGrows(s.w.k.inChain, IN_DEFAULTS, a);
    LeakChain(s, r, m, w);
    RulesOwnedGrow(s, s.(w := w), a.id, m);
  }

  // ---- the calls ----

  /** The record of r may have changed or gone; every other record and every client stays. */
  ghost predicate Kept(s: State, s': State, r: Ip) {
    && s'.macIndex == s.macIndex && s'.retryAfter == s.retryAfter
    && s'.cleanupPending == s.cleanupPending
    && s'.tunnels - {r} == s.tunnels - {r}
  }

  lemma HooksOf(s: State, r: Ip)
    requires Hooks(s) && r in s.tunnels
    ensures s.tunnels[r].hooks <= ALL_HOOKS
    ensures JumpsMatch(s.w.k.jumps, s.tunnels[r].id, s.tunnels[r].hooks)
  {}

  lemma IdleHasNoClients(cfg: Config, s: State, r: Ip)
    requires Core(cfg, s) && !s.cleanupPending && r in s.tunnels && !s.tunnels[r].ready
    ensures s.tunnels[r].macs == {}
  {
    hide Tables, Indexed, Hooks, Links, AllFenced, Admitted;
  }

  lemma NothingToDrop(env: Env, s: State, r: Ip, n: nat)
    requires env.Valid() && r in s.tunnels && s.tunnels[r].macs == {}
    ensures DropMacs(env, s, r, env.macOrder(n, s.tunnels[r].macs)) == Called(s, true, Other)
  {
    var order := env.macOrder(n, s.tunnels[r].macs);
    assert Enumerates(order, s.tunnels[r].macs);
    EnumeratesSize(order, s.tunnels[r].macs);
  }

  /** Every slot is in use, or its interface name belongs to somebody else. */
  ghost predicate NoSlot(s: State) {
    forall i :: 0 <= i < |s.slots| ==> s.slots[i] || Named(s.w.k, i)
  }

  /** Forgetting a tunnel whose interface is gone makes room for another one. */
  lemma FreedSlot(cfg: Config, s: State, r: Ip)
    requires Core(cfg, s) && r in s.tunnels && s.tunnels[r].id !in s.w.k.devs
    ensures !NoSlot(Forget(s, r))
  {
    hide Indexed, Hooks, RulesExact, AllFenced, Admitted, DistinctIds, SlotsOwned, PortsNested, OnBridges;
    var id := s.tunnels[r].id;
    var s' := Forget(s, r);
    assert id < |s'.slots| && !s'.slots[id] && !Named(s'.w.k, id);
  }

  /** Rollback of a tunnel that is not in service never loses a client and never breaks the
      invariant, whichever of its commands fail. */
  lemma DelSound(env: Env, cfg: Config, s: State, r: Ip)
    requires env.Valid() && Core(cfg, s) && !s.cleanupPending
    requires r in s.tunnels ==> !s.tunnels[r].ready
    ensures var c := Del(env, s, r);
      && Core(cfg, c.s) && Kept(s, c.s, r)
      && (c.ok ==> r !in c.s.tunnels)
      && (r in c.s.tunnels ==> !c.s.tunnels[r].ready)
      && (r !in s.tunnels ==> c == Called(s, true, Other))
      && (c.ok && r in s.tunnels ==> !NoSlot(c.s))
  {
    hide NoSlot, Tables, Indexed, Hooks, Links, RulesExact, AllFenced, Admitted, Fenced, NoPorts, JumpsMatch, Leaked,
      RemoveHooks, SameElsewhere;
    if r in s.tunnels {
      IdleHasNoClients(cfg, s, r);
      GreDeleted(env, cfg, s, r);
      var (g, e) := DeleteGre(env, s.w, s.tunnels[r].id);
      if g.ok || e == NoDev {
        var s1 := s.(w := g.w);
        NothingToDrop(env, s1, r, |g.w.log|);
        HooksOf(s1, r);
        RemoveHooksSound(env, g.w, s1.tunnels[r].id, s1.tunnels[r].hooks, 0);
        var h := RemoveHooks(env, g.w, s1.tunnels[r].id, s1.tunnels[r].hooks, 0);
        HooksChanged(cfg, s1, r, h);
        if h.ok {
          Forgotten(cfg, SetHooks(s1, r, h), r);
          FreedSlot(cfg, SetHooks(s1, r, h), r);
        }
      }
    }
  }

  lemma DropsOf(cfg: Config, s: State)
    requires Core(cfg, s) && !s.cleanupPending
    ensures DropsAtEnd(s.w.k)
  {
    hide Tables, Indexed, Hooks, Links, AllFenced, Admitted, InExact, OutExact, RulesOwned, IdleEmpty;
    NormalFormDrops(s.w.k);
  }

  lemma SetupSound(env: Env, cfg: Config, s: State, r: Ip)
    requires env.Valid() && Core(cfg, s) && !s.cleanupPending && r in s.tunnels && !s.tunnels[r].ready
    requires s.tunnels[r].id in s.w.k.devs && NoPorts(s.w.k, s.tunnels[r].id) && s.tunnels[r].hooks == {}
    ensures var c := Setup(env, cfg, s, r);
      && Core(cfg, c.s) && Kept(s, c.s, r) && c.errno == Other
      && (c.ok ==> r in c.s.tunnels && c.s.tunnels[r].ready && c.s.tunnels[r].macs == s.tunnels[r].macs)
  {
    hide Tables, Indexed, Hooks, Links, RulesExact, AllFenced, Admitted, Fenced, JumpsMatch, Leaked,
      SameElsewhere, Del, SetupPorts;
    var id := s.tunnels[r].id;
    CoreFenced(cfg, s);
    HooksOf(s, r);
    InstallHooksSound(env, s.w, id, {}, 0);
    var h := InstallHooks(env, s.w, id, {}, 0);
    var s1 := SetHooks(s, r, h);
    HooksChanged(cfg, s, r, h);
    if !h.ok {
      DelSound(env, cfg, s1, r);
    } else {
      SetupPortsSound(env, cfg, s1, r);
    }
  }

  lemma SetupPortsSound(env: Env, cfg: Config, s: State, r: Ip)
    requires env.Valid() && Core(cfg, s) && !s.cleanupPending && r in s.tunnels && !s.tunnels[r].ready
    requires s.tunnels[r].id in s.w.k.devs && s.tunnels[r].hooks == ALL_HOOKS
    ensures var c := SetupPorts(env, cfg, s, r);
      && Core(cfg, c.s) && Kept(s, c.s, r) && c.errno == Other
      && (c.ok ==> r in c.s.tunnels && c.s.tunnels[r].ready && c.s.tunnels[r].macs == s.tunnels[r].macs)
  {
    hide Tables, Indexed, Hooks, Links, RulesExact, AllFenced, Admitted, Fenced, JumpsMatch, Leaked,
      OnBridges, Del, PortsNested;
    var id := s.tunnels[r].id;
    CoreFenced(cfg, s);
    HooksOf(s, r);
    DropsOf(cfg, s);
    NestedOf(cfg, s);
    AttachPortsSound(env, s.w, id, cfg.bridges);
    var p := AttachPorts(env, s.w, id, cfg.bridges);
    PortsChanged(cfg, s, r, p.w);
    if p.ok {
      Enabled(cfg, s.(w := p.w), r);
    } else {
      DelSound(env, cfg, s.(w := p.w), r);
    }
  }

  lemma NestedOf(cfg: Config, s: State)
    requires Links(cfg, s)
    ensures PortsNested(s.w.k)
  {}

  lemma SlotCount(s: State)
    requires Tables(s)
    ensures |s.slots| == MAX_SLOTS
  {}

  lemma CreateSound(env: Env, cfg: Config, s: State, r: Ip)
    requires env.Valid() && Core(cfg, s) && !s.cleanupPending && r !in s.tunnels && Admitted(cfg, r)
    ensures var c := Create(env, cfg, s, r);
      && Core(cfg, c.s) && Kept(s, c.s, r)
      && (c.ok ==> r in c.s.tunnels && c.s.tunnels[r].ready && c.s.tunnels[r].macs == {})
      && (c.errno == NoSpace <==> NoSlot(s))
      && (c.errno == NoSpace ==> !c.ok && c.s == s)
  {
    hide Tables, Indexed, Hooks, Links, RulesExact, AllFenced, Admitted, Leaked, NoPorts, Setup, Fenced;
    SlotCount(s);
    var id := FirstFree(s.slots, s.w.k, 0);
    if id < |s.slots| {
      CoreFenced(cfg, s);
      var g := Exec(env, s.w, GreAdd(id, Ends(cfg.local, r)));
      DropsOf(cfg, s);
      FenceSame(s.w.k, g.w.k);
      AllFencedExtends(s.w.log, Entry(GreAdd(id, Ends(cfg.local, r)), g.ok, g.w.k));
      if g.ok {
        Tracked(cfg, s, r, id, g.w);
        SetupSound(env, cfg, Track(s, r, id, g.w), r);
      } else {
        CommandFailed(cfg, s, g.w);
      }
    }
  }

  lemma FenceSame(k: Kernel, k': Kernel)
    requires Fenced(k) && k' == k.(devs := k'.devs) && DropsAtEnd(k)
    ensures Fenced(k')
  {
    forall p | p in k'.attached ensures Guarded(k', p.id) {
      assert Guarded(k, p.id);
    }
  }

  /** A failed command leaves only a log entry behind. */
  lemma CommandFailed(cfg: Config, s: State, w: World)
    requires Core(cfg, s) && w.k == s.w.k && Leaked(w.log) == Leaked(s.w.log) && AllFenced(w.log)
    ensures Core(cfg, s.(w := w))
  {
    hide Tables, Indexed, Hooks, Links, RulesExact, AllFenced, Admitted, Leaked;
    var s' := s.(w := w);
    TablesCarry(s, s');
    IndexedCarry(s, s');
    JumpsCarry(s, s');
    LinksSame(cfg, s, w);
    if !s.cleanupPending {
      RulesCarry(s, s');
    }
  }

  lemma AddSound(env: Env, cfg: Config, s: State, r: Ip)
    requires env.Valid() && Core(cfg, s) && !s.cleanupPending && Admitted(cfg, r)
    ensures var c := Add(env, cfg, s, r);
      && Core(cfg, c.s) && Kept(s, c.s, r)
      && (c.ok ==> r in c.s.tunnels && c.s.tunnels[r].ready)
      && (r in s.tunnels && s.tunnels[r].ready ==> c.s == s)
      && (c.errno == NoSpace <==> r !in s.tunnels && NoSlot(s))
      && (c.errno == NoSpace ==> !c.ok && c.s == s)
      && (c.ok && !(r in s.tunnels && s.tunnels[r].ready) ==> c.s.tunnels[r].macs == {})
  {
    hide Core, Admitted, Create, Del, NoSlot;
    if !(r in s.tunnels && s.tunnels[r].ready) {
      DelSound(env, cfg, s, r);
      var d := Del(env, s, r);
      if r !in d.s.tunnels {
        CreateSound(env, cfg, d.s, r);
      }
    }
  }

  lemma AllowMacSound(env: Env, cfg: Config, s: State, r: Ip, m: Mac)
    requires Core(cfg, s) && !s.cleanupPending && r in s.tunnels
    ensures var c := AllowMac(env, s, r, m);
      && Core(cfg, c.s) && !c.s.cleanupPending && c.s.retryAfter == s.retryAfter
      && (c.ok ==> r in c.s.tunnels && m in c.s.tunnels[r].macs)
      && (!c.ok ==> c.s == s.(w := c.s.w))
      && (c.errno == NoSpace <==>
            s.tunnels[r].ready && m !in s.tunnels[r].macs && |s.tunnels[r].macs| >= MAX_CLIENTS)
      && (c.errno == NoSpace ==> !c.ok && c.s == s)
      && (forall x :: x in s.macIndex ==> x in c.s.macIndex && c.s.macIndex[x] == s.macIndex[x])
  {
    hide Tables, Indexed, Hooks, Links, RulesExact, AllFenced, Admitted, Fenced, Leaked, AllowRules;
    var t := s.tunnels[r];
    if t.ready && m !in t.macs && |t.macs| < MAX_CLIENTS && m !in s.macIndex {
      CoreFenced(cfg, s);
      AllowRulesSound(env, s.w, t.id, m);
      var d := AllowRules(env, s.w, t.id, m);
      if d.ok {
        Owned1(cfg, s, r, m, d.w);
      } else if d.w.k.inChain == s.w.k.inChain {
        CommandFailed(cfg, s, d.w);
      } else {
        Leaked1(cfg, s, r, m, d.w);
      }
    }
  }

  lemma NotAClient(s: State, r: Ip, m: Mac)
    requires Indexed(s) && r in s.tunnels && m !in s.macIndex
    ensures m !in s.tunnels[r].macs
  {}

  lemma Owned1(cfg: Config, s: State, r: Ip, m: Mac, w: World)
    requires Core(cfg, s) && !s.cleanupPending && r in s.tunnels && s.tunnels[r].ready
    requires |s.tunnels[r].macs| < MAX_CLIENTS && m !in s.macIndex
    requires ChainFrame(s.w, w) && AllFenced(w.log) && Leaked(w.log) == Leaked(s.w.log)
    requires w.k.inChain == [Accept(s.tunnels[r].id, m)] + s.w.k.inChain
    requires w.k.outChain == [Accept(s.tunnels[r].id, m)] + s.w.k.outChain
    ensures Core(cfg, Own(s, r, m, w))
  {
    hide Tables, Indexed, Hooks, Links, RulesExact, AllFenced, Admitted, Leaked;
    OwnTables(s, r, m, w);
    OwnIndex(s, r, m, w);
    NotAClient(s, r, m);
    LinksUnderRules(cfg, s, Own(s, r, m, w));
    OwnRules(s, r, m, w);
  }

  lemma Leaked1(cfg: Config, s: State, r: Ip, m: Mac, w: World)
    requires Core(cfg, s) && !s.cleanupPending && r in s.tunnels && s.tunnels[r].ready
    requires ChainFrame(s.w, w) && AllFenced(w.log)
    requires Leaked(w.log) == Leaked(s.w.log) + {(s.tunnels[r].id, m)}
    requires w.k.inChain == [Accept(s.tunnels[r].id, m)] + s.w.k.inChain
    requires w.k.outChain == s.w.k.outChain
    ensures Core(cfg, s.(w := w))
  {
    hide Tables, Indexed, Hooks, Links, RulesExact, AllFenced, Admitted, Leaked;
    TablesCarry(s, s.(w := w));
    IndexedCarry(s, s.(w := w));
    LinksUnderRules(cfg, s, s.(w := w));
    LeakRules(s, r, m, w);
  }

  /** Clients keep their owner. */
  ghost predicate OwnersKept(s: State, s': State) {
    forall m :: m in s.macIndex ==> m in s'.macIndex && s'.macIndex[m] == s.macIndex[m]
  }

  lemma LearnSound(env: Env, cfg: Config, s: State, p: Packet)
    requires env.Valid() && Core(cfg, s) && !s.cleanupPending && Admitted(cfg, p.remote)
    ensures var c := Learn(env, cfg, s, p);
      && Core(cfg, c.s) && !c.s.cleanupPending && c.s.retryAfter == s.retryAfter
      && OwnersKept(s, c.s)
      && (c.ok ==> p.remote in c.s.tunnels && p.mac in c.s.tunnels[p.remote].macs)
  {
    hide Core, Admitted, Add, AllowMac;
    AddSound(env, cfg, s, p.remote);
    var a := if p.remote in s.tunnels && s.tunnels[p.remote].ready then Called(s, true, Other)
             else Add(env, cfg, s, p.remote);
    if a.ok {
      AllowMacSound(env, cfg, a.s, p.remote, p.mac);
    }
  }

  lemma BackoffIrrelevant(cfg: Config, s: State, t: int)
    requires Core(cfg, s)
    ensures Core(cfg, s.(retryAfter := t))
  {
    hide Tables, Indexed, Hooks, Links, RulesExact, AllFenced, Admitted, Leaked;
    var s' := s.(retryAfter := t);
    TablesCarry(s, s');
    IndexedCarry(s, s');
    JumpsCarry(s, s');
    LinksUnderRules(cfg, s, s');
    if !s.cleanupPending {
      RulesCarry(s, s');
    }
  }

  lemma PacketSound(env: Env, cfg: Config, s: State, p: Packet, now: int)
    requires env.Valid() && Inv(cfg, s)
    ensures var h := HandlePacket(env, cfg, s, p, now);
      && Inv(cfg, h.s) && OwnersKept(s, h.s) && h.s.cleanupPending == s.cleanupPending
      && (h.verdict == Learned ==> p.remote in h.s.tunnels && p.mac in h.s.tunnels[p.remote].macs)
      && (h.verdict != Failed ==> h.s.retryAfter == s.retryAfter)
  {
    hide Core, Admitted, Learn;
    if Eligible(cfg, s, p, now) {
      LearnSound(env, cfg, s, p);
      var c := Learn(env, cfg, s, p);
      BackoffIrrelevant(cfg, c.s, now + USEC_PER_SEC);
    }
  }

  // ---- full cleanup ----

  /** Nothing of the tunnel is left in the kernel. */
  ghost predicate Down(s: State, r: Ip)
    requires r in s.tunnels
  {
    !s.tunnels[r].ready && s.tunnels[r].hooks == {} && s.tunnels[r].id !in s.w.k.devs
  }

  /** The records named in touched were taken out of service; the tables stay. */
  ghost predicate Quieted(s: State, s': State, touched: seq<Ip>) {
    && s'.macIndex == s.macIndex && s'.slots == s.slots && s'.retryAfter == s.retryAfter
    && s'.cleanupPending && s'.tunnels.Keys == s.tunnels.Keys
    && s'.w.k.devs.Keys <= s.w.k.devs.Keys
    && (forall r :: r in s.tunnels && r in touched ==> !s'.tunnels[r].ready)
    && (forall r :: r in s.tunnels && r !in touched ==> s'.tunnels[r] == s.tunnels[r])
    && (forall r :: r in s.tunnels ==> s'.tunnels[r].id == s.tunnels[r].id && s'.tunnels[r].macs == s.tunnels[r].macs)
  }

  lemma TakeDownOneSound(env: Env, cfg: Config, s: State, r: Ip)
    requires Core(cfg, s) && s.cleanupPending && r in s.tunnels
    ensures var c := TakeDownOne(env, s, r);
      && Core(cfg, c.s) && Quieted(s, c.s, [r])
      && (c.ok ==> Down(c.s, r))
  {
    hide Tables, Indexed, Hooks, Links, RulesExact, AllFenced, Admitted, Fenced, NoPorts, JumpsMatch, Leaked,
      RemoveHooks, SameElsewhere;
    var s0 := Enable(s, r, false);
    Disabled(cfg, s, r);
    GreDeleted(env, cfg, s0, r);
    var (g, e) := DeleteGre(env, s.w, s.tunnels[r].id);
    if g.ok || e == NoDev {
      var s1 := s0.(w := g.w);
      HooksOf(s1, r);
      RemoveHooksSound(env, g.w, s1.tunnels[r].id, s1.tunnels[r].hooks, 0);
      HooksChanged(cfg, s1, r, RemoveHooks(env, g.w, s1.tunnels[r].id, s1.tunnels[r].hooks, 0));
    }
  }

  lemma {:induction false} TakeDownSound(env: Env, cfg: Config, s: State, order: seq<Ip>)
    requires Core(cfg, s) && s.cleanupPending
    requires forall i :: 0 <= i < |order| ==> order[i] in s.tunnels
    requires forall i, j :: 0 <= i < j < |order| ==> order[i] != order[j]
    ensures var c := TakeDown(env, s, order);
      && Core(cfg, c.s) && Quieted(s, c.s, order)
      && (c.ok ==> forall r :: r in order ==> Down(c.s, r))
    decreases |order|
  {
    hide Core, TakeDownOne;
    if order != [] {
      TakeDownOneSound(env, cfg, s, order[0]);
      var one := TakeDownOne(env, s, order[0]);
      TakeDownSound(env, cfg, one.s, order[1..]);
      assert order[0] !in order[1..];
      assert forall r :: r in order <==> r == order[0] || r in order[1..];
    }
  }

  lemma NothingLeft(cfg: Config, s: State)
    requires Tables(s) && Hooks(s) && Links(cfg, s)
    requires forall r :: r in s.tunnels ==> Down(s, r)
    ensures s.w.k.devs == map[] && s.w.k.vlans == {} && s.w.k.attached == map[] && s.w.k.jumps == multiset{}
  {
    var k := s.w.k;
    forall i ensures i !in k.devs {
      if 0 <= i && Owned(s.tunnels, i) {
        var r :| r in s.tunnels && s.tunnels[r].id == i;
        assert Down(s, r);
      } else {
        assert i in k.devs ==> UsedSlot(s, i);
      }
    }
    forall j: Jump ensures k.jumps[j] == 0 {
      if Owned(s.tunnels, j.id) {
        var r :| r in s.tunnels && s.tunnels[r].id == j.id;
        assert Down(s, r) && j == Jump(s.tunnels[r].id, j.hook);
      } else {
        assert j in k.jumps ==> UsedSlot(s, j.id);
      }
    }
    assert k.jumps == multiset{};
  }

  lemma EmptyCore(cfg: Config, w: World)
    requires w.k == Kernel(w.k.foreign, map[], {}, map[], multiset{}, [Drop], [Multicast, Drop])
    requires Leaked(w.log) == {} && AllFenced(w.log)
    ensures Inv(cfg, State(map[], map[], seq(MAX_SLOTS, _ => false), 0, false, w))
  {}

  /** What a cleanup that reported success has left behind. */
  ghost predicate Clean(s: State) {
    && s.tunnels == map[] && s.macIndex == map[] && (forall i :: 0 <= i < |s.slots| ==> !s.slots[i])
    && s.retryAfter == 0
    && s.w.k.devs == map[] && s.w.k.vlans == {} && s.w.k.attached == map[] && s.w.k.jumps == multiset{}
    && s.w.k.inChain == IN_DEFAULTS && s.w.k.outChain == OUT_DEFAULTS
    && Leaked(s.w.log) == {}
  }

  lemma DelAllSound(env: Env, cfg: Config, s: State)
    requires env.Valid() && Inv(cfg, s)
    ensures var s' := DelAll(env, s);
      && Inv(cfg, s')
      && (!s'.cleanupPending ==> Clean(s'))
      && (s'.cleanupPending ==> s'.macIndex == s.macIndex && s'.retryAfter == s.retryAfter)
  {
    hide Tables, Indexed, Hooks, Links, RulesExact, AllFenced, Admitted, Leaked, TakeDown, ResetChains, Down;
    var s0 := s.(cleanupPending := true);
    CleanupBegins(cfg, s);
    var order := env.tunnelOrder(|s.w.log|, s.tunnels.Keys);
    assert Enumerates(order, s.tunnels.Keys);
    TakeDownSound(env, cfg, s0, order);
    var c := TakeDown(env, s0, order);
    assert forall r :: r in c.s.tunnels ==> r in order && !c.s.tunnels[r].ready;
    if c.ok {
      NothingLeft(cfg, c.s);
      ResetChainsSound(env, c.s.w);
      var d := ResetChains(env, c.s.w);
      if d.ok {
        EmptyCore(cfg, d.w);
      } else {
        var s1 := c.s.(w := d.w);
        TablesCarry(c.s, s1);
        IndexedCarry(c.s, s1);
        LinksUnderRules(cfg, c.s, s1);
      }
    }
  }

  lemma CleanupBegins(cfg: Config, s: State)
    requires Core(cfg, s)
    ensures Core(cfg, s.(cleanupPending := true))
  {
    hide Tables, Indexed, Hooks, Links, RulesExact, AllFenced, Admitted, Leaked;
    TablesSame(s);
    IndexedSame(s);
    LinksUnderRules(cfg, s, s.(cleanupPending := true));
  }

  lemma TablesSame(s: State)
    requires Tables(s)
    ensures Tables(s.(cleanupPending := true))
  {}

  lemma IndexedSame(s: State)
    requires Indexed(s)
    ensures Indexed(s.(cleanupPending := true))
  {}
}
