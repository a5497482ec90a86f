/** The invariant of the provisioning state machine and its preservation by every call. */
module ProvisionInvariant {
  import opened Types
  import opened Kernel
  import opened Firewall
  import opened Provision

  ghost predicate Owned(tunnels: map<Ip, Tunnel>, id: nat) {
    exists r :: r in tunnels && tunnels[r].id == id
  }

  /** Every record is keyed by its remote and holds a slot of its own. */
  ghost predicate Records(s: State)
    requires |s.slots| == MAX_SLOTS
  {
    forall r :: r in s.tunnels ==>
      var t := s.tunnels[r];
      t.remote == r && t.id < MAX_SLOTS && s.slots[t.id] && |t.macs| <= MAX_CLIENTS
  }

  ghost predicate DistinctIds(tunnels: map<Ip, Tunnel>) {
    forall r, q :: r in tunnels && q in tunnels && tunnels[r].id == tunnels[q].id ==> r == q
  }

  ghost predicate SlotsOwned(s: State)
    requires |s.slots| == MAX_SLOTS
  {
    forall i :: 0 <= i < MAX_SLOTS && s.slots[i] ==> Owned(s.tunnels, i)
  }

  /** Records and slots agree. */
  ghost predicate Tables(s: State) {
    |s.slots| == MAX_SLOTS && Records(s) && DistinctIds(s.tunnels) && SlotsOwned(s)
  }

  /** The client index is the inverse of the per-tunnel client sets. */
  ghost predicate Indexed(s: State) {
    && (forall m :: m in s.macIndex ==>
          s.macIndex[m] in s.tunnels && m in s.tunnels[s.macIndex[m]].macs)
    && (forall r, m :: r in s.tunnels && m in s.tunnels[r].macs ==> m in s.macIndex && s.macIndex[m] == r)
  }

  ghost predicate UsedSlot(s: State, id: nat) { id < |s.slots| && s.slots[id] }

  /** Every jump is recorded and every recorded bit is a jump. */
  ghost predicate Hooks(s: State) {
    && (forall r :: r in s.tunnels ==>
          s.tunnels[r].hooks <= ALL_HOOKS && JumpsMatch(s.w.k.jumps, s.tunnels[r].id, s.tunnels[r].hooks))
    && (forall j :: j in s.w.k.jumps ==> UsedSlot(s, j.id))
  }

  /** Interfaces belong to records, and only fully hooked tunnels have bridge ports. */
  ghost predicate Links(cfg: Config, s: State) {
    var k := s.w.k;
    && (forall i :: i in k.devs ==> UsedSlot(s, i))
    && (forall r :: r in s.tunnels ==> s.tunnels[r].id !in k.foreign)
    && (forall r :: r in s.tunnels && s.tunnels[r].id in k.devs ==> k.devs[s.tunnels[r].id] == Ends(cfg.local, r))
    && PortsNested(k)
    && (forall r, p :: r in s.tunnels && p in k.attached && p.id == s.tunnels[r].id ==>
          s.tunnels[r].hooks == ALL_HOOKS)
    && (forall r :: r in s.tunnels && s.tunnels[r].ready ==>
          && s.tunnels[r].id in k.devs
          && s.tunnels[r].hooks == ALL_HOOKS
          && OnBridges(k, s.tunnels[r].id, cfg.bridges))
  }

  /** A chain of accept rules followed by its default rules. */
  ghost predicate NormalForm(rules: seq<Rule>, defaults: seq<Rule>) {
    && |defaults| <= |rules|
    && rules[|rules| - |defaults|..] == defaults
    && (forall i :: 0 <= i < |rules| - |defaults| ==> rules[i].Accept?)
  }

  const IN_DEFAULTS := [Drop]
  const OUT_DEFAULTS := [Multicast, Drop]

  /** On each tunnel the ingress chain accepts its clients and what failed undos left behind. */
  ghost predicate InExact(tunnels: map<Ip, Tunnel>, rules: seq<Rule>, leaked: set<(nat, Mac)>) {
    forall r, m :: r in tunnels ==>
      (Accept(tunnels[r].id, m) in rules <==> m in tunnels[r].macs || (tunnels[r].id, m) in leaked)
  }

  ghost predicate OutExact(tunnels: map<Ip, Tunnel>, rules: seq<Rule>) {
    forall r, m :: r in tunnels ==> (Accept(tunnels[r].id, m) in rules <==> m in tunnels[r].macs)
  }

  /** No accept rule stands twice in a chain, except where a failed undo left one behind. */
  ghost predicate Once(rules: seq<Rule>, leaked: set<(nat, Mac)>) {
    forall i: nat, m :: (i, m) !in leaked ==> multiset(rules)[Accept(i, m)] <= 1
  }

  /** No accept rule names a tunnel that does not exist. */
  ghost predicate RulesOwned(s: State) {
    forall i: nat, m ::
      Accept(i, m) in s.w.k.inChain || Accept(i, m) in s.w.k.outChain || (i, m) in Leaked(s.w.log) ==>
        UsedSlot(s, i)
  }

  /** A tunnel that never reached service has no clients. */
  ghost predicate IdleEmpty(tunnels: map<Ip, Tunnel>, leaked: set<(nat, Mac)>) {
    forall r :: r in tunnels && !tunnels[r].ready ==>
      tunnels[r].macs == {} && forall m :: (tunnels[r].id, m) !in leaked
  }

  /** While nothing awaits cleanup, the chains hold the learned clients and nothing else. */
  ghost predicate RulesExact(s: State) {
    var k, leaked := s.w.k, Leaked(s.w.log);
    && NormalForm(k.inChain, IN_DEFAULTS)
    && NormalForm(k.outChain, OUT_DEFAULTS)
    && InExact(s.tunnels, k.inChain, leaked)
    && OutExact(s.tunnels, k.outChain)
    && Once(k.inChain, leaked) && Once(k.outChain, {})
    && RulesOwned(s)
    && IdleEmpty(s.tunnels, leaked)
  }

  ghost predicate DropsAtEnd(k: Kernel) { EndsInDrop(k.inChain) && EndsInDrop(k.outChain) }

  /** What holds throughout a full cleanup as well. */
  ghost predicate Core(cfg: Config, s: State) {
    && Tables(s)
    && Indexed(s)
    && Hooks(s)
    && Links(cfg, s)
    && (s.w.k.devs != map[] ==> DropsAtEnd(s.w.k))
    && (!s.cleanupPending ==> RulesExact(s))
    && AllFenced(s.w.log)
    && (forall r :: r in s.tunnels ==> Admitted(cfg, r))
  }

  ghost predicate Inv(cfg: Config, s: State) {
    && Core(cfg, s)
    && (s.cleanupPending ==> forall r :: r in s.tunnels ==> !s.tunnels[r].ready)
  }

  lemma CoreFenced(cfg: Config, s: State)
    requires Tables(s) && Hooks(s) && Links(cfg, s)
    requires s.w.k.devs != map[] ==> DropsAtEnd(s.w.k)
    ensures Fenced(s.w.k)
  {
    var k := s.w.k;
    forall p | p in k.attached ensures Guarded(k, p.id) {
      assert p in k.vlans && p.id in k.devs;
      assert UsedSlot(s, p.id);
      var r :| r in s.tunnels && s.tunnels[r].id == p.id;
      FullyHookedIsGuarded(k, p.id);
    }
  }

  /** The same records with the same clients; only hook bits may differ. */
  ghost predicate SameClients(s: State, s': State) {
    && s'.tunnels.Keys == s.tunnels.Keys
    && s'.slots == s.slots && s'.macIndex == s.macIndex && s'.cleanupPending == s.cleanupPending
    && (forall r :: r in s.tunnels ==>
          && s'.tunnels[r].remote == s.tunnels[r].remote && s'.tunnels[r].id == s.tunnels[r].id
          && s'.tunnels[r].ready == s.tunnels[r].ready && s'.tunnels[r].macs == s.tunnels[r].macs)
  }

  ghost predicate SameRules(w: World, w': World) {
    && w'.k.inChain == w.k.inChain && w'.k.outChain == w.k.outChain
    && Leaked(w'.log) == Leaked(w.log)
  }

  lemma SlotsCarry(s: State, s': State)
    requires |s.slots| == MAX_SLOTS && SlotsOwned(s) && s'.slots == s.slots && s.tunnels.Keys <= s'.tunnels.Keys
    requires forall r :: r in s.tunnels ==> s'.tunnels[r].id == s.tunnels[r].id
    ensures SlotsOwned(s')
  {
    forall i | 0 <= i < MAX_SLOTS && s'.slots[i] ensures Owned(s'.tunnels, i) {
      var r :| r in s.tunnels && s.tunnels[r].id == i;
      assert r in s'.tunnels && s'.tunnels[r].id == i;
    }
  }

  lemma TablesCarry(s: State, s': State)
    requires Tables(s) && SameClients(s, s')
    ensures Tables(s')
  {
    hide SlotsOwned;
    SlotsCarry(s, s');
  }

  lemma DistinctUpdate(tunnels: map<Ip, Tunnel>, r: Ip, t: Tunnel)
    requires DistinctIds(tunnels) && r in tunnels && t.id == tunnels[r].id
    ensures DistinctIds(tunnels[r := t])
  {}

  /** A record changed, but not its identity. */
  lemma TablesUpdate(s: State, r: Ip, t: Tunnel, s': State)
    requires Tables(s) && r in s.tunnels && s'.tunnels == s.tunnels[r := t] && s'.slots == s.slots
    requires t.id == s.tunnels[r].id && t.remote == s.tunnels[r].remote && |t.macs| <= MAX_CLIENTS
    ensures Tables(s')
  {
    hide SlotsOwned, DistinctIds;
    SlotsCarry(s, s');
    DistinctUpdate(s.tunnels, r, t);
  }

  lemma IndexedCarry(s: State, s': State)
    requires Indexed(s) && SameClients(s, s')
    ensures Indexed(s')
  {}

  lemma RulesCarry(s: State, s': State)
    requires RulesExact(s) && SameClients(s, s') && SameRules(s.w, s'.w)
    ensures RulesExact(s')
  {
    var k, leaked := s.w.k, Leaked(s.w.log);
    forall i: nat, m | Accept(i, m) in k.inChain || Accept(i, m) in k.outChain || (i, m) in leaked
      ensures UsedSlot(s', i)
    {
      assert UsedSlot(s, i);
    }
  }

  lemma HooksCarry(s: State, r: Ip, h: Hooked)
    requires Tables(s) && Hooks(s) && r in s.tunnels
    requires HookFrame(s.w, h, s.tunnels[r].id)
    ensures Hooks(SetHooks(s, r, h))
  {
    var s' := SetHooks(s, r, h);
    forall q | q in s'.tunnels
      ensures s'.tunnels[q].hooks <= ALL_HOOKS
      ensures JumpsMatch(s'.w.k.jumps, s'.tunnels[q].id, s'.tunnels[q].hooks)
    {
      if q != r {
        assert s.tunnels[q].id != s.tunnels[r].id;
      }
    }
    forall j | j in s'.w.k.jumps ensures UsedSlot(s', j.id) {
      if j.id != s.tunnels[r].id {
        assert j in s.w.k.jumps;
      }
    }
  }

  lemma LinksCarry(cfg: Config, s: State, r: Ip, h: Hooked)
    requires Tables(s) && Links(cfg, s) && r in s.tunnels && !s.tunnels[r].ready
    requires HookFrame(s.w, h, s.tunnels[r].id)
    requires h.hooks == ALL_HOOKS || NoPorts(s.w.k, s.tunnels[r].id)
    ensures Links(cfg, SetHooks(s, r, h))
  {
    var s' := SetHooks(s, r, h);
    forall i | i in s'.w.k.devs ensures UsedSlot(s', i) {
      assert UsedSlot(s, i);
    }
  }

  /** The jumps of one tunnel changed, and none is missing in front of a port. */
  lemma HooksChanged(cfg: Config, s: State, r: Ip, h: Hooked)
    requires Core(cfg, s) && r in s.tunnels && !s.tunnels[r].ready
    requires HookFrame(s.w, h, s.tunnels[r].id)
    requires h.hooks == ALL_HOOKS || NoPorts(s.w.k, s.tunnels[r].id)
    ensures Core(cfg, SetHooks(s, r, h))
  {
    hide Tables, Indexed, Hooks, Links, RulesExact, AllFenced, Admitted, NoPorts, JumpsMatch;
    var s' := SetHooks(s, r, h);
    TablesCarry(s, s');
    IndexedCarry(s, s');
    HooksCarry(s, r, h);
    LinksCarry(cfg, s, r, h);
    if !s.cleanupPending {
      RulesCarry(s, s');
    }
  }

  lemma LinksGain(cfg: Config, s: State, r: Ip, w: World)
    requires Tables(s) && Links(cfg, s) && r in s.tunnels && s.tunnels[r].hooks == ALL_HOOKS
    requires PortFrame(s.w, w, s.tunnels[r].id)
    ensures Links(cfg, s.(w := w))
  {
    var s' := s.(w := w);
    forall i | i in w.k.devs ensures UsedSlot(s', i) {
      assert UsedSlot(s, i);
    }
    forall q, p | q in s'.tunnels && p in w.k.attached && p.id == s'.tunnels[q].id
      ensures s'.tunnels[q].hooks == ALL_HOOKS
    {
      if p !in s.w.k.attached {
        assert q == r;
      }
    }
  }

  /** Ports were added to a fully hooked tunnel. */
  lemma PortsChanged(cfg: Config, s: State, r: Ip, w: World)
    requires Core(cfg, s) && r in s.tunnels && s.tunnels[r].hooks == ALL_HOOKS
    requires PortFrame(s.w, w, s.tunnels[r].id)
    ensures Core(cfg, s.(w := w))
  {
    hide Tables, Indexed, Links, RulesExact, AllFenced, Admitted, JumpsMatch;
    var s' := s.(w := w);
    TablesCarry(s, s');
    IndexedCarry(s, s');
    LinksGain(cfg, s, r, w);
    JumpsCarry(s, s');
    if !s.cleanupPending {
      RulesCarry(s, s');
    }
  }

  /** Nothing happened to the jumps or the records. */
  lemma JumpsCarry(s: State, s': State)
    requires Hooks(s) && s'.w.k.jumps == s.w.k.jumps && s'.tunnels == s.tunnels && s'.slots == s.slots
    ensures Hooks(s')
  {
    forall j | j in s'.w.k.jumps ensures UsedSlot(s', j.id) {
      assert UsedSlot(s, j.id);
    }
  }

  lemma LinksLose(cfg: Config, s: State, r: Ip, w: World)
    requires Tables(s) && Links(cfg, s) && r in s.tunnels && !s.tunnels[r].ready
    requires Apply(s.w.k, GreDel(s.tunnels[r].id)) == Some(w.k)
    ensures Links(cfg, s.(w := w))
  {
    var s', k := s.(w := w), w.k;
    forall i | i in k.devs ensures UsedSlot(s', i) {
      assert UsedSlot(s, i);
    }
    forall q | q in s.tunnels && s.tunnels[q].ready
      ensures s.tunnels[q].id in k.devs && OnBridges(k, s.tunnels[q].id, cfg.bridges)
    {
      assert q != r && s.tunnels[q].id != s.tunnels[r].id;
    }
  }

  /** Deleting the interface of a tunnel that is not in service, whatever its outcome. */
  lemma GreDeleted(env: Env, cfg: Config, s: State, r: Ip)
    requires Core(cfg, s) && r in s.tunnels && !s.tunnels[r].ready
    ensures var (g, e) := DeleteGre(env, s.w, s.tunnels[r].id);
      && Core(cfg, s.(w := g.w))
      && Fenced(g.w.k)
      && g.w.k.jumps == s.w.k.jumps
      && (g.ok || e == NoDev ==> s.tunnels[r].id !in g.w.k.devs && NoPorts(g.w.k, s.tunnels[r].id))
  {
    hide Tables, Indexed, Hooks, Links, RulesExact, AllFenced, Admitted, Guarded;
    var id := s.tunnels[r].id;
    CoreFenced(cfg, s);
    if Named(s.w.k, id) {
      var d := Exec(env, s.w, GreDel(id));
      var s' := s.(w := d.w);
      if d.ok {
        LinksLose(cfg, s, r, d.w);
        FenceLoses(s.w.k, id, d.w.k);
      } else {
        LinksSame(cfg, s, d.w);
      }
      AllFencedExtends(s.w.log, Entry(GreDel(id), d.ok, d.w.k));
      TablesCarry(s, s');
      IndexedCarry(s, s');
      JumpsCarry(s, s');
      if !s.cleanupPending {
        RulesCarry(s, s');
      }
    } else {
      NoDeviceNoPorts(cfg, s, id);
    }
  }

  lemma FenceLoses(k: Kernel, id: nat, k': Kernel)
    requires Fenced(k) && Apply(k, GreDel(id)) == Some(k')
    ensures Fenced(k')
  {
    forall p | p in k'.attached ensures Guarded(k', p.id) {
      assert Guarded(k, p.id);
    }
  }

  lemma LinksSame(cfg: Config, s: State, w: World)
    requires Links(cfg, s) && w.k == s.w.k
    ensures Links(cfg, s.(w := w))
  {
    forall i | i in w.k.devs ensures UsedSlot(s.(w := w), i) {
      assert UsedSlot(s, i);
    }
  }

  lemma NoDeviceNoPorts(cfg: Config, s: State, id: nat)
    requires Links(cfg, s) && id !in s.w.k.devs
    ensures NoPorts(s.w.k, id)
  {}
}
