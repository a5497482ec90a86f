/** When the kernel cooperates, an eligible packet really is provisioned and learned. */
module ProvisionProgress {
  import opened Types
  import opened Kernel
  import opened Firewall
  import opened Provision
  import opened ProvisionInvariant
  import opened ProvisionCalls
  import opened ProvisionTheorems

  /** Nothing fails from command n on, up to but not including command m. */
  ghost predicate Cooperates(env: Env, n: nat, m: nat) {
    && (forall k: nat :: n <= k < m ==> env.succeeds(k))
    && (forall k: nat, b: string :: n <= k < m ==> env.bridgeUp(k, b))
  }

  ghost predicate DistinctVlans(bridges: seq<Bridge>) {
    forall i, j :: 0 <= i < j < |bridges| ==> bridges[i].vlan != bridges[j].vlan
  }

  lemma {:induction false} InstallHooksCompletes(env: Env, w: World, id: nat, i: nat)
    requires i <= HOOKS && Cooperates(env, |w.log|, |w.log| + HOOKS - i)
    ensures var r := InstallHooks(env, w, id, Below(i), i); r.ok && |r.w.log| == |w.log| + HOOKS - i
    decreases HOOKS - i
  {
    hide Leaked;
    if i < HOOKS {
      assert Below(i) + {i} == Below(i + 1);
      InstallHooksCompletes(env, Exec(env, w, JumpAdd(Jump(id, i))).w, id, i + 1);
    }
  }

  /** The hooks installed when the loop stands at i. */
  ghost function Below(i: nat): (hooks: set<nat>)
    ensures i !in hooks && forall h :: h in hooks ==> h < i
  {
    if i == 0 then {} else Below(i - 1) + {i - 1}
  }

  lemma {:induction false} AttachPortsCompletes(env: Env, w: World, id: nat, bridges: seq<Bridge>)
    requires Cooperates(env, |w.log|, |w.log| + 2 * |bridges|) && DistinctVlans(bridges) && id in w.k.devs
    requires forall b :: b in bridges ==> Port(id, b.vlan) !in w.k.vlans
    ensures var d := AttachPorts(env, w, id, bridges); d.ok && |d.w.log| == |w.log| + 2 * |bridges|
    decreases |bridges|
  {
    hide Leaked;
    if bridges != [] {
      var p := Port(id, bridges[0].vlan);
      assert bridges[0] in bridges;
      var d := Exec(env, w, VlanAdd(p));
      assert d.ok && d.w.k.vlans == w.k.vlans + {p};
      var e := Exec(env, d.w, Enslave(p, bridges[0].ifname));
      assert e.ok && e.w.k.vlans == d.w.k.vlans;
      assert AttachPort(env, w, id, bridges[0]) == e;
      forall b | b in bridges[1..] ensures Port(id, b.vlan) !in e.w.k.vlans {
        assert b in bridges;
      }
      AttachPortsCompletes(env, e.w, id, bridges[1..]);
    }
  }

  lemma DelCompletes(env: Env, cfg: Config, s: State, r: Ip)
    requires env.Valid() && Core(cfg, s) && !s.cleanupPending && Cooperates(env, |s.w.log|, |s.w.log| + 4)
    requires r in s.tunnels && !s.tunnels[r].ready
    ensures var c := Del(env, s, r);
      c.ok && |s.w.log| <= |c.s.w.log| <= |s.w.log| + 4
  {
    hide Indexed, RulesExact, AllFenced, Admitted, Leaked, PortsNested, OnBridges;
    IdleHasNoClients(cfg, s, r);
    var t := s.tunnels[r];
    assert t.id !in s.w.k.foreign;
    var (g, e) := DeleteGre(env, s.w, t.id);
    assert g.ok || e == NoDev;
    NothingToDrop(env, s.(w := g.w), r, |g.w.log|);
    HooksOf(s, r);
    RemoveHooksComplete(env, g.w, t.id, t.hooks, 0);
  }

  /** The commands that create a tunnel: its interface, its jumps, and two for each bridge. */
  function CreateCost(cfg: Config): nat { 1 + HOOKS + 2 * |cfg.bridges| }

  lemma CreateCompletes(env: Env, cfg: Config, s: State, r: Ip)
    requires env.Valid() && Core(cfg, s) && !s.cleanupPending
    requires Cooperates(env, |s.w.log|, |s.w.log| + CreateCost(cfg))
    requires r !in s.tunnels && DistinctVlans(cfg.bridges) && !NoSlot(s)
    ensures var c := Create(env, cfg, s, r); c.ok && |c.s.w.log| == |s.w.log| + CreateCost(cfg)
  {
    hide Indexed, Hooks, RulesExact, AllFenced, Admitted, Leaked, OnBridges, InstallHooks, AttachPorts, Tables;
    SlotCount(s);
    var id := FirstFree(s.slots, s.w.k, 0);
    assert id < |s.slots|;
    var g := Exec(env, s.w, GreAdd(id, Ends(cfg.local, r)));
    assert g.ok;
    assert Below(0) == {};
    InstallHooksCompletes(env, g.w, id, 0);
    var h := InstallHooks(env, g.w, id, {}, 0);
    InstallHooksLinks(env, g.w, id, {}, 0);
    assert forall b :: b in cfg.bridges ==> Port(id, b.vlan) !in s.w.k.vlans;
    AttachPortsCompletes(env, h.w, id, cfg.bridges);
  }

  lemma {:induction false} InstallHooksLinks(env: Env, w: World, id: nat, hooks: set<nat>, i: nat)
    requires i <= HOOKS
    ensures var k := InstallHooks(env, w, id, hooks, i).w.k; k == w.k.(jumps := k.jumps)
    decreases HOOKS - i
  {
    hide Leaked;
    if i < HOOKS {
      var d := Exec(env, w, JumpAdd(Jump(id, i)));
      if i in hooks {
        InstallHooksLinks(env, w, id, hooks, i + 1);
      } else if d.ok {
        InstallHooksLinks(env, d.w, id, hooks + {i}, i + 1);
      }
    }
  }

  /** The commands that put a remote into service, leftovers of a failed attempt included. */
  function AddCost(cfg: Config, s: State, r: Ip): nat {
    if r !in s.tunnels then CreateCost(cfg) else if s.tunnels[r].ready then 0 else 4 + CreateCost(cfg)
  }

  lemma AddCompletes(env: Env, cfg: Config, s: State, r: Ip)
    requires env.Valid() && Core(cfg, s) && !s.cleanupPending
    requires Cooperates(env, |s.w.log|, |s.w.log| + AddCost(cfg, s, r))
    requires Admitted(cfg, r) && DistinctVlans(cfg.bridges)
    requires r in s.tunnels || !NoSlot(s)
    ensures var c := Add(env, cfg, s, r);
      && c.ok && |s.w.log| <= |c.s.w.log| <= |s.w.log| + AddCost(cfg, s, r)
      && (r !in s.tunnels ==> |c.s.w.log| == |s.w.log| + AddCost(cfg, s, r))
  {
    hide Core, Admitted, Create, Cooperates, DistinctVlans, Env.Valid, RemoveHooks, DropMacs, NoSlot;
    if r in s.tunnels && !s.tunnels[r].ready {
      CooperatesWithin(env, |s.w.log|, |s.w.log| + AddCost(cfg, s, r), |s.w.log|, |s.w.log| + 4);
      DelSound(env, cfg, s, r);
      DelCompletes(env, cfg, s, r);
      var d := Del(env, s, r);
      CooperatesWithin(env, |s.w.log|, |s.w.log| + AddCost(cfg, s, r), |d.s.w.log|, |d.s.w.log| + CreateCost(cfg));
      CreateCompletes(env, cfg, d.s, r);
    } else if r !in s.tunnels {
      CreateCompletes(env, cfg, s, r);
    }
  }

  lemma CooperatesWithin(env: Env, n: nat, m: nat, n': nat, m': nat)
    requires Cooperates(env, n, m) && n <= n' && m' <= m
    ensures Cooperates(env, n', m')
  {}

  lemma AllowMacCompletes(env: Env, s: State, r: Ip, m: Mac)
    requires r in s.tunnels && s.tunnels[r].ready && |s.tunnels[r].macs| < MAX_CLIENTS
    requires m !in s.macIndex && m !in s.tunnels[r].macs && Cooperates(env, |s.w.log|, |s.w.log| + 2)
    ensures var c := AllowMac(env, s, r, m);
      && c.ok && |c.s.w.log| == |s.w.log| + 2
      && c.s.macIndex == s.macIndex[m := r]
      && c.s.tunnels == s.tunnels[r := s.tunnels[r].(macs := s.tunnels[r].macs + {m})]
  {
    hide Leaked;
    var id := s.tunnels[r].id;
    var a := Exec(env, s.w, Insert(In, Accept(id, m)));
    assert a.ok && |a.w.log| == |s.w.log| + 1;
    assert Exec(env, a.w, Insert(Out, Accept(id, m))).ok;
  }

  /** An eligible packet is learned whenever there is room for it and none of the commands it
      takes fails. */
  lemma EligibleIsLearned(env: Env, cfg: Config, foreign: set<nat>, events: seq<Event>, s: State, p: Packet, now: int)
    requires Reachable(env, cfg, foreign, events, s)
    requires Eligible(cfg, s, p, now) && DistinctVlans(cfg.bridges)
    requires Cooperates(env, |s.w.log|, |s.w.log| + AddCost(cfg, s, p.remote) + 2)
    requires !NoRoom(s, p.remote)
    ensures var h := HandlePacket(env, cfg, s, p, now);
      h.verdict == Learned && p.mac in h.s.macIndex && h.s.macIndex[p.mac] == p.remote
  {
    hide Run, Boot, Core, Admitted, Add, AllowMac, Cooperates, DistinctVlans, Env.Valid, Mapped, AddCost, CreateCost;
    ReachableSound(env, cfg, foreign, events, s);
    var n := |s.w.log|;
    var m := n + AddCost(cfg, s, p.remote) + 2;
    CooperatesWithin(env, n, m, n, m - 2);
    AddCompletes(env, cfg, s, p.remote);
    AddSound(env, cfg, s, p.remote);
    NoCost(cfg, s, p.remote);
    var a := if p.remote in s.tunnels && s.tunnels[p.remote].ready then Called(s, true, Other)
             else Add(env, cfg, s, p.remote);
    CooperatesWithin(env, n, m, |a.s.w.log|, |a.s.w.log| + 2);
    AllowMacCompletes(env, a.s, p.remote, p.mac);
    PacketSound(env, cfg, s, p, now);
    IndexedMember(cfg, HandlePacket(env, cfg, s, p, now).s, p.remote, p.mac);
  }

  lemma NoCost(cfg: Config, s: State, r: Ip)
    ensures r in s.tunnels && s.tunnels[r].ready ==> AddCost(cfg, s, r) == 0
    ensures r !in s.tunnels ==> AddCost(cfg, s, r) == CreateCost(cfg)
  {}

  /** The first packet of a new remote costs a fixed number of commands. */
  lemma FirstPacketLearned(env: Env, cfg: Config, s: State, p: Packet, now: int)
    requires env.Valid() && Inv(cfg, s) && p.remote !in s.tunnels && !NoSlot(s)
    requires Eligible(cfg, s, p, now) && DistinctVlans(cfg.bridges)
    requires Cooperates(env, |s.w.log|, |s.w.log| + CreateCost(cfg) + 2)
    ensures var s' := HandlePacket(env, cfg, s, p, now).s;
      && |s'.w.log| == |s.w.log| + CreateCost(cfg) + 2
      && s'.macIndex == s.macIndex[p.mac := p.remote] && s'.retryAfter == s.retryAfter
      && p.remote in s'.tunnels && s'.tunnels[p.remote].ready && s'.tunnels[p.remote].macs == {p.mac}
  {
    hide Run, Boot, Core, Admitted, Add, AllowMac, Cooperates, DistinctVlans, Env.Valid, Mapped, AddCost, CreateCost;
    var n := |s.w.log|;
    var m := n + CreateCost(cfg) + 2;
    NoCost(cfg, s, p.remote);
    CooperatesWithin(env, n, m, n, m - 2);
    AddCompletes(env, cfg, s, p.remote);
    AddSound(env, cfg, s, p.remote);
    var a := Add(env, cfg, s, p.remote);
    CooperatesWithin(env, n, m, m - 2, m);
    AllowMacCompletes(env, a.s, p.remote, p.mac);
    PacketSound(env, cfg, s, p, now);
  }

  /** The commands of a start and of the first packet of a new remote. */
  function FirstCost(cfg: Config): nat { 3 + CreateCost(cfg) + 2 }

  lemma BootFresh(env: Env, foreign: set<nat>)
    requires env.succeeds(0) && env.succeeds(1) && env.succeeds(2)
    requires exists id :: 0 <= id < MAX_SLOTS && id !in foreign
    ensures Boot(env, foreign).Some?
    ensures var b := Boot(env, foreign).value;
      && |b.w.log| == 3 && b.tunnels == map[] && b.macIndex == map[] && b.retryAfter == 0 && !b.cleanupPending
      && !NoSlot(b)
  {
    hide Leaked;
    var b := Boot(env, foreign).value;
    var id :| 0 <= id < MAX_SLOTS && id !in foreign;
    assert id < |b.slots| && !b.slots[id] && !Named(b.w.k, id);
  }

  /** The second packet of a remote, whose rules go ok, refused, refused. */
  lemma SecondPacketFails(env: Env, cfg: Config, s: State, q: Packet, now: int)
    requires Eligible(cfg, s, q, now)
    requires q.remote in s.tunnels && s.tunnels[q.remote].ready && |s.tunnels[q.remote].macs| < MAX_CLIENTS
    requires env.succeeds(|s.w.log|) && !env.succeeds(|s.w.log| + 1) && !env.succeeds(|s.w.log| + 2)
    ensures var s' := HandlePacket(env, cfg, s, q, now).s;
      && s'.tunnels == s.tunnels && s'.macIndex == s.macIndex
      && Ingress(s'.w.k, s.tunnels[q.remote].id, q.mac)
  {
    hide Admitted, Mapped, AllowRules, Ingress;
    UndoFails(env, s, q.remote, q.mac);
  }

  /** Without the proviso that every undo worked, the ingress chain does not equal the learned
      relation. The daemon starts and learns a first client of a remote without a failure;
      then the egress rule of a second client and the undo of its ingress rule are refused.
      The run ends with a port that lets in an address nobody has learned. */
  lemma FailedUndoOpensPort(env: Env, cfg: Config, foreign: set<nat>, p: Packet, q: Packet, now: nat)
    requires env.Valid() && (forall n: nat, b: string :: env.bridgeUp(n, b))
    requires forall n: nat :: env.succeeds(n) <==> n != FirstCost(cfg) + 1 && n != FirstCost(cfg) + 2
    requires DistinctVlans(cfg.bridges) && exists id :: 0 <= id < MAX_SLOTS && id !in foreign
    requires p.local == cfg.local && Admitted(cfg, p.remote) && Mapped(cfg, p.vlan)
    requires q.local == p.local && q.remote == p.remote && q.vlan == p.vlan && q.mac != p.mac
    ensures Boot(env, foreign).Some?
    ensures var events := [Captured(p, now), Captured(q, now)];
      var s := Run(env, cfg, Boot(env, foreign).value, events);
      && Reachable(env, cfg, foreign, events, s)
      && q.remote in s.tunnels && s.tunnels[q.remote].ready
      && q.mac !in s.tunnels[q.remote].macs && q.mac !in s.macIndex
      && Ingress(s.w.k, s.tunnels[q.remote].id, q.mac)
  {
    hide Boot, Inv, HandlePacket, Ingress, Admitted, Mapped, Env.Valid, Run, NoSlot, DistinctVlans, CreateCost;
    BootFresh(env, foreign);
    BootSound(env, cfg, foreign);
    var b := Boot(env, foreign).value;
    FirstPacketLearned(env, cfg, b, p, now);
    var s1 := HandlePacket(env, cfg, b, p, now).s;
    PacketSound(env, cfg, b, p, now);
    SecondPacketFails(env, cfg, s1, q, now);
    RunTwo(env, cfg, b, Captured(p, now), Captured(q, now));
  }

  lemma RunTwo(env: Env, cfg: Config, s: State, e: Event, f: Event)
    requires env.Valid()
    ensures Run(env, cfg, s, [e, f]) == Step(env, cfg, Step(env, cfg, s, e), f)
  {
    hide Step, Env.Valid;
    var s1 := Step(env, cfg, s, e);
    assert [e, f][1..] == [f] && [f][1..] == [];
    assert Run(env, cfg, s1, [f]) == Run(env, cfg, Step(env, cfg, s1, f), []);
  }
}
