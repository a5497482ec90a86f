/** A tunnel that cannot be created leaves no trace, as long as its rollback works. */
module ProvisionRollback {
  import opened Types
  import opened Kernel
  import opened Firewall
  import opened Provision
  import opened ProvisionInvariant
  import opened ProvisionCalls

  predicate Deletes(cmd: Command) { cmd.GreDel? || cmd.JumpDel? }

  /** No deletion recorded from position n on has failed. */
  ghost predicate Undone(log: seq<Entry>, n: nat) {
    forall i :: n <= i < |log| && Deletes(log[i].cmd) ==> log[i].ok
  }

  /** The commands between two logs, and whether a deletion among them failed. */
  ghost predicate Led(w: World, w': World, undone: bool) {
    w.log <= w'.log && (Undone(w'.log, |w.log|) <==> undone)
  }

  lemma LedNowhere(w: World)
    ensures Led(w, w, true)
  {}

  lemma LedOn(a: World, b: World, c: World, x: bool, y: bool)
    requires Led(a, b, x) && Led(b, c, y)
    ensures Led(a, c, x && y)
  {
    assert forall i :: 0 <= i < |b.log| ==> c.log[i] == b.log[i];
    if !x {
      var i :| |a.log| <= i < |b.log| && Deletes(b.log[i].cmd) && !b.log[i].ok;
      assert Deletes(c.log[i].cmd) && !c.log[i].ok;
    }
    if !y {
      var i :| |b.log| <= i < |c.log| && Deletes(c.log[i].cmd) && !c.log[i].ok;
      assert Deletes(c.log[i].cmd) && !c.log[i].ok;
    }
  }

  lemma ExecLed(env: Env, w: World, cmd: Command)
    ensures var d := Exec(env, w, cmd); Led(w, d.w, Deletes(cmd) ==> d.ok)
  {
    hide Leaked, Apply;
    var d := Exec(env, w, cmd);
    assert d.w.log[|w.log|] == Entry(cmd, d.ok, d.w.k);
  }

  lemma {:induction false} InstallHooksLed(env: Env, w: World, id: nat, hooks: set<nat>, i: nat)
    requires i <= HOOKS
    ensures Led(w, InstallHooks(env, w, id, hooks, i).w, true)
    decreases HOOKS - i
  {
    hide Led, Exec;
    LedNowhere(w);
    if i < HOOKS {
      var d := Exec(env, w, JumpAdd(Jump(id, i)));
      ExecLed(env, w, JumpAdd(Jump(id, i)));
      if i in hooks {
        InstallHooksLed(env, w, id, hooks, i + 1);
      } else if d.ok {
        InstallHooksLed(env, d.w, id, hooks + {i}, i + 1);
        LedOn(w, d.w, InstallHooks(env, d.w, id, hooks + {i}, i + 1).w, true, true);
      }
    }
  }

  /** No bit below i is left. */
  ghost predicate NoneBelow(hooks: set<nat>, i: nat) { forall h :: h in hooks ==> i <= h }

  lemma NoneBelowNext(hooks: set<nat>, i: nat)
    ensures NoneBelow(hooks - {i}, i + 1) <==> NoneBelow(hooks, i)
    ensures i in hooks ==> !NoneBelow(hooks, i + 1)
    ensures i !in hooks ==> (NoneBelow(hooks, i + 1) <==> NoneBelow(hooks, i))
  {
    forall h | NoneBelow(hooks - {i}, i + 1) && h in hooks ensures i <= h {
      assert h != i ==> h in hooks - {i};
    }
  }

  /** Bits below i belong to jumps that could not be removed. */
  lemma {:induction false} RemoveHooksLed(env: Env, w: World, id: nat, hooks: set<nat>, i: nat)
    requires i <= HOOKS && hooks <= ALL_HOOKS
    ensures var r := RemoveHooks(env, w, id, hooks, i);
      exists undone :: Led(w, r.w, undone) && (r.ok <==> undone && NoneBelow(hooks, i))
    decreases HOOKS - i
  {
    hide Led, Exec, RemoveHooks, NoneBelow;
    RemoveHooksUnfold(env, w, id, hooks, i);
    NoneBelowNext(hooks, i);
    if i == HOOKS {
      LedNowhere(w);
      AllBelow(hooks);
    } else if i in hooks {
      var d := Exec(env, w, JumpDel(Jump(id, i)));
      ExecLed(env, w, JumpDel(Jump(id, i)));
      var later := if d.ok then hooks - {i} else hooks;
      RemoveHooksLed(env, d.w, id, later, i + 1);
      var r := RemoveHooks(env, d.w, id, later, i + 1);
      var undone :| Led(d.w, r.w, undone) && (r.ok <==> undone && NoneBelow(later, i + 1));
      LedOn(w, d.w, r.w, d.ok, undone);
    } else {
      RemoveHooksLed(env, w, id, hooks, i + 1);
    }
  }

  lemma AllBelow(hooks: set<nat>)
    requires hooks <= ALL_HOOKS
    ensures hooks == {} <==> NoneBelow(hooks, HOOKS)
  {}

  lemma AttachPortLed(env: Env, w: World, id: nat, b: Bridge)
    ensures Led(w, AttachPort(env, w, id, b).w, true)
  {
    hide Led, Exec;
    LedNowhere(w);
    var p := Port(id, b.vlan);
    var d := Exec(env, w, VlanAdd(p));
    ExecLed(env, w, VlanAdd(p));
    ExecLed(env, d.w, Enslave(p, b.ifname));
    LedOn(w, d.w, Exec(env, d.w, Enslave(p, b.ifname)).w, true, true);
  }

  /** Attaching ports adds VLAN children of this tunnel only. */
  lemma {:induction false} AttachPortsLed(env: Env, w: World, id: nat, bridges: seq<Bridge>)
    ensures var d := AttachPorts(env, w, id, bridges);
      && Led(w, d.w, true)
      && (forall p: Port :: p.id != id ==> (p in d.w.k.vlans <==> p in w.k.vlans))
    decreases |bridges|
  {
    hide Led, Leaked;
    LedNowhere(w);
    if bridges != [] {
      var d := AttachPort(env, w, id, bridges[0]);
      AttachPortLed(env, w, id, bridges[0]);
      if d.ok {
        AttachPortsLed(env, d.w, id, bridges[1..]);
        LedOn(w, d.w, AttachPorts(env, d.w, id, bridges[1..]).w, true, true);
      }
    }
  }

  /** k is the kernel k0 plus one tunnel: its interface, its ports and its jumps. */
  ghost predicate Grown(k0: Kernel, k: Kernel, id: nat) {
    && k == k0.(devs := k.devs, vlans := k.vlans, attached := k.attached, jumps := k.jumps)
    && id in k.devs && id !in k0.devs && k.devs - {id} == k0.devs
    && (forall p :: p in k0.vlans || p in k0.attached ==> p.id != id)
    && (forall p: Port :: p.id != id ==> (p in k.vlans <==> p in k0.vlans))
    && (forall p: Port :: p.id != id ==> (p in k.attached <==> p in k0.attached))
    && (forall p :: p in k0.attached && p in k.attached ==> k.attached[p] == k0.attached[p])
    && JumpsMatch(k0.jumps, id, {}) && SameElsewhere(k0.jumps, k.jumps, id)
  }

  /** Deleting the interface and all jumps gives the old kernel back. */
  lemma Ungrown(k0: Kernel, k: Kernel, id: nat, k1: Kernel, k2: Kernel)
    requires Grown(k0, k, id) && Apply(k, GreDel(id)) == Some(k1)
    requires k2 == k1.(jumps := k2.jumps) && SameElsewhere(k1.jumps, k2.jumps, id) && JumpsMatch(k2.jumps, id, {})
    ensures k2 == k0
  {
    assert k1.devs == k0.devs && k1.vlans == k0.vlans && k1.attached == k0.attached;
    forall j: Jump ensures k2.jumps[j] == k0.jumps[j] {
      if j.id == id {
        assert j == Jump(id, j.hook);
      }
    }
    assert k2.jumps == k0.jumps;
  }

  /** Rolling a new tunnel back restores everything or says that a deletion failed. */
  lemma DelRestores(env: Env, cfg: Config, s0: State, s: State, r: Ip)
    requires env.Valid() && Core(cfg, s) && !s.cleanupPending && r !in s0.tunnels && r in s.tunnels
    requires !s.tunnels[r].ready && Grown(s0.w.k, s.w.k, s.tunnels[r].id)
    requires s.tunnels[r].id < |s0.slots| && !s0.slots[s.tunnels[r].id]
    requires s.tunnels - {r} == s0.tunnels && s.slots == s0.slots[s.tunnels[r].id := true]
    requires s == s0.(tunnels := s.tunnels, slots := s.slots, w := s.w)
    ensures var c := Del(env, s, r);
      && Led(s.w, c.s.w, c.ok)
      && (if c.ok then c.s == s0.(w := c.s.w) && c.s.w.k == s0.w.k else r in c.s.tunnels)
  {
    hide Tables, Indexed, Hooks, Links, RulesExact, AllFenced, Admitted, Fenced, NoPorts, JumpsMatch, Leaked,
      RemoveHooks, SameElsewhere, Led, Exec, Grown;
    var id, k := s.tunnels[r].id, s.w.k;
    GrownHasDevice(s0.w.k, k, id);
    IdleHasNoClients(cfg, s, r);
    GreDeleted(env, cfg, s, r);
    var g := Exec(env, s.w, GreDel(id));
    ExecLed(env, s.w, GreDel(id));
    if g.ok {
      var s1 := s.(w := g.w);
      NothingToDrop(env, s1, r, |g.w.log|);
      HooksOf(s1, r);
      RemoveHooksSound(env, g.w, id, s.tunnels[r].hooks, 0);
      RemoveHooksLed(env, g.w, id, s.tunnels[r].hooks, 0);
      assert NoneBelow(s.tunnels[r].hooks, 0);
      var h := RemoveHooks(env, g.w, id, s.tunnels[r].hooks, 0);
      LedOn(s.w, g.w, h.w, true, h.ok);
      ExecApplies(env, s.w, GreDel(id));
      if h.ok {
        Ungrown(s0.w.k, k, id, g.w.k, h.w.k);
        assert s.slots[id := false] == s0.slots;
      }
    }
  }

  lemma GrownHasDevice(k0: Kernel, k: Kernel, id: nat)
    requires Grown(k0, k, id)
    ensures id in k.devs
  {}

  lemma ExecApplies(env: Env, w: World, cmd: Command)
    ensures var d := Exec(env, w, cmd); d.ok ==> Apply(w.k, cmd) == Some(d.w.k)
  {
    hide Leaked;
  }

  lemma GrownByHooks(k0: Kernel, k: Kernel, id: nat, jumps: multiset<Jump>)
    requires Grown(k0, k, id) && SameElsewhere(k.jumps, jumps, id)
    ensures Grown(k0, k.(jumps := jumps), id)
  {}

  lemma GrownByPorts(k0: Kernel, w: World, w': World, id: nat)
    requires Grown(k0, w.k, id) && PortFrame(w, w', id)
    requires forall p: Port :: p.id != id ==> (p in w'.k.vlans <==> p in w.k.vlans)
    ensures Grown(k0, w'.k, id)
  {
    hide Fenced, AllFenced, Leaked, JumpsMatch, SameElsewhere;
  }

  lemma FreshJumps(s: State, id: nat)
    requires Hooks(s) && !UsedSlot(s, id)
    ensures JumpsMatch(s.w.k.jumps, id, {})
  {
    forall h: nat ensures s.w.k.jumps[Jump(id, h)] == 0 {
      assert Jump(id, h) in s.w.k.jumps ==> UsedSlot(s, Jump(id, h).id);
    }
  }

  lemma FreshPorts(cfg: Config, s: State, id: nat)
    requires Links(cfg, s) && !UsedSlot(s, id)
    ensures id !in s.w.k.devs && forall p :: p in s.w.k.vlans || p in s.w.k.attached ==> p.id != id
  {
    hide OnBridges;
    assert id in s.w.k.devs ==> UsedSlot(s, id);
  }

  lemma GrownAtFirst(cfg: Config, s: State, id: nat, ends: Ends)
    requires Hooks(s) && Links(cfg, s) && !UsedSlot(s, id)
    ensures Grown(s.w.k, s.w.k.(devs := s.w.k.devs[id := ends]), id)
  {
    hide Hooks, Links, JumpsMatch;
    FreshJumps(s, id);
    FreshPorts(cfg, s, id);
    SameAll(s.w.k.jumps, id);
    assert s.w.k.devs[id := ends] - {id} == s.w.k.devs;
  }

  /** What a failed setup leaves of a new tunnel. */
  ghost predicate RolledBack(s0: State, w: World, c: Called, r: Ip) {
    && !c.ok && Led(w, c.s.w, r !in c.s.tunnels)
    && (r !in c.s.tunnels ==> c.s == s0.(w := c.s.w) && c.s.w.k == s0.w.k)
  }

  lemma SetupRollsBack(env: Env, cfg: Config, s0: State, s: State, r: Ip)
    requires env.Valid() && Core(cfg, s) && !s.cleanupPending && r !in s0.tunnels && r in s.tunnels
    requires s.tunnels[r].id < |s0.slots| && !s0.slots[s.tunnels[r].id]
    requires s == Track(s0, r, s.tunnels[r].id, s.w)
    requires Grown(s0.w.k, s.w.k, s.tunnels[r].id) && NoPorts(s.w.k, s.tunnels[r].id)
    ensures var c := Setup(env, cfg, s, r); !c.ok ==> RolledBack(s0, s.w, c, r)
  {
    hide Tables, Indexed, Hooks, Links, RulesExact, AllFenced, Admitted, Fenced, JumpsMatch, Leaked,
      SameElsewhere, Del, Led, Grown, InstallHooks, AttachPorts, PortsNested, NoPorts, OnBridges;
    var id := s.tunnels[r].id;
    GrownHasDevice(s0.w.k, s.w.k, id);
    CoreFenced(cfg, s);
    HooksOf(s, r);
    InstallHooksSound(env, s.w, id, {}, 0);
    InstallHooksLed(env, s.w, id, {}, 0);
    var h := InstallHooks(env, s.w, id, {}, 0);
    var s1 := SetHooks(s, r, h);
    HooksChanged(cfg, s, r, h);
    GrownByHooks(s0.w.k, s.w.k, id, h.w.k.jumps);
    assert s1.tunnels - {r} == s0.tunnels;
    if !h.ok {
      DelRestores(env, cfg, s0, s1, r);
      LedOn(s.w, s1.w, Del(env, s1, r).s.w, true, Del(env, s1, r).ok);
      DelSound(env, cfg, s1, r);
    } else {
      CoreFenced(cfg, s1);
      HooksOf(s1, r);
      DropsOf(cfg, s1);
      NestedOf(cfg, s1);
      AttachPortsSound(env, s1.w, id, cfg.bridges);
      AttachPortsLed(env, s1.w, id, cfg.bridges);
      var p := AttachPorts(env, s1.w, id, cfg.bridges);
      var s2 := s1.(w := p.w);
      PortsChanged(cfg, s1, r, p.w);
      GrownByPorts(s0.w.k, s1.w, p.w, id);
      LedOn(s.w, s1.w, p.w, true, true);
      if !p.ok {
        DelRestores(env, cfg, s0, s2, r);
        LedOn(s.w, s2.w, Del(env, s2, r).s.w, true, Del(env, s2, r).ok);
        DelSound(env, cfg, s2, r);
      }
    }
  }

  /** A tunnel that could not be created leaves a record behind if and only if a deletion of its
      rollback failed. If it leaves none, tables and kernel are exactly what they were. */
  lemma CreateRollsBack(env: Env, cfg: Config, s: State, r: Ip)
    requires env.Valid() && Core(cfg, s) && !s.cleanupPending && r !in s.tunnels && Admitted(cfg, r)
    ensures var c := Create(env, cfg, s, r);
      !c.ok ==>
        && s.w.log <= c.s.w.log
        && (r in c.s.tunnels <==>
              exists i :: |s.w.log| <= i < |c.s.w.log| && Deletes(c.s.w.log[i].cmd) && !c.s.w.log[i].ok)
        && (r !in c.s.tunnels ==> c.s == s.(w := c.s.w) && c.s.w.k == s.w.k)
  {
    hide Tables, Indexed, Hooks, Links, RulesExact, AllFenced, Admitted, Leaked, NoPorts, Setup, Fenced, Grown;
    SlotCount(s);
    LedNowhere(s.w);
    var id := FirstFree(s.slots, s.w.k, 0);
    if id < |s.slots| {
      CoreFenced(cfg, s);
      var g := Exec(env, s.w, GreAdd(id, Ends(cfg.local, r)));
      ExecLed(env, s.w, GreAdd(id, Ends(cfg.local, r)));
      DropsOf(cfg, s);
      FenceSame(s.w.k, g.w.k);
      AllFencedExtends(s.w.log, Entry(GreAdd(id, Ends(cfg.local, r)), g.ok, g.w.k));
      if g.ok {
        Tracked(cfg, s, r, id, g.w);
        assert !UsedSlot(s, id);
        GrownAtFirst(cfg, s, id, Ends(cfg.local, r));
        var s1 := Track(s, r, id, g.w);
        SetupRollsBack(env, cfg, s, s1, r);
        var c := Setup(env, cfg, s1, r);
        if !c.ok {
          LedOn(s.w, g.w, c.s.w, true, r !in c.s.tunnels);
        }
      }
    }
  }
}
