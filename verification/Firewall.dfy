/** The bridge-firewall rules of one tunnel, and the attachment of its VLAN ports. */
module Firewall {
  import opened Types
  import opened Kernel

  const ALL_HOOKS: set<nat> := {0, 1, 2}

  datatype Bridge = Bridge(vlan: nat, ifname: string)

  /** hooks is the set of bits recorded as installed. */
  datatype Hooked = Hooked(w: World, hooks: set<nat>, ok: bool)

  function InstallHooks(env: Env, w: World, id: nat, hooks: set<nat>, i: nat): Hooked
    requires i <= HOOKS
    decreases HOOKS - i
  {
    if i == HOOKS then Hooked(w, hooks, true)
    else if i in hooks then InstallHooks(env, w, id, hooks, i + 1)
    else
      var d := Exec(env, w, JumpAdd(Jump(id, i)));
      if !d.ok then Hooked(d.w, hooks, false)
      else InstallHooks(env, d.w, id, hooks + {i}, i + 1)
  }

  function RemoveHooks(env: Env, w: World, id: nat, hooks: set<nat>, i: nat): Hooked
    requires i <= HOOKS
    decreases HOOKS - i
  {
    if i == HOOKS then Hooked(w, hooks, hooks == {})
    else if i in hooks then
      var d := Exec(env, w, JumpDel(Jump(id, i)));
      RemoveHooks(env, d.w, id, if d.ok then hooks - {i} else hooks, i + 1)
    else RemoveHooks(env, w, id, hooks, i + 1)
  }

  /** Create the VLAN child, then put it on the bridge. */
  function AttachPort(env: Env, w: World, id: nat, b: Bridge): Done {
    if !Named(w.k, id) || !env.bridgeUp(|w.log|, b.ifname) then Done(w, false)
    else
      var d := Exec(env, w, VlanAdd(Port(id, b.vlan)));
      if !d.ok then d else Exec(env, d.w, Enslave(Port(id, b.vlan), b.ifname))
  }

  function AttachPorts(env: Env, w: World, id: nat, bridges: seq<Bridge>): Done
    decreases |bridges|
  {
    if bridges == [] then Done(w, true)
    else
      var d := AttachPort(env, w, id, bridges[0]);
      if !d.ok then d else AttachPorts(env, d.w, id, bridges[1..])
  }

  /** Accept a client in both directions; a half-installed pair is undone. */
  function AllowRules(env: Env, w: World, id: nat, m: Mac): Done {
    var a := Exec(env, w, Insert(In, Accept(id, m)));
    if !a.ok then a
    else
      var b := Exec(env, a.w, Insert(Out, Accept(id, m)));
      if b.ok then b
      else Done(Exec(env, b.w, Delete(In, Accept(id, m))).w, false)
  }

  function RevokeRules(env: Env, w: World, id: nat, m: Mac): Done {
    var a := Exec(env, w, Delete(In, Accept(id, m)));
    var b := Exec(env, a.w, Delete(Out, Accept(id, m)));
    Done(b.w, a.ok && b.ok)
  }

  function ChainDefaults(env: Env, w: World): Done {
    var a := Exec(env, w, Append(Out, Multicast));
    if !a.ok then a
    else
      var b := Exec(env, a.w, Append(In, Drop));
      if !b.ok then b else Exec(env, b.w, Append(Out, Drop))
  }

  function ResetChains(env: Env, w: World): Done {
    var a := Exec(env, w, Flush(In));
    if !a.ok then a
    else
      var b := Exec(env, a.w, Flush(Out));
      if !b.ok then b else ChainDefaults(env, b.w)
  }

  /** The recorded bits are exactly the installed jumps, each installed once. */
  ghost predicate JumpsMatch(jumps: multiset<Jump>, id: nat, hooks: set<nat>) {
    forall h: nat :: jumps[Jump(id, h)] == if h in hooks then 1 else 0
  }

  ghost predicate SameElsewhere(a: multiset<Jump>, b: multiset<Jump>, id: nat) {
    forall j: Jump :: j.id != id ==> a[j] == b[j]
  }

  ghost predicate NoPorts(k: Kernel, id: nat) {
    forall p :: p in k.attached ==> p.id != id
  }

  /** A run of commands that touched only the jumps of one tunnel. */
  ghost predicate HookFrame(w: World, r: Hooked, id: nat) {
    && r.w.k == w.k.(jumps := r.w.k.jumps)
    && SameElsewhere(w.k.jumps, r.w.k.jumps, id)
    && r.hooks <= ALL_HOOKS
    && JumpsMatch(r.w.k.jumps, id, r.hooks)
    && AllFenced(r.w.log)
    && Leaked(r.w.log) == Leaked(w.log)
  }

  lemma {:induction false} InstallHooksSound(env: Env, w: World, id: nat, hooks: set<nat>, i: nat)
    requires i <= HOOKS && hooks <= ALL_HOOKS
    requires JumpsMatch(w.k.jumps, id, hooks)
    requires AllFenced(w.log) && Fenced(w.k)
    requires forall h :: 0 <= h < i ==> h in hooks
    ensures var r := InstallHooks(env, w, id, hooks, i);
      && HookFrame(w, r, id)
      && Fenced(r.w.k)
      && hooks <= r.hooks
      && (r.ok ==> r.hooks == ALL_HOOKS)
    decreases HOOKS - i
  {
    if i == HOOKS {
    } else if i in hooks {
      InstallHooksSound(env, w, id, hooks, i + 1);
    } else {
      var d := Exec(env, w, JumpAdd(Jump(id, i)));
      AllFencedExtends(w.log, Entry(JumpAdd(Jump(id, i)), d.ok, d.w.k));
      if d.ok {
        InstallHooksSound(env, d.w, id, hooks + {i}, i + 1);
      }
    }
  }

  lemma JumpDelSound(env: Env, w: World, id: nat, hooks: set<nat>, i: nat)
    requires i in hooks && hooks <= ALL_HOOKS
    requires JumpsMatch(w.k.jumps, id, hooks)
    requires AllFenced(w.log) && Fenced(w.k) && NoPorts(w.k, id)
    ensures var d := Exec(env, w, JumpDel(Jump(id, i)));
      && HookFrame(w, Hooked(d.w, if d.ok then hooks - {i} else hooks, d.ok), id)
      && Fenced(d.w.k)
  {
    var d := Exec(env, w, JumpDel(Jump(id, i)));
    forall p | p in d.w.k.attached ensures Guarded(d.w.k, p.id) {
      assert Guarded(w.k, p.id);
      forall h: nat | h < HOOKS ensures Jump(p.id, h) in d.w.k.jumps {
        assert Jump(p.id, h) in w.k.jumps && Jump(p.id, h) != Jump(id, i);
      }
    }
    AllFencedExtends(w.log, Entry(JumpDel(Jump(id, i)), d.ok, d.w.k));
  }

  lemma SameAll(a: multiset<Jump>, id: nat)
    ensures SameElsewhere(a, a, id)
  {}

  lemma SameTwice(a: multiset<Jump>, b: multiset<Jump>, c: multiset<Jump>, id: nat)
    requires SameElsewhere(a, b, id) && SameElsewhere(b, c, id)
    ensures SameElsewhere(a, c, id)
  {}

  lemma NoPortsSame(k: Kernel, k': Kernel, id: nat)
    requires NoPorts(k, id) && k'.attached == k.attached
    ensures NoPorts(k', id)
  {}

  lemma {:induction false} RemoveHooksUnfold(env: Env, w: World, id: nat, hooks: set<nat>, i: nat)
    requires i <= HOOKS
    ensures RemoveHooks(env, w, id, hooks, i) ==
      if i == HOOKS then Hooked(w, hooks, hooks == {})
      else if i in hooks then
        var d := Exec(env, w, JumpDel(Jump(id, i)));
        RemoveHooks(env, d.w, id, if d.ok then hooks - {i} else hooks, i + 1)
      else RemoveHooks(env, w, id, hooks, i + 1)
  {}

  lemma {:induction false} RemoveHooksSound(env: Env, w: World, id: nat, hooks: set<nat>, i: nat)
    requires i <= HOOKS && hooks <= ALL_HOOKS
    requires JumpsMatch(w.k.jumps, id, hooks)
    requires AllFenced(w.log) && Fenced(w.k) && NoPorts(w.k, id)
    ensures var r := RemoveHooks(env, w, id, hooks, i);
      && HookFrame(w, r, id)
      && Fenced(r.w.k)
      && r.ok == (r.hooks == {})
    decreases HOOKS - i
  {
    hide Fenced, AllFenced, NoPorts, JumpsMatch, SameElsewhere, Leaked, LeakStep, Exec, RemoveHooks;
    RemoveHooksUnfold(env, w, id, hooks, i);
    if i == HOOKS {
      SameAll(w.k.jumps, id);
    } else if i in hooks {
      JumpDelSound(env, w, id, hooks, i);
      var d := Exec(env, w, JumpDel(Jump(id, i)));
      NoPortsSame(w.k, d.w.k, id);
      RemoveHooksSound(env, d.w, id, if d.ok then hooks - {i} else hooks, i + 1);
      SameTwice(w.k.jumps, d.w.k.jumps, RemoveHooks(env, w, id, hooks, i).w.k.jumps, id);
    } else {
      RemoveHooksSound(env, w, id, hooks, i + 1);
    }
  }

  /** Without a failing command every recorded jump is removed. */
  lemma JumpDelWorks(env: Env, w: World, id: nat, hooks: set<nat>, i: nat)
    requires i in hooks && JumpsMatch(w.k.jumps, id, hooks) && env.succeeds(|w.log|)
    ensures var d := Exec(env, w, JumpDel(Jump(id, i)));
      d.ok && |d.w.log| == |w.log| + 1 && JumpsMatch(d.w.k.jumps, id, hooks - {i})
  {
    hide Leaked;
    assert w.k.jumps[Jump(id, i)] == 1;
  }

  lemma {:induction false} RemoveHooksComplete(env: Env, w: World, id: nat, hooks: set<nat>, i: nat)
    requires i <= HOOKS && hooks <= ALL_HOOKS
    requires JumpsMatch(w.k.jumps, id, hooks)
    requires forall n: nat :: |w.log| <= n < |w.log| + HOOKS - i ==> env.succeeds(n)
    requires forall h :: 0 <= h < i ==> h !in hooks
    ensures var r := RemoveHooks(env, w, id, hooks, i);
      r.ok && r.hooks == {} && |w.log| <= |r.w.log| <= |w.log| + HOOKS - i
    decreases HOOKS - i
  {
    hide JumpsMatch, Exec, RemoveHooks, Leaked, LeakStep;
    RemoveHooksUnfold(env, w, id, hooks, i);
    if i == HOOKS {
      assert hooks == {};
    } else if i in hooks {
      JumpDelWorks(env, w, id, hooks, i);
      RemoveHooksComplete(env, Exec(env, w, JumpDel(Jump(id, i))).w, id, hooks - {i}, i + 1);
    } else {
      RemoveHooksComplete(env, w, id, hooks, i + 1);
    }
  }

  /** Every attached port is a VLAN child of an existing gretap. */
  ghost predicate PortsNested(k: Kernel) {
    && (forall p :: p in k.attached ==> p in k.vlans)
    && (forall p :: p in k.vlans ==> p.id in k.devs)
  }

  ghost predicate OnBridges(k: Kernel, id: nat, bridges: seq<Bridge>) {
    forall b :: b in bridges ==>
      Port(id, b.vlan) in k.attached && k.attached[Port(id, b.vlan)] == b.ifname
  }

  /** A run of commands that only added ports of one tunnel. */
  ghost predicate PortFrame(w: World, w': World, id: nat) {
    && w'.k == w.k.(vlans := w'.k.vlans, attached := w'.k.attached)
    && PortsNested(w'.k)
    && (forall p :: p in w'.k.attached && p !in w.k.attached ==> p.id == id)
    && (forall p :: p in w.k.attached ==> p in w'.k.attached && w'.k.attached[p] == w.k.attached[p])
    && Fenced(w'.k)
    && AllFenced(w'.log)
    && Leaked(w'.log) == Leaked(w.log)
  }

  lemma FullyHookedIsGuarded(k: Kernel, id: nat)
    requires JumpsMatch(k.jumps, id, ALL_HOOKS)
    requires EndsInDrop(k.inChain) && EndsInDrop(k.outChain)
    ensures Guarded(k, id)
  {
    forall h: nat | h < HOOKS ensures Jump(id, h) in k.jumps {
      assert h in ALL_HOOKS;
      assert k.jumps[Jump(id, h)] == 1;
    }
  }

  lemma VlanAddSound(env: Env, w: World, p: Port)
    requires p.id in w.k.devs && PortsNested(w.k)
    requires AllFenced(w.log) && Fenced(w.k)
    ensures var d := Exec(env, w, VlanAdd(p));
      && PortFrame(w, d.w, p.id)
      && d.w.k.attached == w.k.attached
      && (d.ok ==> p in d.w.k.vlans && p !in w.k.attached)
  {
    var d := Exec(env, w, VlanAdd(p));
    AllFencedExtends(w.log, Entry(VlanAdd(p), d.ok, d.w.k));
  }

  lemma EnslaveSound(env: Env, w: World, p: Port, bridge: string)
    requires p in w.k.vlans && p !in w.k.attached && PortsNested(w.k)
    requires JumpsMatch(w.k.jumps, p.id, ALL_HOOKS)
    requires EndsInDrop(w.k.inChain) && EndsInDrop(w.k.outChain)
    requires AllFenced(w.log) && Fenced(w.k)
    ensures var d := Exec(env, w, Enslave(p, bridge));
      && PortFrame(w, d.w, p.id)
      && (d.ok ==> p in d.w.k.attached && d.w.k.attached[p] == bridge)
  {
    var d := Exec(env, w, Enslave(p, bridge));
    FullyHookedIsGuarded(w.k, p.id);
    forall q | q in d.w.k.attached ensures Guarded(d.w.k, q.id) {
      assert Guarded(w.k, q.id);
    }
    AllFencedExtends(w.log, Entry(Enslave(p, bridge), d.ok, d.w.k));
  }

  lemma AttachPortSound(env: Env, w: World, id: nat, b: Bridge)
    requires id in w.k.devs && PortsNested(w.k)
    requires JumpsMatch(w.k.jumps, id, ALL_HOOKS)
    requires EndsInDrop(w.k.inChain) && EndsInDrop(w.k.outChain)
    requires AllFenced(w.log) && Fenced(w.k)
    ensures var d := AttachPort(env, w, id, b);
      && PortFrame(w, d.w, id)
      && (d.ok ==> Port(id, b.vlan) in d.w.k.attached && d.w.k.attached[Port(id, b.vlan)] == b.ifname)
      && (!env.bridgeUp(|w.log|, b.ifname) ==> d == Done(w, false))
  {
    if env.bridgeUp(|w.log|, b.ifname) {
      var p := Port(id, b.vlan);
      VlanAddSound(env, w, p);
      var d := Exec(env, w, VlanAdd(p));
      if d.ok {
        EnslaveSound(env, d.w, p, b.ifname);
      }
    }
  }

  lemma {:induction false} AttachPortsSound(env: Env, w: World, id: nat, bridges: seq<Bridge>)
    requires id in w.k.devs && PortsNested(w.k)
    requires JumpsMatch(w.k.jumps, id, ALL_HOOKS)
    requires EndsInDrop(w.k.inChain) && EndsInDrop(w.k.outChain)
    requires AllFenced(w.log) && Fenced(w.k)
    ensures var d := AttachPorts(env, w, id, bridges);
      && PortFrame(w, d.w, id)
      && (d.ok ==> OnBridges(d.w.k, id, bridges))
    decreases |bridges|
  {
    if bridges != [] {
      AttachPortSound(env, w, id, bridges[0]);
      var d := AttachPort(env, w, id, bridges[0]);
      if d.ok {
        AttachPortsSound(env, d.w, id, bridges[1..]);
        var e := AttachPorts(env, d.w, id, bridges[1..]);
        if e.ok {
          forall b | b in bridges
            ensures Port(id, b.vlan) in e.w.k.attached && e.w.k.attached[Port(id, b.vlan)] == b.ifname
          {
            assert b == bridges[0] || b in bridges[1..];
          }
        }
      }
    }
  }

  /** Ingress gains the rule, egress gains it exactly on success, and a rule that stays
      behind after a failure is accounted for as leaked. */
  lemma AllowRulesSound(env: Env, w: World, id: nat, m: Mac)
    requires AllFenced(w.log) && Fenced(w.k)
    ensures var d := AllowRules(env, w, id, m);
      && var a := Accept(id, m);
      && d.w.k == w.k.(inChain := d.w.k.inChain, outChain := d.w.k.outChain)
      && (d.w.k.inChain == w.k.inChain || d.w.k.inChain == [a] + w.k.inChain)
      && d.w.k.outChain == (if d.ok then [a] + w.k.outChain else w.k.outChain)
      && (d.ok ==> d.w.k.inChain == [a] + w.k.inChain && Leaked(d.w.log) == Leaked(w.log))
      && (!d.ok && d.w.k.inChain == w.k.inChain ==> Leaked(d.w.log) == Leaked(w.log))
      && (!d.ok && d.w.k.inChain != w.k.inChain ==> Leaked(d.w.log) == Leaked(w.log) + {(id, m)})
      && Fenced(d.w.k)
      && AllFenced(d.w.log)
  {
    hide Fenced, AllFenced, Leaked;
    var r := Accept(id, m);
    var a := Exec(env, w, Insert(In, r));
    ChainsKeepFence(w.k, a.w.k);
    AllFencedExtends(w.log, Entry(Insert(In, r), a.ok, a.w.k));
    if a.ok {
      var b := Exec(env, a.w, Insert(Out, r));
      ChainsKeepFence(a.w.k, b.w.k);
      AllFencedExtends(a.w.log, Entry(Insert(Out, r), b.ok, b.w.k));
      if !b.ok {
        var c := Exec(env, b.w, Delete(In, r));
        assert b.w.k.inChain[0] == r && b.w.k.inChain[1..] == w.k.inChain;
        ChainsKeepFence(w.k, c.w.k);
        AllFencedExtends(b.w.log, Entry(Delete(In, r), c.ok, c.w.k));
      }
    }
  }

  /** Rules in front of the final DROP do not open the fence. */
  lemma ChainsKeepFence(k: Kernel, k': Kernel)
    requires Fenced(k) && k' == k.(inChain := k'.inChain, outChain := k'.outChain)
    requires EndsInDrop(k.inChain) ==> EndsInDrop(k'.inChain)
    requires EndsInDrop(k.outChain) ==> EndsInDrop(k'.outChain)
    ensures Fenced(k')
  {
    forall p | p in k'.attached ensures Guarded(k', p.id) {
      assert Guarded(k, p.id);
    }
  }

  /** Taken while no tunnel interface is left, the reset is safe at every step. */
  lemma ResetChainsSound(env: Env, w: World)
    requires AllFenced(w.log) && w.k.attached == map[] && w.k.devs == map[]
    ensures var d := ResetChains(env, w);
      && d.w.k == w.k.(inChain := d.w.k.inChain, outChain := d.w.k.outChain)
      && (d.ok ==> d.w.k.inChain == [Drop] && d.w.k.outChain == [Multicast, Drop] && Leaked(d.w.log) == {})
      && AllFenced(d.w.log)
  {
    var a := Exec(env, w, Flush(In));
    AllFencedExtends(w.log, Entry(Flush(In), a.ok, a.w.k));
    if a.ok {
      var b := Exec(env, a.w, Flush(Out));
      AllFencedExtends(a.w.log, Entry(Flush(Out), b.ok, b.w.k));
      if b.ok {
        ChainDefaultsSound(env, b.w);
      }
    }
  }

  lemma ChainDefaultsSound(env: Env, w: World)
    requires AllFenced(w.log) && w.k.attached == map[] && w.k.devs == map[]
    ensures var d := ChainDefaults(env, w);
      && d.w.k == w.k.(inChain := d.w.k.inChain, outChain := d.w.k.outChain)
      && (d.ok ==> d.w.k.inChain == w.k.inChain + [Drop] && d.w.k.outChain == w.k.outChain + [Multicast, Drop])
      && Leaked(d.w.log) == Leaked(w.log)
      && AllFenced(d.w.log)
  {
    var a := Exec(env, w, Append(Out, Multicast));
    AllFencedExtends(w.log, Entry(Append(Out, Multicast), a.ok, a.w.k));
    if a.ok {
      var b := Exec(env, a.w, Append(In, Drop));
      AllFencedExtends(a.w.log, Entry(Append(In, Drop), b.ok, b.w.k));
      if b.ok {
        var c := Exec(env, b.w, Append(Out, Drop));
        AllFencedExtends(b.w.log, Entry(Append(Out, Drop), c.ok, c.w.k));
        assert w.k.outChain + [Multicast] + [Drop] == w.k.outChain + [Multicast, Drop];
      }
    }
  }

  /** An owned chain in its normal form decides by membership of the accept rules. */
  lemma {:induction false} TraverseExact(accepts: seq<Rule>, tail: seq<Rule>, id: nat, m: Mac)
    requires forall i :: 0 <= i < |accepts| ==> accepts[i].Accept?
    ensures Traverse(accepts + tail, id, m) <==> Accept(id, m) in accepts || Traverse(tail, id, m)
  {
    if accepts == [] {
      assert accepts + tail == tail;
    } else {
      assert (accepts + tail)[1..] == accepts[1..] + tail;
      TraverseExact(accepts[1..], tail, id, m);
    }
  }
}
