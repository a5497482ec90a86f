/** The daemon's tables as they are updated in place, one kernel command at a time. */
module ProvisionDaemon {
  import opened Types
  import opened Kernel
  import opened Firewall
  import opened Provision
  import opened ProvisionInvariant
  import opened ProvisionCalls
  import opened ProvisionTheorems
  import opened ProvisionVerdicts

  lemma TableOrder(env: Env, n: nat, keys: set<Ip>)
    requires env.Valid()
    ensures forall r :: r in env.tunnelOrder(n, keys) ==> r in keys
    ensures forall i :: 0 <= i < |env.tunnelOrder(n, keys)| ==> env.tunnelOrder(n, keys)[i] in keys
  {
    assert Enumerates(env.tunnelOrder(n, keys), keys);
  }

  lemma ResetOutcome(env: Env, w: World)
    ensures var d := ResetChains(env, w);
      && d.w.k == w.k.(inChain := d.w.k.inChain, outChain := d.w.k.outChain)
      && (d.ok ==> d.w.k.inChain == IN_DEFAULTS && d.w.k.outChain == OUT_DEFAULTS && Leaked(d.w.log) == {})
      && (!d.ok ==> d.w.k.inChain == w.k.inChain || d.w.k.inChain <= IN_DEFAULTS)
      && (!d.ok ==> d.w.k.outChain == w.k.outChain || d.w.k.outChain <= OUT_DEFAULTS)
  {
    hide Leaked;
  }

  lemma TablesOf(cfg: Config, s: State)
    requires Core(cfg, s)
    ensures Tables(s)
  {}

  lemma AddKeeps(env: Env, cfg: Config, s: State, r: Ip)
    requires env.Valid() && Inv(cfg, s) && !s.cleanupPending && Admitted(cfg, r)
    ensures var c := Add(env, cfg, s, r); Inv(cfg, c.s) && !c.s.cleanupPending
  {
    hide Core, Admitted, Add;
    AddSound(env, cfg, s, r);
  }

  /** A client of r is indexed under r, and no tunnel holds more clients than it may. */
  lemma ClientKnown(cfg: Config, s: State, r: Ip, m: Mac)
    requires Inv(cfg, s) && r in s.tunnels
    ensures m in s.tunnels[r].macs <==> m in s.macIndex && s.macIndex[m] == r
    ensures |s.tunnels[r].macs| <= MAX_CLIENTS
  {
    hide Core;
    IndexedMember(cfg, s, r, m);
    TablesOf(cfg, s);
    RecordBounds(s, r);
  }

  lemma AllowTables(env: Env, s: State, r: Ip, m: Mac)
    requires r in s.tunnels
    requires m in s.tunnels[r].macs <==> m in s.macIndex && s.macIndex[m] == r
    requires !s.tunnels[r].ready ==> s.tunnels[r].macs == {}
    ensures var c := AllowMac(env, s, r, m);
      && (c.ok ==>
            && s.tunnels[r].ready && (m in s.macIndex ==> s.macIndex[m] == r)
            && c.s.macIndex == s.macIndex[m := r]
            && c.s.tunnels == s.tunnels[r := s.tunnels[r].(macs := s.tunnels[r].macs + {m})])
      && (!c.ok ==> m !in s.tunnels[r].macs)
  {
    hide AllowRules;
    if m in s.tunnels[r].macs {
      assert s.tunnels[r].macs + {m} == s.tunnels[r].macs;
      assert s.macIndex[m := r] == s.macIndex;
      assert s.tunnels[r := s.tunnels[r]] == s.tunnels;
    }
  }

  /** What learning a client means for the tables and for the frames of the client. */
  lemma AllowOutcome(env: Env, cfg: Config, s: State, r: Ip, m: Mac)
    requires Inv(cfg, s) && !s.cleanupPending && r in s.tunnels
    ensures var c := AllowMac(env, s, r, m);
      && Inv(cfg, c.s) && r in c.s.tunnels
      && var t := c.s.tunnels[r];
      && (c.ok ==>
            && s.tunnels[r].ready && (m in s.macIndex ==> s.macIndex[m] == r)
            && c.s.macIndex == s.macIndex[m := r]
            && c.s.tunnels == s.tunnels[r := s.tunnels[r].(macs := s.tunnels[r].macs + {m})]
            && Ingress(c.s.w.k, t.id, m) && Egress(c.s.w.k, 1, t.id, m) && Egress(c.s.w.k, 2, t.id, m))
      && (!c.ok ==> c.s.macIndex == s.macIndex && c.s.tunnels == s.tunnels && m !in t.macs)
      && (!c.ok && t.ready && !IsMulticast(m) ==> !Egress(c.s.w.k, 1, t.id, m) && !Egress(c.s.w.k, 2, t.id, m))
      && (c.errno == NoSpace ==> !c.ok && c.s == s && |s.tunnels[r].macs| == MAX_CLIENTS)
  {
    hide Core, AllowMac, Ingress, Egress, Leaked;
    ClientKnown(cfg, s, r, m);
    if !s.tunnels[r].ready {
      IdleHasNoClients(cfg, s, r);
    }
    AllowTables(env, s, r, m);
    AllowMacSound(env, cfg, s, r, m);
    var c := AllowMac(env, s, r, m);
    if c.s.tunnels[r].ready {
      ReadyFilters(cfg, c.s, r, m);
    }
  }

  class Daemon {
    const env: Env
    const cfg: Config

    var tunnels: map<Ip, Tunnel>
    var macIndex: map<Mac, Ip>
    const slots: array<bool>
    var retryAfter: int
    var cleanupPending: bool
    var packets: nat
    var ignored: nat
    var failures: nat
    var w: World

    ghost function St(): State
      reads this, slots
    {
      State(tunnels, macIndex, slots[..], retryAfter, cleanupPending, w)
    }

    ghost predicate Shape()
      reads this, slots
    {
      && env.Valid()
      && slots.Length == MAX_SLOTS
      && (forall r :: r in tunnels ==> tunnels[r].id < MAX_SLOTS)
    }

    /** Between calls the tables, the kernel and the rule chains agree, and every command so far
        has left the kernel fenced. */
    ghost predicate Valid()
      reads this, slots
    {
      Shape() && Inv(cfg, St())
    }

    /** provision_init after a successful start of the firewall: the default rules are the first
        commands of the run. */
    constructor (env: Env, cfg: Config, foreign: set<nat>)
      requires env.Valid() && Boot(env, foreign).Some?
      ensures Valid() && this.env == env && this.cfg == cfg && fresh(slots)
      ensures St() == Boot(env, foreign).value
      ensures packets == 0 && ignored == 0 && failures == 0
    {
      this.env := env;
      this.cfg := cfg;
      tunnels := map[];
      macIndex := map[];
      slots := new bool[MAX_SLOTS](_ => false);
      retryAfter := 0;
      cleanupPending := false;
      packets, ignored, failures := 0, 0, 0;
      w := World(Kernel(foreign, map[], {}, map[], multiset{}, [], []), []);
      new;
      hide ChainDefaults, Inv;
      BootSound(env, cfg, foreign);
      var _ := DefaultRules();
      assert slots[..] == seq(MAX_SLOTS, _ => false);
    }

    method Command(c: Command) returns (ok: bool)
      modifies this`w
      ensures Done(w, ok) == Exec(env, old(w), c)
    {
      var d := Exec(env, w, c);
      w := d.w;
      ok := d.ok;
    }

    /** iface_ebtables_add_tunnel on the bits of one record. */
    method AddTunnelHooks(r: Ip) returns (ok: bool)
      requires Shape() && r in tunnels
      modifies this`w, this`tunnels
      ensures Shape() && r in tunnels
      ensures var h := InstallHooks(env, old(w), old(tunnels)[r].id, old(tunnels)[r].hooks, 0);
        ok == h.ok && St() == SetHooks(old(St()), r, h)
    {
      hide Leaked, Enumerates;
      var t := tunnels[r];
      var installed: set<nat>, i: nat := t.hooks, 0;
      ok := true;
      while ok && i < HOOKS
        modifies this`w
        invariant i <= HOOKS
        invariant InstallHooks(env, old(w), t.id, t.hooks, 0) ==
          if ok then InstallHooks(env, w, t.id, installed, i) else Hooked(w, installed, false)
      {
        if i !in installed {
          ok := Command(JumpAdd(Jump(t.id, i)));
          if ok {
            installed := installed + {i};
          }
        }
        i := i + 1;
      }
      tunnels := tunnels[r := t.(hooks := installed)];
    }

    /** iface_ebtables_del_tunnel: tries every recorded jump, keeps the bits that stay. */
    method DelTunnelHooks(r: Ip) returns (ok: bool)
      requires Shape() && r in tunnels
      modifies this`w, this`tunnels
      ensures Shape() && r in tunnels
      ensures var h := RemoveHooks(env, old(w), old(tunnels)[r].id, old(tunnels)[r].hooks, 0);
        ok == h.ok && St() == SetHooks(old(St()), r, h)
    {
      hide Leaked, LeakStep, Enumerates, RemoveHooks, Exec;
      var t := tunnels[r];
      var installed: set<nat>, i: nat := t.hooks, 0;
      while i < HOOKS
        modifies this`w
        invariant i <= HOOKS
        invariant RemoveHooks(env, old(w), t.id, t.hooks, 0) == RemoveHooks(env, w, t.id, installed, i)
      {
        RemoveHooksUnfold(env, w, t.id, installed, i);
        if i in installed {
          var gone := Command(JumpDel(Jump(t.id, i)));
          if gone {
            installed := installed - {i};
          }
        }
        i := i + 1;
      }
      RemoveHooksUnfold(env, w, t.id, installed, i);
      tunnels := tunnels[r := t.(hooks := installed)];
      ok := installed == {};
    }

    method AttachBridges(id: nat) returns (ok: bool)
      modifies this`w
      ensures Done(w, ok) == AttachPorts(env, old(w), id, cfg.bridges)
    {
      var i := 0;
      while i < |cfg.bridges|
        invariant i <= |cfg.bridges|
        invariant AttachPorts(env, old(w), id, cfg.bridges) == AttachPorts(env, w, id, cfg.bridges[i..])
      {
        var b := cfg.bridges[i];
        assert cfg.bridges[i..][0] == b && cfg.bridges[i..][1..] == cfg.bridges[i + 1..];
        if !Named(w.k, id) || !env.bridgeUp(|w.log|, b.ifname) {
          return false;
        }
        ok := Command(VlanAdd(Port(id, b.vlan)));
        if !ok {
          return;
        }
        ok := Command(Enslave(Port(id, b.vlan), b.ifname));
        if !ok {
          return;
        }
        i := i + 1;
      }
      ok := true;
    }

    method GreDelete(id: nat) returns (ok: bool, errno: Errno)
      modifies this`w
      ensures (Done(w, ok), errno) == DeleteGre(env, old(w), id)
    {
      if !Named(w.k, id) {
        return false, NoDev;
      }
      ok := Command(GreDel(id));
      errno := Other;
    }

    /** The loop over the clients of a tunnel that is being deleted. */
    method DropClients(r: Ip) returns (ok: bool)
      requires Shape() && r in tunnels
      modifies this`w, this`tunnels, this`macIndex
      ensures Shape() && r in tunnels && tunnels[r].id == old(tunnels)[r].id
      ensures Called(St(), ok, Other) == DropMacs(env, old(St()), r, env.macOrder(|old(w).log|, old(tunnels)[r].macs))
    {
      hide Leaked, Enumerates;
      var id := tunnels[r].id;
      var order := env.macOrder(|w.log|, tunnels[r].macs);
      ghost var c := DropMacs(env, St(), r, order);
      var i := 0;
      while i < |order|
        invariant i <= |order| && Shape() && r in tunnels && tunnels[r].id == id
        invariant c == DropMacs(env, St(), r, order[i..])
      {
        var m := order[i];
        assert order[i..][0] == m && order[i..][1..] == order[i + 1..];
        var a := Command(Delete(In, Accept(id, m)));
        var b := Command(Delete(Out, Accept(id, m)));
        if !a || !b {
          return false;
        }
        macIndex := macIndex - {m};
        tunnels := tunnels[r := tunnels[r].(macs := tunnels[r].macs - {m})];
        i := i + 1;
      }
      ok := true;
    }

    /** provision_del */
    method Remove(r: Ip) returns (ok: bool)
      requires Shape()
      modifies this, slots
      ensures Shape() && packets == old(packets) && ignored == old(ignored) && failures == old(failures)
      ensures var c := Del(env, old(St()), r); ok == c.ok && St() == c.s
    {
      hide Leaked, RemoveHooks, DropMacs, Enumerates;
      if r !in tunnels {
        return true;
      }
      var id := tunnels[r].id;
      var gone, errno := GreDelete(id);
      if !gone && errno != NoDev {
        return false;
      }
      var dropped := DropClients(r);
      if !dropped {
        return false;
      }
      var unhooked := DelTunnelHooks(r);
      if !unhooked {
        return false;
      }
      slots[id] := false;
      tunnels := tunnels - {r};
      ok := true;
    }

    /** provision_add; the errno that matters is returned with the result. */
    method AddTunnel(r: Ip) returns (ok: bool, errno: Errno)
      requires Shape()
      modifies this, slots
      ensures Shape() && packets == old(packets) && ignored == old(ignored) && failures == old(failures)
      ensures Called(St(), ok, errno) == Add(env, cfg, old(St()), r)
    {
      hide Leaked, RemoveHooks, DropMacs, Create, Enumerates;
      if cleanupPending {
        return false, Other;
      }
      if r in tunnels {
        if tunnels[r].ready {
          return true, Other;
        }
        var deleted := Remove(r);
        if !deleted {
          return false, Other;
        }
      }
      ok, errno := CreateTunnel(r);
    }

    method CreateTunnel(r: Ip) returns (ok: bool, errno: Errno)
      requires Shape()
      modifies this, slots
      ensures Shape() && packets == old(packets) && ignored == old(ignored) && failures == old(failures)
      ensures Called(St(), ok, errno) == Create(env, cfg, old(St()), r)
    {
      hide Leaked, Setup, Enumerates;
      var id := FindSlot();
      if id == MAX_SLOTS {
        return false, NoSpace;
      }
      ok := Command(GreAdd(id, Ends(cfg.local, r)));
      if !ok {
        return false, Other;
      }
      slots[id] := true;
      tunnels := tunnels[r := Tunnel(r, id, false, {}, {})];
      assert St() == Track(old(St()), r, id, w);
      ok := SetupTunnel(r);
      errno := Other;
    }

    method FindSlot() returns (id: nat)
      requires Shape()
      ensures id == FirstFree(slots[..], w.k, 0)
    {
      id := 0;
      while id < MAX_SLOTS && (slots[id] || Named(w.k, id))
        invariant id <= MAX_SLOTS
        invariant FirstFree(slots[..], w.k, 0) == FirstFree(slots[..], w.k, id)
      {
        id := id + 1;
      }
    }

    method SetupTunnel(r: Ip) returns (ok: bool)
      requires Shape() && r in tunnels
      modifies this, slots
      ensures Shape() && packets == old(packets) && ignored == old(ignored) && failures == old(failures)
      ensures Called(St(), ok, Other) == Setup(env, cfg, old(St()), r)
    {
      hide Leaked, InstallHooks, AttachPorts, Del, Enumerates;
      ok := AddTunnelHooks(r);
      if ok {
        ok := AttachBridges(tunnels[r].id);
      }
      if !ok {
        var _ := Remove(r);
        return;
      }
      tunnels := tunnels[r := tunnels[r].(ready := true)];
    }

    /** provision_tunnel_allow_mac: success means the client belongs to r and its frames pass the
        ports of r both ways; failure changes no table, and whatever happens the other clients
        keep their owner. A full tunnel costs no command. */
    method AllowClient(r: Ip, m: Mac) returns (ok: bool, errno: Errno)
      requires Valid() && !cleanupPending && r in tunnels
      modifies this`w, this`tunnels, this`macIndex
      ensures Valid()
      ensures ok ==>
        && old(tunnels)[r].ready && old(m in macIndex ==> macIndex[m] == r)
        && macIndex == old(macIndex)[m := r]
        && tunnels == old(tunnels)[r := old(tunnels)[r].(macs := old(tunnels)[r].macs + {m})]
        && Ingress(w.k, tunnels[r].id, m) && Egress(w.k, 1, tunnels[r].id, m) && Egress(w.k, 2, tunnels[r].id, m)
      ensures !ok ==> macIndex == old(macIndex) && tunnels == old(tunnels) && m !in tunnels[r].macs
      ensures !ok && tunnels[r].ready && !IsMulticast(m) ==>
        !Egress(w.k, 1, tunnels[r].id, m) && !Egress(w.k, 2, tunnels[r].id, m)
      ensures errno == NoSpace ==> !ok && w == old(w) && |tunnels[r].macs| == MAX_CLIENTS
      ensures Called(St(), ok, errno) == AllowMac(env, old(St()), r, m)
    {
      hide Leaked, Inv, Ingress, Egress, Enumerates, AllowMac;
      AllowOutcome(env, cfg, St(), r, m);
      ok, errno := AllowInPlace(r, m);
    }

    method AllowInPlace(r: Ip, m: Mac) returns (ok: bool, errno: Errno)
      requires Shape() && r in tunnels
      modifies this`w, this`tunnels, this`macIndex
      ensures Shape()
      ensures Called(St(), ok, errno) == AllowMac(env, old(St()), r, m)
    {
      hide Leaked, Enumerates;
      errno := Other;
      var t := tunnels[r];
      if !t.ready {
        return false, Other;
      }
      if m in t.macs {
        return true, Other;
      }
      if |t.macs| >= MAX_CLIENTS {
        return false, NoSpace;
      }
      if m in macIndex {
        return false, Other;
      }
      ok := Command(Insert(In, Accept(t.id, m)));
      if !ok {
        return;
      }
      ok := Command(Insert(Out, Accept(t.id, m)));
      if !ok {
        var _ := Command(Delete(In, Accept(t.id, m)));
        return;
      }
      tunnels := tunnels[r := t.(macs := t.macs + {m})];
      macIndex := macIndex[m := r];
    }

    method VlanMapped(vlan: nat) returns (mapped: bool)
      ensures mapped <==> Mapped(cfg, vlan)
    {
      mapped := false;
      for i := 0 to |cfg.bridges|
        invariant mapped <==> exists j :: 0 <= j < i && cfg.bridges[j].vlan == vlan
      {
        if cfg.bridges[i].vlan == vlan {
          mapped := true;
        }
      }
    }

    /** Find or create the tunnel, then learn the client. */
    method LearnClient(p: Packet) returns (ok: bool, errno: Errno)
      requires Valid() && !cleanupPending && Admitted(cfg, p.remote)
      modifies this, slots
      ensures Valid() && packets == old(packets) && ignored == old(ignored) && failures == old(failures)
      ensures Called(St(), ok, errno) == Learn(env, cfg, old(St()), p)
    {
      hide Leaked, Inv, Add, AllowMac, Admitted, Enumerates;
      AddKeeps(env, cfg, St(), p.remote);
      ok, errno := true, Other;
      if p.remote !in tunnels || !tunnels[p.remote].ready {
        ok, errno := AddTunnel(p.remote);
      }
      if ok && p.remote in tunnels && tunnels[p.remote].ready {
        ok, errno := AllowClient(p.remote, p.mac);
      } else {
        ok := false;
      }
    }

    /** provision_packet, at the given time of the monotonic clock. No packet takes a client away
        from its remote, and a learned packet's client belongs to its sender. */
    method OnPacket(p: Packet, now: int) returns (ghost verdict: Verdict)
      requires Valid()
      modifies this, slots
      ensures Valid() && cleanupPending == old(cleanupPending)
      ensures forall m :: m in old(macIndex) ==> m in macIndex && macIndex[m] == old(macIndex)[m]
      ensures verdict == Learned ==> p.mac in macIndex && macIndex[p.mac] == p.remote
      ensures verdict == Ignored <==>
        old(!Serviceable(cfg, St(), p) || (p.mac in macIndex && macIndex[p.mac] != p.remote))
      ensures verdict == Known <==>
        old(Serviceable(cfg, St(), p) && p.mac in macIndex && macIndex[p.mac] == p.remote)
      ensures verdict == BackedOff <==>
        old(Serviceable(cfg, St(), p) && p.mac !in macIndex && now < retryAfter)
      ensures verdict == Full <==>
        old(Serviceable(cfg, St(), p) && p.mac !in macIndex && retryAfter <= now && NoRoom(St(), p.remote))
      ensures verdict in {Ignored, Known, BackedOff, Full} ==> St() == old(St())
      ensures verdict == Failed ==> old(retryAfter) <= now && retryAfter == now + USEC_PER_SEC
      ensures Handled(St(), verdict) == HandlePacket(env, cfg, old(St()), p, now)
      ensures packets == old(packets) + 1
      ensures ignored == old(ignored) + (if verdict in {Ignored, Full} then 1 else 0)
      ensures failures == old(failures) + (if verdict == Failed then 1 else 0)
    {
      hide Leaked, Inv, HandlePacket, Enumerates, Serviceable, NoRoom;
      ghost var s := St();
      PacketSound(env, cfg, s, p, now);
      FailureArmsBackoff(env, cfg, s, p, now);
      VerdictExact(env, cfg, s, p, now);
      verdict := Dispose(p, now);
      if verdict == Learned {
        ClientKnown(cfg, St(), p.remote, p.mac);
      }
    }

    method Dispose(p: Packet, now: int) returns (ghost verdict: Verdict)
      requires Valid()
      modifies this, slots
      ensures Shape()
      ensures Handled(St(), verdict) == HandlePacket(env, cfg, old(St()), p, now)
      ensures packets == old(packets) + 1
      ensures ignored == old(ignored) + (if verdict in {Ignored, Full} then 1 else 0)
      ensures failures == old(failures) + (if verdict == Failed then 1 else 0)
    {
      hide Leaked, Inv, Learn, Admitted, Mapped, Enumerates;
      packets := packets + 1;
      if cleanupPending || p.local != cfg.local || !Admitted(cfg, p.remote) {
        ignored := ignored + 1;
        return Ignored;
      }
      var mapped := VlanMapped(p.vlan);
      if !mapped {
        ignored := ignored + 1;
        return Ignored;
      }
      if p.remote in tunnels && p.mac in tunnels[p.remote].macs {
        return Known;
      }
      if p.mac in macIndex {
        ignored := ignored + 1;
        return Ignored;
      }
      if now < retryAfter {
        return BackedOff;
      }
      var ok, errno := LearnClient(p);
      if ok {
        return Learned;
      }
      if errno == NoSpace {
        ignored := ignored + 1;
        return Full;
      }
      failures := failures + 1;
      retryAfter := now + USEC_PER_SEC;
      return Failed;
    }

    /** The loop of a full cleanup over the table. */
    method TakeAllDown() returns (ok: bool)
      requires Shape()
      modifies this`w, this`tunnels
      ensures Shape() && tunnels.Keys == old(tunnels.Keys)
      ensures forall r :: r in env.tunnelOrder(|old(w).log|, old(tunnels).Keys) ==> r in old(tunnels)
      ensures Called(St(), ok, Other) == TakeDown(env, old(St()), env.tunnelOrder(|old(w).log|, old(tunnels).Keys))
    {
      hide Leaked, TakeDownOne, Enumerates;
      ok := true;
      var order := env.tunnelOrder(|w.log|, tunnels.Keys);
      TableOrder(env, |w.log|, tunnels.Keys);
      ghost var keys := tunnels.Keys;
      ghost var c := TakeDown(env, St(), order);
      var i := 0;
      while i < |order|
        invariant i <= |order| && Shape() && tunnels.Keys == keys
        invariant c.s == TakeDown(env, St(), order[i..]).s
        invariant c.ok == (ok && TakeDown(env, St(), order[i..]).ok)
      {
        var r := order[i];
        assert order[i..][0] == r && order[i..][1..] == order[i + 1..];
        var down := TakeTunnelDown(r);
        if !down {
          ok := false;
        }
        i := i + 1;
      }
    }

    /** provision_delall: either something failed, and every client still has its owner while the
        cleanup stays pending, or nothing of any tunnel is left. */
    method Clean()
      requires Valid()
      modifies this, slots
      ensures Valid() && packets == old(packets) && ignored == old(ignored) && failures == old(failures)
      ensures cleanupPending ==> retryAfter == old(retryAfter) && macIndex == old(macIndex)
      ensures !cleanupPending ==>
        && tunnels == map[] && macIndex == map[] && retryAfter == 0
        && (forall i :: 0 <= i < MAX_SLOTS ==> !slots[i])
        && w.k == Kernel(w.k.foreign, map[], {}, map[], multiset{}, IN_DEFAULTS, OUT_DEFAULTS)
      ensures St() == DelAll(env, old(St()))
    {
      hide Leaked, Inv, DelAll, Enumerates;
      DelAllSound(env, cfg, St());
      CleanInPlace();
      assert !cleanupPending ==> forall i :: 0 <= i < MAX_SLOTS ==> slots[i] == slots[..][i];
    }

    method CleanInPlace()
      requires Shape()
      modifies this, slots
      ensures Shape() && packets == old(packets) && ignored == old(ignored) && failures == old(failures)
      ensures St() == DelAll(env, old(St()))
    {
      hide Leaked, TakeDown, ResetChains, Enumerates;
      cleanupPending := true;
      var ok := TakeAllDown();
      if ok {
        var reset := ResetOwnedChains();
        if reset {
          macIndex := map[];
          tunnels := map[];
          forall j | 0 <= j < slots.Length {
            slots[j] := false;
          }
          assert slots[..] == seq(MAX_SLOTS, _ => false);
          cleanupPending := false;
          retryAfter := 0;
        }
      }
    }

    method TakeTunnelDown(r: Ip) returns (ok: bool)
      requires Shape() && r in tunnels
      modifies this`w, this`tunnels
      ensures Shape() && tunnels.Keys == old(tunnels.Keys)
      ensures Called(St(), ok, Other) == TakeDownOne(env, old(St()), r)
    {
      hide Leaked, RemoveHooks, Enumerates;
      tunnels := tunnels[r := tunnels[r].(ready := false)];
      var gone, errno := GreDelete(tunnels[r].id);
      if !gone && errno != NoDev {
        return false;
      }
      ok := DelTunnelHooks(r);
    }

    /** chain_defaults */
    method DefaultRules() returns (ok: bool)
      modifies this`w
      ensures Done(w, ok) == ChainDefaults(env, old(w))
    {
      hide Leaked;
      ok := Command(Append(Out, Multicast));
      if ok {
        ok := Command(Append(In, Drop));
        if ok {
          ok := Command(Append(Out, Drop));
        }
      }
    }

    /** iface_ebtables_reset: success leaves the default rules and nothing else, failure leaves
        each chain as it was, emptied, or filled with defaults only. Without tunnel interfaces
        every step of it is safe. */
    method ResetOwnedChains() returns (ok: bool)
      modifies this`w
      ensures ok ==> w.k == old(w).k.(inChain := IN_DEFAULTS, outChain := OUT_DEFAULTS) && Leaked(w.log) == {}
      ensures !ok ==>
        && w.k == old(w).k.(inChain := w.k.inChain, outChain := w.k.outChain)
        && (w.k.inChain == old(w).k.inChain || w.k.inChain <= IN_DEFAULTS)
        && (w.k.outChain == old(w).k.outChain || w.k.outChain <= OUT_DEFAULTS)
      ensures old(w).k.devs == map[] && old(w).k.attached == map[] && AllFenced(old(w).log) ==> AllFenced(w.log)
      ensures Done(w, ok) == ResetChains(env, old(w))
    {
      hide Leaked, ChainDefaults, AllFenced;
      ghost var w0 := w;
      ResetOutcome(env, w);
      if w.k.devs == map[] && w.k.attached == map[] && AllFenced(w.log) {
        ResetChainsSound(env, w);
      }
      ok := Command(Flush(In));
      if !ok {
        return;
      }
      ok := Command(Flush(Out));
      if !ok {
        return;
      }
      ok := DefaultRules();
    }

    /** A whole run of the daemon, event by event: after each of its commands, failed or not, no
        port was on a bridge without its firewall. */
    method Live(events: seq<Event>)
      requires Valid()
      modifies this, slots
      ensures Valid() && AllFenced(w.log)
      ensures St() == Run(env, cfg, old(St()), events)
    {
      hide Step, Enumerates, Core, Inv;
      var i := 0;
      assert events[0..] == events;
      while i < |events|
        invariant i <= |events| && Valid()
        invariant Run(env, cfg, old(St()), events) == Run(env, cfg, St(), events[i..])
      {
        var e := events[i];
        assert events[i..][0] == e && events[i..][1..] == events[i + 1..];
        OnEvent(e);
        i := i + 1;
      }
      FencedSoFar(cfg, St());
    }

    method OnEvent(e: Event)
      requires Valid()
      modifies this, slots
      ensures Valid() && St() == Step(env, cfg, old(St()), e)
    {
      hide HandlePacket, DelAll, Enumerates, Inv;
      match e {
        case Captured(p, now) =>
          ghost var _ := OnPacket(p, now);
        case Cleanup =>
          Clean();
      }
    }
  }

  lemma FencedSoFar(cfg: Config, s: State)
    requires Inv(cfg, s)
    ensures AllFenced(s.w.log)
  {}
}
