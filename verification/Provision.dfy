/** The provisioning state machine: what each call does to the tables and to the kernel. */
module Provision {
  import opened Types
  import opened Kernel
  import opened Firewall
  import opened Cidr

  const MAX_SLOTS := 4096
  const MAX_CLIENTS := 1024
  const USEC_PER_SEC := 1_000_000

  datatype Config = Config(local: Ip, allow: seq<Network>, bridges: seq<Bridge>)

  datatype Tunnel = Tunnel(remote: Ip, id: nat, ready: bool, hooks: set<nat>, macs: set<Mac>)

  datatype State = State(
    tunnels: map<Ip, Tunnel>,
    macIndex: map<Mac, Ip>,     // the record a client belongs to, named by its remote
    slots: seq<bool>,
    retryAfter: int,
    cleanupPending: bool,
    w: World)

  /** The two values of errno that change a decision. */
  datatype Errno = NoSpace | NoDev | Other

  datatype Called = Called(s: State, ok: bool, errno: Errno)

  /** How provision_packet disposed of a packet. */
  datatype Verdict = Ignored | Known | BackedOff | Learned | Full | Failed

  datatype Handled = Handled(s: State, verdict: Verdict)

  /** The kernel looks the name up first, so an absent interface costs no command. */
  function DeleteGre(env: Env, w: World, id: nat): (Done, Errno) {
    if !Named(w.k, id) then (Done(w, false), NoDev)
    else (Exec(env, w, GreDel(id)), Other)
  }

  /** Forget the clients of r one by one, stopping at the first rule that stays. */
  function DropMacs(env: Env, s: State, r: Ip, order: seq<Mac>): (c: Called)
    requires r in s.tunnels
    ensures r in c.s.tunnels
    decreases |order|
  {
    if order == [] then Called(s, true, Other)
    else
      var t := s.tunnels[r];
      var d := RevokeRules(env, s.w, t.id, order[0]);
      if !d.ok then Called(s.(w := d.w), false, Other)
      else
        var t' := t.(macs := t.macs - {order[0]});
        DropMacs(env, s.(w := d.w, macIndex := s.macIndex - {order[0]}, tunnels := s.tunnels[r := t']),
                 r, order[1..])
  }

  function SetHooks(s: State, r: Ip, h: Hooked): State
    requires r in s.tunnels
  {
    s.(w := h.w, tunnels := s.tunnels[r := s.tunnels[r].(hooks := h.hooks)])
  }

  /** Release the slot and the record of r. Every recorded id is a slot number. */
  function Forget(s: State, r: Ip): State
    requires r in s.tunnels
  {
    var id := s.tunnels[r].id;
    s.(slots := if id < |s.slots| then s.slots[id := false] else s.slots, tunnels := s.tunnels - {r})
  }

  function Del(env: Env, s: State, r: Ip): Called {
    if r !in s.tunnels then Called(s, true, Other)
    else
      var (g, e) := DeleteGre(env, s.w, s.tunnels[r].id);
      if !g.ok && e != NoDev then Called(s.(w := g.w), false, Other)
      else
        var m := DropMacs(env, s.(w := g.w), r, env.macOrder(|g.w.log|, s.tunnels[r].macs));
        if !m.ok then m
        else
          var h := RemoveHooks(env, m.s.w, m.s.tunnels[r].id, m.s.tunnels[r].hooks, 0);
          var s' := SetHooks(m.s, r, h);
          if !h.ok then Called(s', false, Other) else Called(Forget(s', r), true, Other)
  }

  /** The first id from i on whose slot is free and whose interface name is not taken. */
  function FirstFree(slots: seq<bool>, k: Kernel, i: nat): (id: nat)
    requires i <= |slots|
    ensures i <= id <= |slots|
    ensures id < |slots| ==> !slots[id] && !Named(k, id)
    ensures forall j :: i <= j < id ==> slots[j] || Named(k, j)
    decreases |slots| - i
  {
    if i == |slots| || (!slots[i] && !Named(k, i)) then i else FirstFree(slots, k, i + 1)
  }

  /** Record a tunnel whose interface has just been created. */
  function Track(s: State, r: Ip, id: nat, w: World): State
    requires id < |s.slots|
  {
    s.(w := w, slots := s.slots[id := true], tunnels := s.tunnels[r := Tunnel(r, id, false, {}, {})])
  }

  /** Firewall first, then the ports; anything that fails is rolled back by Del. */
  function Setup(env: Env, cfg: Config, s: State, r: Ip): Called
    requires r in s.tunnels
  {
    var h := InstallHooks(env, s.w, s.tunnels[r].id, s.tunnels[r].hooks, 0);
    var s' := SetHooks(s, r, h);
    if !h.ok then Called(Del(env, s', r).s, false, Other) else SetupPorts(env, cfg, s', r)
  }

  function SetupPorts(env: Env, cfg: Config, s: State, r: Ip): Called
    requires r in s.tunnels
  {
    var p := AttachPorts(env, s.w, s.tunnels[r].id, cfg.bridges);
    var s' := s.(w := p.w);
    if !p.ok then Called(Del(env, s', r).s, false, Other)
    else Called(s'.(tunnels := s'.tunnels[r := s'.tunnels[r].(ready := true)]), true, Other)
  }

  function Create(env: Env, cfg: Config, s: State, r: Ip): Called {
    var id := FirstFree(s.slots, s.w.k, 0);
    if id == |s.slots| then Called(s, false, NoSpace)
    else
      var g := Exec(env, s.w, GreAdd(id, Ends(cfg.local, r)));
      if !g.ok then Called(s.(w := g.w), false, Other)
      else Setup(env, cfg, Track(s, r, id, g.w), r)
  }

  function Add(env: Env, cfg: Config, s: State, r: Ip): Called {
    if s.cleanupPending then Called(s, false, Other)
    else if r in s.tunnels && s.tunnels[r].ready then Called(s, true, Other)
    else
      var d := Del(env, s, r);
      if r in s.tunnels && !d.ok then Called(d.s, false, Other)
      else Create(env, cfg, d.s, r)
  }

  function AllowMac(env: Env, s: State, r: Ip, m: Mac): Called
    requires r in s.tunnels
  {
    var t := s.tunnels[r];
    if !t.ready then Called(s, false, Other)
    else if m in t.macs then Called(s, true, Other)
    else if |t.macs| >= MAX_CLIENTS then Called(s, false, NoSpace)
    else if m in s.macIndex then Called(s, false, Other)
    else
      var d := AllowRules(env, s.w, t.id, m);
      if !d.ok then Called(s.(w := d.w), false, Other)
      else Called(s.(w := d.w, tunnels := s.tunnels[r := t.(macs := t.macs + {m})],
                     macIndex := s.macIndex[m := r]), true, Other)
  }

  predicate Admitted(cfg: Config, r: Ip) {
    r != cfg.local && !Unroutable(r) && RemoteAllowed(cfg.allow, r)
  }

  predicate Mapped(cfg: Config, vlan: nat) {
    exists i :: 0 <= i < |cfg.bridges| && cfg.bridges[i].vlan == vlan
  }

  /** The packet passes every check that needs neither the kernel nor a free table entry. */
  predicate Eligible(cfg: Config, s: State, p: Packet, now: int) {
    && !s.cleanupPending
    && p.local == cfg.local && Admitted(cfg, p.remote) && Mapped(cfg, p.vlan)
    && !(p.remote in s.tunnels && p.mac in s.tunnels[p.remote].macs)
    && p.mac !in s.macIndex
    && s.retryAfter <= now
  }

  /** Find or create the tunnel, then learn the client. */
  function Learn(env: Env, cfg: Config, s: State, p: Packet): Called {
    var a := if p.remote in s.tunnels && s.tunnels[p.remote].ready then Called(s, true, Other)
             else Add(env, cfg, s, p.remote);
    if a.ok && p.remote in a.s.tunnels && a.s.tunnels[p.remote].ready
    then AllowMac(env, a.s, p.remote, p.mac)
    else Called(a.s, false, a.errno)
  }

  function HandlePacket(env: Env, cfg: Config, s: State, p: Packet, now: int): Handled {
    if s.cleanupPending || p.local != cfg.local || !Admitted(cfg, p.remote) || !Mapped(cfg, p.vlan)
    then Handled(s, Ignored)
    else if p.remote in s.tunnels && p.mac in s.tunnels[p.remote].macs then Handled(s, Known)
    else if p.mac in s.macIndex then Handled(s, Ignored)
    else if now < s.retryAfter then Handled(s, BackedOff)
    else
      var c := Learn(env, cfg, s, p);
      if c.ok then Handled(c.s, Learned)
      else if c.errno == NoSpace then Handled(c.s, Full)
      else Handled(c.s.(retryAfter := now + USEC_PER_SEC), Failed)
  }

  /** Take the interface and the jumps of every listed tunnel down; go on after a failure. */
  function TakeDown(env: Env, s: State, order: seq<Ip>): (c: Called)
    requires forall i :: 0 <= i < |order| ==> order[i] in s.tunnels
    decreases |order|
  {
    if order == [] then Called(s, true, Other)
    else
      var one := TakeDownOne(env, s, order[0]);
      var rest := TakeDown(env, one.s, order[1..]);
      Called(rest.s, one.ok && rest.ok, Other)
  }

  function TakeDownOne(env: Env, s: State, r: Ip): (c: Called)
    requires r in s.tunnels
    ensures c.s.tunnels.Keys == s.tunnels.Keys
  {
    var t := s.tunnels[r].(ready := false);
    var s0 := s.(tunnels := s.tunnels[r := t]);
    var (g, e) := DeleteGre(env, s.w, t.id);
    if !g.ok && e != NoDev then Called(s0.(w := g.w), false, Other)
    else
      var h := RemoveHooks(env, g.w, t.id, t.hooks, 0);
      Called(SetHooks(s0.(w := g.w), r, h), h.ok, Other)
  }

  function DelAll(env: Env, s: State): State
    requires env.Valid()
  {
    var c := TakeDown(env, s.(cleanupPending := true), env.tunnelOrder(|s.w.log|, s.tunnels.Keys));
    if !c.ok then c.s
    else
      var d := ResetChains(env, c.s.w);
      if !d.ok then c.s.(w := d.w)
      else State(map[], map[], seq(MAX_SLOTS, _ => false), 0, false, d.w)
  }

  datatype Event = Captured(packet: Packet, now: int) | Cleanup

  function Step(env: Env, cfg: Config, s: State, e: Event): State
    requires env.Valid()
  {
    match e
    case Captured(p, now) => HandlePacket(env, cfg, s, p, now).s
    case Cleanup => DelAll(env, s)
  }

  function Run(env: Env, cfg: Config, s: State, events: seq<Event>): State
    requires env.Valid()
    decreases |events|
  {
    if events == [] then s else Run(env, cfg, Step(env, cfg, s, events[0]), events[1..])
  }

  /** The daemon starts once the default rules are in its two new, empty chains. */
  function Boot(env: Env, foreign: set<nat>): Option<State> {
    var d := ChainDefaults(env, World(Kernel(foreign, map[], {}, map[], multiset{}, [], []), []));
    if d.ok then Some(State(map[], map[], seq(MAX_SLOTS, _ => false), 0, false, d.w)) else None
  }
}
