/** What every single command of every run leaves behind: fenced ports, and exactly when the owned
    chains end in DROP. */
module ProvisionChains {
  import opened Types
  import opened Kernel
  import opened Firewall
  import opened Provision
  import opened ProvisionInvariant
  import opened ProvisionCalls
  import opened ProvisionTheorems

  /** A command that rewrites the end of an owned chain. */
  predicate Rewrites(cmd: Command, c: Chain) { (cmd.Flush? || cmd.Append?) && cmd.chain == c }

  /** The last command that took effect on the end of the chain appended its DROP. */
  ghost predicate Standing(log: seq<Entry>, c: Chain) {
    exists i ::
      && 0 <= i < |log| && log[i].ok && log[i].cmd == Append(c, Drop)
      && forall j :: i < j < |log| && log[j].ok ==> !Rewrites(log[j].cmd, c)
  }

  lemma StandingExtends(log: seq<Entry>, e: Entry, c: Chain)
    ensures Standing(log + [e], c) <==>
      if e.ok && Rewrites(e.cmd, c) then e.cmd == Append(c, Drop) else Standing(log, c)
  {
    var log' := log + [e];
    assert log'[|log|] == e;
    if Standing(log, c) && !(e.ok && Rewrites(e.cmd, c)) {
      var i :| 0 <= i < |log| && log[i].ok && log[i].cmd == Append(c, Drop)
               && forall j :: i < j < |log| && log[j].ok ==> !Rewrites(log[j].cmd, c);
      assert log'[i].ok && log'[i].cmd == Append(c, Drop);
    }
    if Standing(log', c) && !(e.ok && Rewrites(e.cmd, c)) {
      var i :| 0 <= i < |log'| && log'[i].ok && log'[i].cmd == Append(c, Drop)
               && forall j :: i < j < |log'| && log'[j].ok ==> !Rewrites(log'[j].cmd, c);
      assert i < |log| && log[i].ok && log[i].cmd == Append(c, Drop);
      forall j | i < j < |log| && log[j].ok ensures !Rewrites(log[j].cmd, c) {
        assert log'[j] == log[j];
      }
    }
  }

  /** A DROP is nowhere but at the end, and is there exactly when the log says so. */
  ghost predicate Tailed(k: Kernel, log: seq<Entry>) {
    forall c: Chain ::
      && (Drop in Rules(k, c) <==> EndsInDrop(Rules(k, c)))
      && (EndsInDrop(Rules(k, c)) <==> Standing(log, c))
  }

  ghost predicate AllTailed(w: World) {
    && Tailed(w.k, w.log)
    && forall i :: 0 <= i < |w.log| ==> Tailed(w.log[i].after, w.log[..i + 1])
  }

  /** The commands the daemon sends: accept rules at the front, defaults behind a chain that has
      no DROP yet. */
  ghost predicate Orderly(k: Kernel, cmd: Command) {
    match cmd
    case Insert(_, r) => r.Accept?
    case Delete(_, r) => r.Accept?
    case Append(c, _) => Drop !in Rules(k, c)
    case _ => true
  }

  lemma {:induction false} RemoveAccept(rules: seq<Rule>, r: Rule)
    requires r.Accept?
    ensures Drop in RemoveFirst(rules, r) <==> Drop in rules
    ensures EndsInDrop(rules) ==> EndsInDrop(RemoveFirst(rules, r))
    ensures Drop !in rules ==> !EndsInDrop(RemoveFirst(rules, r))
    decreases |rules|
  {
    if rules != [] && rules[0] != r {
      RemoveAccept(rules[1..], r);
    }
  }

  lemma ExecTailed(env: Env, w: World, cmd: Command)
    requires AllTailed(w) && Orderly(w.k, cmd)
    ensures AllTailed(Exec(env, w, cmd).w)
  {
    hide Standing, RemoveFirst, Leaked, ChainAfter, EndsInDrop, Rules, Apply;
    var d := Exec(env, w, cmd);
    var e := Entry(cmd, d.ok, d.w.k);
    assert d.w.log == w.log + [e];
    forall c: Chain
      ensures Drop in Rules(d.w.k, c) <==> EndsInDrop(Rules(d.w.k, c))
      ensures EndsInDrop(Rules(d.w.k, c)) <==> Standing(d.w.log, c)
    {
      StandingExtends(w.log, e, c);
      if d.ok {
        TailAfter(w.k, cmd, c);
        RulesAfter(w.k, cmd, c);
      }
    }
    forall i | 0 <= i < |d.w.log| ensures Tailed(d.w.log[i].after, d.w.log[..i + 1]) {
      if i < |w.log| {
        assert d.w.log[..i + 1] == w.log[..i + 1];
      } else {
        assert d.w.log[..i + 1] == d.w.log;
      }
    }
  }

  /** What a command that takes effect makes of one chain. */
  ghost function ChainAfter(rules: seq<Rule>, cmd: Command, c: Chain): seq<Rule> {
    match cmd
    case Insert(d, r) => if c == d then [r] + rules else rules
    case Append(d, r) => if c == d then rules + [r] else rules
    case Delete(d, r) => if c == d then RemoveFirst(rules, r) else rules
    case Flush(d) => if c == d then [] else rules
    case _ => rules
  }

  lemma RulesAfter(k: Kernel, cmd: Command, c: Chain)
    requires Apply(k, cmd).Some?
    ensures Rules(Apply(k, cmd).value, c) == ChainAfter(Rules(k, c), cmd, c)
  {
    hide RemoveFirst;
  }

  /** What one command does to the DROP at the end of a chain. */
  lemma TailAfter(k: Kernel, cmd: Command, c: Chain)
    requires Orderly(k, cmd) && (Drop in Rules(k, c) <==> EndsInDrop(Rules(k, c)))
    ensures var rules := ChainAfter(Rules(k, c), cmd, c);
      && (Drop in rules <==> EndsInDrop(rules))
      && (EndsInDrop(rules) <==> if Rewrites(cmd, c) then cmd == Append(c, Drop) else EndsInDrop(Rules(k, c)))
  {
    hide RemoveFirst, EndsInDrop, Rules;
    var rules := Rules(k, c);
    match cmd
    case Insert(d, r) => InsertTail(rules, r);
    case Append(d, r) => if c == d { AppendTail(rules, r); }
    case Delete(d, r) => RemoveAccept(rules, r);
    case _ => EmptyTail();
  }

  lemma InsertTail(rules: seq<Rule>, r: Rule)
    requires r.Accept?
    ensures Drop in [r] + rules <==> Drop in rules
    ensures EndsInDrop([r] + rules) <==> EndsInDrop(rules)
  {}

  lemma AppendTail(rules: seq<Rule>, r: Rule)
    requires Drop !in rules
    ensures (Drop in rules + [r] <==> r == Drop) && (EndsInDrop(rules + [r]) <==> r == Drop)
  {}

  lemma EmptyTail()
    ensures !EndsInDrop([])
  {}

  // ---- every call sends orderly commands only ----

  lemma {:induction false} InstallHooksTailed(env: Env, w: World, id: nat, hooks: set<nat>, i: nat)
    requires i <= HOOKS && AllTailed(w)
    ensures AllTailed(InstallHooks(env, w, id, hooks, i).w)
    decreases HOOKS - i
  {
    hide AllTailed, Exec;
    if i < HOOKS {
      var d := Exec(env, w, JumpAdd(Jump(id, i)));
      ExecTailed(env, w, JumpAdd(Jump(id, i)));
      if i in hooks {
        InstallHooksTailed(env, w, id, hooks, i + 1);
      } else if d.ok {
        InstallHooksTailed(env, d.w, id, hooks + {i}, i + 1);
      }
    }
  }

  lemma {:induction false} RemoveHooksTailed(env: Env, w: World, id: nat, hooks: set<nat>, i: nat)
    requires i <= HOOKS && AllTailed(w)
    ensures AllTailed(RemoveHooks(env, w, id, hooks, i).w)
    decreases HOOKS - i
  {
    hide AllTailed, Exec;
    if i < HOOKS {
      var d := Exec(env, w, JumpDel(Jump(id, i)));
      ExecTailed(env, w, JumpDel(Jump(id, i)));
      if i in hooks {
        RemoveHooksTailed(env, d.w, id, if d.ok then hooks - {i} else hooks, i + 1);
      } else {
        RemoveHooksTailed(env, w, id, hooks, i + 1);
      }
    }
  }

  lemma AttachPortTailed(env: Env, w: World, id: nat, b: Bridge)
    requires AllTailed(w)
    ensures AllTailed(AttachPort(env, w, id, b).w)
  {
    hide AllTailed, Exec;
    var p := Port(id, b.vlan);
    ExecTailed(env, w, VlanAdd(p));
    ExecTailed(env, Exec(env, w, VlanAdd(p)).w, Enslave(p, b.ifname));
  }

  lemma {:induction false} AttachPortsTailed(env: Env, w: World, id: nat, bridges: seq<Bridge>)
    requires AllTailed(w)
    ensures AllTailed(AttachPorts(env, w, id, bridges).w)
    decreases |bridges|
  {
    hide AllTailed, AttachPort;
    if bridges != [] {
      AttachPortTailed(env, w, id, bridges[0]);
      AttachPortsTailed(env, AttachPort(env, w, id, bridges[0]).w, id, bridges[1..]);
    }
  }

  lemma AllowRulesTailed(env: Env, w: World, id: nat, m: Mac)
    requires AllTailed(w)
    ensures AllTailed(AllowRules(env, w, id, m).w)
  {
    hide AllTailed, Exec;
    var r := Accept(id, m);
    ExecTailed(env, w, Insert(In, r));
    var a := Exec(env, w, Insert(In, r));
    ExecTailed(env, a.w, Insert(Out, r));
    var b := Exec(env, a.w, Insert(Out, r));
    ExecTailed(env, b.w, Delete(In, r));
  }

  lemma RevokeRulesTailed(env: Env, w: World, id: nat, m: Mac)
    requires AllTailed(w)
    ensures AllTailed(RevokeRules(env, w, id, m).w)
  {
    hide AllTailed, Exec;
    var r := Accept(id, m);
    ExecTailed(env, w, Delete(In, r));
    ExecTailed(env, Exec(env, w, Delete(In, r)).w, Delete(Out, r));
  }

  lemma ChainDefaultsTailed(env: Env, w: World)
    requires AllTailed(w) && w.k.inChain == [] && w.k.outChain == []
    ensures AllTailed(ChainDefaults(env, w).w)
  {
    hide AllTailed, Leaked;
    ExecTailed(env, w, Append(Out, Multicast));
    var a := Exec(env, w, Append(Out, Multicast));
    ExecTailed(env, a.w, Append(In, Drop));
    var b := Exec(env, a.w, Append(In, Drop));
    if a.ok {
      assert b.w.k.outChain == [Multicast];
      ExecTailed(env, b.w, Append(Out, Drop));
    }
  }

  lemma ResetChainsTailed(env: Env, w: World)
    requires AllTailed(w)
    ensures AllTailed(ResetChains(env, w).w)
  {
    hide AllTailed, Leaked, ChainDefaults;
    ExecTailed(env, w, Flush(In));
    var a := Exec(env, w, Flush(In));
    ExecTailed(env, a.w, Flush(Out));
    var b := Exec(env, a.w, Flush(Out));
    if a.ok && b.ok {
      ChainDefaultsTailed(env, b.w);
    }
  }

  lemma DeleteGreTailed(env: Env, w: World, id: nat)
    requires AllTailed(w)
    ensures AllTailed(DeleteGre(env, w, id).0.w)
  {
    hide AllTailed, Exec;
    ExecTailed(env, w, GreDel(id));
  }

  lemma {:induction false} DropMacsTailed(env: Env, s: State, r: Ip, order: seq<Mac>)
    requires r in s.tunnels && AllTailed(s.w)
    ensures AllTailed(DropMacs(env, s, r, order).s.w)
    decreases |order|
  {
    hide AllTailed, RevokeRules;
    if order != [] {
      var t, m := s.tunnels[r], order[0];
      RevokeRulesTailed(env, s.w, t.id, m);
      var d := RevokeRules(env, s.w, t.id, m);
      if d.ok {
        DropMacsTailed(env, s.(w := d.w, macIndex := s.macIndex - {m},
                               tunnels := s.tunnels[r := t.(macs := t.macs - {m})]), r, order[1..]);
      }
    }
  }

  lemma DelTailed(env: Env, s: State, r: Ip)
    requires AllTailed(s.w)
    ensures AllTailed(Del(env, s, r).s.w)
  {
    hide AllTailed, DeleteGre, DropMacs, RemoveHooks;
    if r in s.tunnels {
      DeleteGreTailed(env, s.w, s.tunnels[r].id);
      var (g, e) := DeleteGre(env, s.w, s.tunnels[r].id);
      var order := env.macOrder(|g.w.log|, s.tunnels[r].macs);
      DropMacsTailed(env, s.(w := g.w), r, order);
      var m := DropMacs(env, s.(w := g.w), r, order);
      RemoveHooksTailed(env, m.s.w, m.s.tunnels[r].id, m.s.tunnels[r].hooks, 0);
    }
  }

  lemma SetupTailed(env: Env, cfg: Config, s: State, r: Ip)
    requires r in s.tunnels && AllTailed(s.w)
    ensures AllTailed(Setup(env, cfg, s, r).s.w)
  {
    hide AllTailed, InstallHooks, AttachPorts, Del;
    var t := s.tunnels[r];
    InstallHooksTailed(env, s.w, t.id, t.hooks, 0);
    var s1 := SetHooks(s, r, InstallHooks(env, s.w, t.id, t.hooks, 0));
    DelTailed(env, s1, r);
    AttachPortsTailed(env, s1.w, t.id, cfg.bridges);
    DelTailed(env, s1.(w := AttachPorts(env, s1.w, t.id, cfg.bridges).w), r);
  }

  lemma CreateTailed(env: Env, cfg: Config, s: State, r: Ip)
    requires AllTailed(s.w)
    ensures AllTailed(Create(env, cfg, s, r).s.w)
  {
    hide AllTailed, Exec, Setup;
    var id := FirstFree(s.slots, s.w.k, 0);
    if id < |s.slots| {
      ExecTailed(env, s.w, GreAdd(id, Ends(cfg.local, r)));
      SetupTailed(env, cfg, Track(s, r, id, Exec(env, s.w, GreAdd(id, Ends(cfg.local, r))).w), r);
    }
  }

  lemma AddTailed(env: Env, cfg: Config, s: State, r: Ip)
    requires AllTailed(s.w)
    ensures AllTailed(Add(env, cfg, s, r).s.w)
  {
    hide AllTailed, Del, Create;
    DelTailed(env, s, r);
    CreateTailed(env, cfg, Del(env, s, r).s, r);
  }

  lemma LearnTailed(env: Env, cfg: Config, s: State, p: Packet)
    requires AllTailed(s.w)
    ensures AllTailed(Learn(env, cfg, s, p).s.w)
  {
    hide AllTailed, Add, AllowRules;
    AddTailed(env, cfg, s, p.remote);
    var a := if p.remote in s.tunnels && s.tunnels[p.remote].ready then s else Add(env, cfg, s, p.remote).s;
    if p.remote in a.tunnels {
      AllowRulesTailed(env, a.w, a.tunnels[p.remote].id, p.mac);
    }
  }

  lemma TakeDownOneTailed(env: Env, s: State, r: Ip)
    requires r in s.tunnels && AllTailed(s.w)
    ensures AllTailed(TakeDownOne(env, s, r).s.w)
  {
    hide AllTailed, DeleteGre, RemoveHooks;
    var t := s.tunnels[r];
    DeleteGreTailed(env, s.w, t.id);
    RemoveHooksTailed(env, DeleteGre(env, s.w, t.id).0.w, t.id, t.hooks, 0);
  }

  lemma {:induction false} TakeDownTailed(env: Env, s: State, order: seq<Ip>)
    requires (forall i :: 0 <= i < |order| ==> order[i] in s.tunnels) && AllTailed(s.w)
    ensures AllTailed(TakeDown(env, s, order).s.w)
    decreases |order|
  {
    hide AllTailed, TakeDownOne;
    if order != [] {
      TakeDownOneTailed(env, s, order[0]);
      TakeDownTailed(env, TakeDownOne(env, s, order[0]).s, order[1..]);
    }
  }

  lemma StepTailed(env: Env, cfg: Config, s: State, e: Event)
    requires env.Valid() && AllTailed(s.w)
    ensures AllTailed(Step(env, cfg, s, e).w)
  {
    hide AllTailed, Learn, TakeDown, ResetChains, Admitted, Mapped;
    match e
    case Captured(p, now) =>
      LearnTailed(env, cfg, s, p);
    case Cleanup =>
      var order := env.tunnelOrder(|s.w.log|, s.tunnels.Keys);
      assert Enumerates(order, s.tunnels.Keys);
      var s0 := s.(cleanupPending := true);
      TakeDownTailed(env, s0, order);
      ResetChainsTailed(env, TakeDown(env, s0, order).s.w);
  }

  lemma {:induction false} RunTailed(env: Env, cfg: Config, s: State, events: seq<Event>)
    requires env.Valid() && AllTailed(s.w)
    ensures AllTailed(Run(env, cfg, s, events).w)
    decreases |events|
  {
    hide AllTailed, Step;
    if events != [] {
      StepTailed(env, cfg, s, events[0]);
      RunTailed(env, cfg, Step(env, cfg, s, events[0]), events[1..]);
    }
  }

  lemma ReachableTailed(env: Env, cfg: Config, foreign: set<nat>, events: seq<Event>, s: State)
    requires Reachable(env, cfg, foreign, events, s)
    ensures AllTailed(s.w)
  {
    hide Run, ChainDefaults, Standing;
    var w := World(Kernel(foreign, map[], {}, map[], multiset{}, [], []), []);
    NothingStands();
    ChainDefaultsTailed(env, w);
    RunTailed(env, cfg, Boot(env, foreign).value, events);
  }

  lemma NothingStands()
    ensures forall c: Chain :: !Standing([], c)
  {}

  /** After every single command of every run, whatever failed before:
      - a port on a bridge has its three jumps in place, and both owned chains end in DROP;
      - an owned chain ends in DROP if and only if the last command that took effect on its end
        was the one that appends the DROP, so it does not exactly between a flush and the
        return of its default rules;
      - and that is never so while a tunnel interface exists. */
  lemma EveryCommandFenced(env: Env, cfg: Config, foreign: set<nat>, events: seq<Event>, s: State, i: nat)
    requires Reachable(env, cfg, foreign, events, s) && i < |s.w.log|
    ensures var k, done := s.w.log[i].after, s.w.log[..i + 1];
      && (forall p :: p in k.attached ==> Guarded(k, p.id))
      && (forall c: Chain :: EndsInDrop(Rules(k, c)) <==> Standing(done, c))
      && (k.devs != map[] ==> Standing(done, In) && Standing(done, Out))
  {
    ReachableTailed(env, cfg, foreign, events, s);
    ReachableSound(env, cfg, foreign, events, s);
    hide Reachable, Standing, Tables, Indexed, Hooks, Links, RulesExact, Admitted;
    var k := s.w.log[i].after;
    assert Fenced(k) && Tailed(k, s.w.log[..i + 1]);
    assert Rules(k, In) == k.inChain && Rules(k, Out) == k.outChain;
  }

  /** Whenever no cleanup is pending, both chains end in DROP. */
  lemma ServingEndsInDrop(env: Env, cfg: Config, foreign: set<nat>, events: seq<Event>, s: State)
    requires Reachable(env, cfg, foreign, events, s) && !s.cleanupPending
    ensures EndsInDrop(s.w.k.inChain) && EndsInDrop(s.w.k.outChain)
  {
    hide Reachable, Core;
    ReachableSound(env, cfg, foreign, events, s);
    DropsOf(cfg, s);
  }
}
