/** A full cleanup goes on after a failure: which tunnels it has taken down when it stays pending. */
module ProvisionCleanup {
  import opened Types
  import opened Kernel
  import opened Firewall
  import opened Provision
  import opened ProvisionInvariant
  import opened ProvisionCalls
  import opened ProvisionTheorems
  import opened ProvisionRollback

  /** A command that takes something of tunnel id away. */
  predicate Own(cmd: Command, id: nat) { cmd == GreDel(id) || (cmd.JumpDel? && cmd.jump.id == id) }

  /** One of the tunnel's own commands, from position n of the log on, failed. */
  ghost predicate OwnFailed(log: seq<Entry>, n: nat, id: nat) {
    exists i :: n <= i < |log| && Own(log[i].cmd, id) && !log[i].ok
  }

  /** The commands between two worlds belong to the given tunnels, and no other interface went. */
  ghost predicate Tries(w: World, w': World, ids: set<nat>) {
    && w.log <= w'.log
    && (forall i, id: nat :: |w.log| <= i < |w'.log| && Own(w'.log[i].cmd, id) ==> id in ids)
    && (forall id: nat :: id !in ids ==> (id in w'.k.devs <==> id in w.k.devs))
  }

  lemma TriesNone(w: World, ids: set<nat>)
    ensures Tries(w, w, ids)
  {}

  lemma TriesOn(a: World, b: World, c: World, x: set<nat>, y: set<nat>)
    requires Tries(a, b, x) && Tries(b, c, y)
    ensures Tries(a, c, x + y)
  {
    forall i, id: nat | |a.log| <= i < |c.log| && Own(c.log[i].cmd, id) ensures id in x + y {
      if i < |b.log| {
        assert c.log[i] == b.log[i];
      }
    }
  }

  /** Commands of others do not count. */
  lemma FailedBefore(a: World, b: World, c: World, ids: set<nat>, id: nat)
    requires a.log <= b.log && Tries(b, c, ids) && id !in ids
    ensures OwnFailed(c.log, |a.log|, id) <==> OwnFailed(b.log, |a.log|, id)
  {
    if i :| |a.log| <= i < |b.log| && Own(b.log[i].cmd, id) && !b.log[i].ok {
      assert c.log[i] == b.log[i];
      assert Own(c.log[i].cmd, id) && !c.log[i].ok;
    }
    if i :| |a.log| <= i < |c.log| && Own(c.log[i].cmd, id) && !c.log[i].ok {
      assert i < |b.log|;
      assert c.log[i] == b.log[i];
      assert Own(b.log[i].cmd, id) && !b.log[i].ok;
    }
  }

  lemma FailedAfter(a: World, b: World, c: World, ids: set<nat>, id: nat)
    requires Tries(a, b, ids) && id !in ids && b.log <= c.log
    ensures OwnFailed(c.log, |a.log|, id) <==> OwnFailed(c.log, |b.log|, id)
  {
    assert forall i :: 0 <= i < |b.log| ==> c.log[i] == b.log[i];
  }

  lemma ExecTries(env: Env, w: World, cmd: Command, id: nat)
    requires Own(cmd, id)
    ensures var d := Exec(env, w, cmd);
      Tries(w, d.w, {id}) && (OwnFailed(d.w.log, |w.log|, id) <==> !d.ok)
  {
    hide Leaked;
    var d := Exec(env, w, cmd);
    assert d.w.log[|w.log|] == Entry(cmd, d.ok, d.w.k);
  }

  lemma NothingFailed(w: World, id: nat)
    ensures !OwnFailed(w.log, |w.log|, id)
  {}

  lemma FailedEither(a: World, b: World, c: World, id: nat)
    requires a.log <= b.log <= c.log
    ensures OwnFailed(c.log, |a.log|, id) <==> OwnFailed(b.log, |a.log|, id) || OwnFailed(c.log, |b.log|, id)
  {
    assert forall i :: 0 <= i < |b.log| ==> c.log[i] == b.log[i];
    if i :| |a.log| <= i < |b.log| && Own(b.log[i].cmd, id) && !b.log[i].ok {
      assert Own(c.log[i].cmd, id) && !c.log[i].ok;
    }
    if i :| |b.log| <= i < |c.log| && Own(c.log[i].cmd, id) && !c.log[i].ok {
      assert Own(c.log[i].cmd, id) && !c.log[i].ok;
    }
    if i :| |a.log| <= i < |c.log| && Own(c.log[i].cmd, id) && !c.log[i].ok {
      if i < |b.log| {
        assert Own(b.log[i].cmd, id) && !b.log[i].ok;
      }
    }
  }

  lemma TriesLogs(w: World, w': World, ids: set<nat>)
    requires Tries(w, w', ids)
    ensures w.log <= w'.log
  {}

  /** Every recorded jump is tried once; bits that were already left over stay. */
  lemma {:induction false} RemoveHooksTries(env: Env, w: World, id: nat, hooks: set<nat>, i: nat)
    requires i <= HOOKS && hooks <= ALL_HOOKS
    ensures var r := RemoveHooks(env, w, id, hooks, i);
      && Tries(w, r.w, {id}) && (r.ok <==> r.hooks == {})
      && (r.ok <==> !OwnFailed(r.w.log, |w.log|, id) && NoneBelow(hooks, i))
    decreases HOOKS - i
  {
    hide Tries, OwnFailed, Exec, RemoveHooks, NoneBelow;
    RemoveHooksUnfold(env, w, id, hooks, i);
    NoneBelowNext(hooks, i);
    if i == HOOKS {
      TriesNone(w, {id});
      NothingFailed(w, id);
      AllBelow(hooks);
    } else if i in hooks {
      var d := Exec(env, w, JumpDel(Jump(id, i)));
      ExecTries(env, w, JumpDel(Jump(id, i)), id);
      var later := if d.ok then hooks - {i} else hooks;
      RemoveHooksTries(env, d.w, id, later, i + 1);
      Chained(w, d.w, RemoveHooks(env, d.w, id, later, i + 1).w, id);
    } else {
      RemoveHooksTries(env, w, id, hooks, i + 1);
    }
  }

  lemma Chained(a: World, b: World, c: World, id: nat)
    requires Tries(a, b, {id}) && Tries(b, c, {id})
    ensures Tries(a, c, {id})
    ensures OwnFailed(c.log, |a.log|, id) <==> OwnFailed(b.log, |a.log|, id) || OwnFailed(c.log, |b.log|, id)
  {
    hide Tries, OwnFailed;
    TriesOn(a, b, c, {id}, {id});
    assert {id} + {id} == {id};
    TriesLogs(a, b, {id});
    TriesLogs(b, c, {id});
    FailedEither(a, b, c, id);
  }

  /** One tunnel is down afterwards if and only if none of its own commands failed. */
  lemma TakeDownOneTries(env: Env, cfg: Config, s: State, r: Ip)
    requires Core(cfg, s) && s.cleanupPending && r in s.tunnels
    ensures var c, id := TakeDownOne(env, s, r), s.tunnels[r].id;
      && Tries(s.w, c.s.w, {id})
      && (Down(c.s, r) <==> !OwnFailed(c.s.w.log, |s.w.log|, id))
  {
    hide Tables, Indexed, Hooks, Links, RulesExact, AllFenced, Admitted, Leaked, Tries, OwnFailed, RemoveHooks, Exec,
      NoneBelow;
    var t, id := s.tunnels[r], s.tunnels[r].id;
    TakeDownOneSound(env, cfg, s, r);
    HooksOf(s, r);
    NoForeign(cfg, s, r);
    TriesNone(s.w, {id});
    NothingFailed(s.w, id);
    ZeroBelow(t.hooks);
    var (g, e) := DeleteGre(env, s.w, id);
    if id in s.w.k.devs {
      ExecTries(env, s.w, GreDel(id), id);
      ExecFails(env, s.w, GreDel(id));
    }
    if g.ok || e == NoDev {
      RemoveHooksTries(env, g.w, id, t.hooks, 0);
      Chained(s.w, g.w, RemoveHooks(env, g.w, id, t.hooks, 0).w, id);
    }
  }

  lemma ZeroBelow(hooks: set<nat>)
    ensures NoneBelow(hooks, 0)
  {}

  lemma NoForeign(cfg: Config, s: State, r: Ip)
    requires Links(cfg, s) && r in s.tunnels
    ensures s.tunnels[r].id !in s.w.k.foreign
  {}

  lemma ExecFails(env: Env, w: World, cmd: Command)
    ensures !Exec(env, w, cmd).ok ==> Exec(env, w, cmd).w.k == w.k
  {
    hide Leaked;
  }

  ghost function IdsOf(s: State, order: seq<Ip>): set<nat>
    requires forall i :: 0 <= i < |order| ==> order[i] in s.tunnels
  {
    set i | 0 <= i < |order| :: s.tunnels[order[i]].id
  }

  /** Each listed tunnel is down afterwards if and only if none of its own commands failed, whatever
      became of the others. */
  ghost predicate EachTried(s: State, s': State, order: seq<Ip>) {
    forall r :: r in order && r in s.tunnels && r in s'.tunnels ==>
      (Down(s', r) <==> !OwnFailed(s'.w.log, |s.w.log|, s.tunnels[r].id))
  }

  lemma {:induction false} TakeDownTries(env: Env, cfg: Config, s: State, order: seq<Ip>)
    requires Core(cfg, s) && s.cleanupPending
    requires forall i :: 0 <= i < |order| ==> order[i] in s.tunnels
    requires forall i, j :: 0 <= i < j < |order| ==> order[i] != order[j]
    ensures var c := TakeDown(env, s, order);
      Tries(s.w, c.s.w, IdsOf(s, order)) && EachTried(s, c.s, order)
    decreases |order|
  {
    hide Core, TakeDownOne, Tries, OwnFailed, Down, IdsOf;
    if order == [] {
      TriesNone(s.w, IdsOf(s, order));
    } else {
      var r, rest := order[0], order[1..];
      var one := TakeDownOne(env, s, r);
      TakeDownOneSound(env, cfg, s, r);
      TakeDownOneTries(env, cfg, s, r);
      TakeDownTries(env, cfg, one.s, rest);
      TakeDownSound(env, cfg, one.s, rest);
      assert r !in rest && order == [r] + rest;
      Apart(cfg, s, r);
      TriedOn(s, one.s, TakeDown(env, one.s, rest).s, r, rest, order);
    }
  }

  lemma TriedOn(s: State, s1: State, s2: State, r: Ip, rest: seq<Ip>, order: seq<Ip>)
    requires r in s.tunnels && order == [r] + rest && r !in rest
    requires forall q :: q in s.tunnels && q != r ==> s.tunnels[q].id != s.tunnels[r].id
    requires forall i :: 0 <= i < |rest| ==> rest[i] in s.tunnels
    requires s1.tunnels.Keys == s.tunnels.Keys && forall q :: q in s.tunnels ==> s1.tunnels[q].id == s.tunnels[q].id
    requires s2.tunnels.Keys == s.tunnels.Keys && s2.tunnels[r] == s1.tunnels[r]
    requires Tries(s.w, s1.w, {s.tunnels[r].id}) && Tries(s1.w, s2.w, IdsOf(s1, rest))
    requires Down(s1, r) <==> !OwnFailed(s1.w.log, |s.w.log|, s.tunnels[r].id)
    requires EachTried(s1, s2, rest)
    ensures Tries(s.w, s2.w, IdsOf(s, order)) && EachTried(s, s2, order)
  {
    hide Tries, OwnFailed;
    var id := s.tunnels[r].id;
    TriesOn(s.w, s1.w, s2.w, {id}, IdsOf(s1, rest));
    IdsCons(s, s1, r, rest, order);
    assert id !in IdsOf(s1, rest);
    TriesLogs(s.w, s1.w, {id});
    TriesLogs(s1.w, s2.w, IdsOf(s1, rest));
    FailedBefore(s.w, s1.w, s2.w, IdsOf(s1, rest), id);
    DevsSame(s1.w, s2.w, IdsOf(s1, rest), id);
    forall q | q in rest
      ensures Down(s2, q) <==> !OwnFailed(s2.w.log, |s.w.log|, s.tunnels[q].id)
    {
      FailedAfter(s.w, s1.w, s2.w, {id}, s.tunnels[q].id);
    }
  }

  lemma DevsSame(w: World, w': World, ids: set<nat>, id: nat)
    requires Tries(w, w', ids) && id !in ids
    ensures id in w'.k.devs <==> id in w.k.devs
  {}

  lemma Apart(cfg: Config, s: State, r: Ip)
    requires Core(cfg, s) && r in s.tunnels
    ensures forall q :: q in s.tunnels && q != r ==> s.tunnels[q].id != s.tunnels[r].id
  {
    hide Indexed, Hooks, Links, RulesExact, AllFenced, Admitted, SlotsOwned;
  }

  lemma IdsCons(s: State, s1: State, r: Ip, rest: seq<Ip>, order: seq<Ip>)
    requires order == [r] + rest && r in s.tunnels && forall i :: 0 <= i < |rest| ==> rest[i] in s.tunnels
    requires s1.tunnels.Keys == s.tunnels.Keys && forall q :: q in s.tunnels ==> s1.tunnels[q].id == s.tunnels[q].id
    ensures IdsOf(s, order) == {s.tunnels[r].id} + IdsOf(s1, rest)
  {
    assert forall i :: 0 <= i < |rest| ==> order[i + 1] == rest[i];
    assert forall i :: 0 < i < |order| ==> order[i] == rest[i - 1];
    assert order[0] == r;
  }

  lemma ExecOther(env: Env, w: World, cmd: Command)
    requires cmd.Flush? || cmd.Append?
    ensures Tries(w, Exec(env, w, cmd).w, {})
  {
    hide Leaked;
  }

  lemma TriesOther(a: World, b: World, c: World)
    requires Tries(a, b, {}) && Tries(b, c, {})
    ensures Tries(a, c, {})
  {
    hide Tries;
    var none: set<nat> := {};
    TriesOn(a, b, c, none, none);
    assert none + none == none;
  }

  lemma ResetTries(env: Env, w: World)
    ensures Tries(w, ResetChains(env, w).w, {})
  {
    hide Tries, Exec;
    var a := Exec(env, w, Flush(In));
    ExecOther(env, w, Flush(In));
    var b := Exec(env, a.w, Flush(Out));
    ExecOther(env, a.w, Flush(Out));
    TriesOther(w, a.w, b.w);
    var c := Exec(env, b.w, Append(Out, Multicast));
    ExecOther(env, b.w, Append(Out, Multicast));
    TriesOther(w, b.w, c.w);
    var d := Exec(env, c.w, Append(In, Drop));
    ExecOther(env, c.w, Append(In, Drop));
    TriesOther(w, c.w, d.w);
    ExecOther(env, d.w, Append(Out, Drop));
    TriesOther(w, d.w, Exec(env, d.w, Append(Out, Drop)).w);
  }

  /** A cleanup that stays pending has gone on after every failure: a tunnel is down, with its
      interface and its jumps gone, if and only if none of its own commands failed. */
  lemma CleanupGoesOn(env: Env, cfg: Config, s: State)
    requires env.Valid() && Inv(cfg, s)
    ensures var s' := DelAll(env, s);
      s'.cleanupPending ==> forall r :: r in s.tunnels ==>
        r in s'.tunnels && (Down(s', r) <==> !OwnFailed(s'.w.log, |s.w.log|, s.tunnels[r].id))
  {
    hide Core, TakeDown, ResetChains, Tries, OwnFailed, Leaked;
    var s0 := s.(cleanupPending := true);
    CleanupBegins(cfg, s);
    var order := env.tunnelOrder(|s.w.log|, s.tunnels.Keys);
    assert Enumerates(order, s.tunnels.Keys);
    TakeDownTries(env, cfg, s0, order);
    TakeDownSound(env, cfg, s0, order);
    var c := TakeDown(env, s0, order);
    ResetTries(env, c.s.w);
    var d := ResetChains(env, c.s.w);
    TriesLogs(s.w, c.s.w, IdsOf(s0, order));
    forall r | r in s.tunnels
      ensures OwnFailed(d.w.log, |s.w.log|, s.tunnels[r].id) <==> OwnFailed(c.s.w.log, |s.w.log|, s.tunnels[r].id)
      ensures s.tunnels[r].id in d.w.k.devs <==> s.tunnels[r].id in c.s.w.k.devs
    {
      FailedBefore(s.w, c.s.w, d.w, {}, s.tunnels[r].id);
      DevsSame(c.s.w, d.w, {}, s.tunnels[r].id);
    }
  }
}
