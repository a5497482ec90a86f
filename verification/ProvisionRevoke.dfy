/** Deleting a tunnel with clients: its records, its accept rules, and what stays. */
module ProvisionRevoke {
  import opened Types
  import opened Kernel
  import opened Firewall
  import opened Provision
  import opened ProvisionInvariant
  import opened ProvisionCalls
  import opened ProvisionTheorems

  lemma DropOne(s: State, r: Ip, m: Mac, w: World)
    requires Tables(s) && Indexed(s) && r in s.tunnels && m in s.tunnels[r].macs
    ensures var t := s.tunnels[r].(macs := s.tunnels[r].macs - {m});
      var s' := s.(w := w, macIndex := s.macIndex - {m}, tunnels := s.tunnels[r := t]);
      Tables(s') && Indexed(s')
  {
    hide Tables, Indexed;
    var t := s.tunnels[r].(macs := s.tunnels[r].macs - {m});
    var s' := s.(w := w, macIndex := s.macIndex - {m}, tunnels := s.tunnels[r := t]);
    RecordBounds(s, r);
    TablesUpdate(s, r, t, s');
    DropOneIndex(s, r, m, s');
  }

  lemma DropOneIndex(s: State, r: Ip, m: Mac, s': State)
    requires Indexed(s) && r in s.tunnels && m in s.tunnels[r].macs && s'.macIndex == s.macIndex - {m}
    requires s'.tunnels == s.tunnels[r := s.tunnels[r].(macs := s.tunnels[r].macs - {m})]
    ensures Indexed(s')
  {}

  // ---- the rules of one tunnel ----

  /** Each of the clients has one rule for tunnel id and nobody else has any, one client excepted. */
  ghost predicate SingleBut(rules: seq<Rule>, id: nat, macs: set<Mac>, but: Option<Mac>) {
    forall m :: Some(m) != but ==> multiset(rules)[Accept(id, m)] == if m in macs then 1 else 0
  }

  ghost predicate OneEachBut(k: Kernel, id: nat, macs: set<Mac>, but: Option<Mac>) {
    SingleBut(k.inChain, id, macs, but) && SingleBut(k.outChain, id, macs, but)
  }

  /** Both chains hold exactly one rule of tunnel id for each of the clients. */
  ghost predicate OneEach(k: Kernel, id: nat, macs: set<Mac>) { OneEachBut(k, id, macs, None) }

  /** Rules that are not accept rules of tunnel id are as many as before. */
  ghost predicate OthersIn(rules: seq<Rule>, rules': seq<Rule>, id: nat) {
    forall x: Rule :: !(x.Accept? && x.id == id) ==> multiset(rules')[x] == multiset(rules)[x]
  }

  ghost predicate OthersSame(k: Kernel, k': Kernel, id: nat) {
    OthersIn(k.inChain, k'.inChain, id) && OthersIn(k.outChain, k'.outChain, id)
  }

  lemma {:induction false} RemoveFirstCount(rules: seq<Rule>, r: Rule)
    requires r in rules
    ensures multiset(RemoveFirst(rules, r)) == multiset(rules) - multiset{r}
    decreases |rules|
  {
    assert rules == [rules[0]] + rules[1..];
    if rules[0] != r {
      RemoveFirstCount(rules[1..], r);
    }
  }

  lemma DeleteCount(env: Env, w: World, c: Chain, a: Rule)
    ensures var d := Exec(env, w, Delete(c, a));
      if !d.ok then d.w.k == w.k
      else d.w.k == WithRules(w.k, c, Rules(d.w.k, c))
           && multiset(Rules(d.w.k, c)) == multiset(Rules(w.k, c)) - multiset{a}
  {
    hide Leaked, RemoveFirst;
    if a in Rules(w.k, c) {
      RemoveFirstCount(Rules(w.k, c), a);
    }
  }

  lemma ChainRevoked(rules: seq<Rule>, rules': seq<Rule>, id: nat, macs: set<Mac>, m: Mac)
    requires SingleBut(rules, id, macs, None) && m in macs
    requires rules' == rules || multiset(rules') == multiset(rules) - multiset{Accept(id, m)}
    ensures SingleBut(rules', id, macs, Some(m)) && OthersIn(rules, rules', id)
    ensures multiset(rules') == multiset(rules) - multiset{Accept(id, m)} ==> SingleBut(rules', id, macs - {m}, None)
  {
    assert multiset(rules)[Accept(id, m)] == 1;
  }

  /** Revoking a client takes its two rules and no other; if it fails, only the rules of this
      client are in doubt. */
  lemma RevokeCounts(env: Env, w: World, id: nat, macs: set<Mac>, m: Mac)
    requires OneEach(w.k, id, macs) && m in macs
    ensures var d := RevokeRules(env, w, id, m);
      && OthersSame(w.k, d.w.k, id)
      && (if d.ok then OneEach(d.w.k, id, macs - {m}) else OneEachBut(d.w.k, id, macs, Some(m)))
  {
    hide Exec, SingleBut, OthersIn;
    var a := Exec(env, w, Delete(In, Accept(id, m)));
    DeleteCount(env, w, In, Accept(id, m));
    DeleteCount(env, a.w, Out, Accept(id, m));
    var k := RevokeRules(env, w, id, m).w.k;
    ChainRevoked(w.k.inChain, k.inChain, id, macs, m);
    ChainRevoked(w.k.outChain, k.outChain, id, macs, m);
  }

  lemma OthersTwice(a: Kernel, b: Kernel, c: Kernel, id: nat)
    requires OthersSame(a, b, id) && OthersSame(b, c, id)
    ensures OthersSame(a, c, id)
  {}

  /** What the client loop has done to the rules when it stops: all of them are gone, or one
      client, still recorded, is in doubt and the others are as recorded. */
  ghost predicate Revoked(k: Kernel, c: Called, r: Ip, id: nat)
    requires r in c.s.tunnels
  {
    && OthersSame(k, c.s.w.k, id)
    && (if c.ok then OneEach(c.s.w.k, id, {})
        else exists m :: m in c.s.tunnels[r].macs && OneEachBut(c.s.w.k, id, c.s.tunnels[r].macs, Some(m)))
  }

  lemma {:induction false} DropMacsSound(env: Env, s: State, r: Ip, order: seq<Mac>)
    requires Tables(s) && Indexed(s) && r in s.tunnels && Enumerates(order, s.tunnels[r].macs)
    ensures var c := DropMacs(env, s, r, order);
      && Tables(c.s) && Indexed(c.s) && c.s.tunnels - {r} == s.tunnels - {r}
      && c.s.tunnels[r].id == s.tunnels[r].id
      && (c.ok ==> c.s.tunnels[r].macs == {})
      && (OneEach(s.w.k, s.tunnels[r].id, s.tunnels[r].macs) ==> Revoked(s.w.k, c, r, s.tunnels[r].id))
    decreases |order|
  {
    hide Tables, Indexed, RevokeRules, OneEach, OneEachBut, OthersSame;
    var t, k := s.tunnels[r], s.w.k;
    if order == [] {
      EnumeratesSize(order, t.macs);
      OthersReflexive(k, t.id);
    } else {
      var m := order[0];
      assert m in order;
      var d := RevokeRules(env, s.w, t.id, m);
      if OneEach(k, t.id, t.macs) {
        RevokeCounts(env, s.w, t.id, t.macs, m);
      }
      if d.ok {
        DropOne(s, r, m, d.w);
        var s' := s.(w := d.w, macIndex := s.macIndex - {m}, tunnels := s.tunnels[r := t.(macs := t.macs - {m})]);
        forall x ensures x in order[1..] <==> x in t.macs - {m} {
          assert x in order <==> x == m || x in order[1..];
        }
        DropMacsSound(env, s', r, order[1..]);
        if OneEach(k, t.id, t.macs) {
          OthersTwice(k, d.w.k, DropMacs(env, s', r, order[1..]).s.w.k, t.id);
        }
      } else {
        TablesCarry(s, s.(w := d.w));
        IndexedCarry(s, s.(w := d.w));
      }
    }
  }

  lemma OthersReflexive(k: Kernel, id: nat)
    ensures OthersSame(k, k, id)
  {}

  lemma SameChains(k: Kernel, k': Kernel, id: nat, macs: set<Mac>)
    requires k'.inChain == k.inChain && k'.outChain == k.outChain
    ensures OneEach(k, id, macs) <==> OneEach(k', id, macs)
    ensures OthersSame(k, k', id)
  {}

  lemma {:induction false} RemoveHooksChains(env: Env, w: World, id: nat, hooks: set<nat>, i: nat)
    requires i <= HOOKS
    ensures var k := RemoveHooks(env, w, id, hooks, i).w.k; k == w.k.(jumps := k.jumps)
    decreases HOOKS - i
  {
    hide Leaked;
    if i < HOOKS {
      var d := Exec(env, w, JumpDel(Jump(id, i)));
      if i in hooks {
        RemoveHooksChains(env, d.w, id, if d.ok then hooks - {i} else hooks, i + 1);
      } else {
        RemoveHooksChains(env, w, id, hooks, i + 1);
      }
    }
  }

  lemma DelTables(env: Env, s: State, r: Ip)
    requires env.Valid() && Tables(s) && Indexed(s)
    ensures var c := Del(env, s, r);
      && Tables(c.s) && Indexed(c.s) && c.s.tunnels - {r} == s.tunnels - {r}
      && (c.ok ==> r !in c.s.tunnels && forall m :: m in c.s.macIndex ==> c.s.macIndex[m] != r)
  {
    hide Tables, RevokeRules, DropMacs, RemoveHooks, Leaked, Revoked;
    if r in s.tunnels {
      var (g, e) := DeleteGre(env, s.w, s.tunnels[r].id);
      var s1 := s.(w := g.w);
      TablesCarry(s, s1);
      IndexedCarry(s, s1);
      if g.ok || e == NoDev {
        var order := env.macOrder(|g.w.log|, s.tunnels[r].macs);
        assert Enumerates(order, s.tunnels[r].macs);
        DropMacsSound(env, s1, r, order);
        var m := DropMacs(env, s1, r, order);
        if m.ok {
          var h := RemoveHooks(env, m.s.w, m.s.tunnels[r].id, m.s.tunnels[r].hooks, 0);
          TablesCarry(m.s, SetHooks(m.s, r, h));
          IndexedCarry(m.s, SetHooks(m.s, r, h));
          if h.ok {
            ForgetTables(SetHooks(m.s, r, h), r);
            ForgetIndex(SetHooks(m.s, r, h), r);
          }
        }
      }
    }
  }

  lemma DelRevokes(env: Env, s: State, r: Ip)
    requires env.Valid() && Tables(s) && Indexed(s) && r in s.tunnels
    requires OneEach(s.w.k, s.tunnels[r].id, s.tunnels[r].macs)
    ensures var c, id := Del(env, s, r), s.tunnels[r].id;
      && OthersSame(s.w.k, c.s.w.k, id)
      && (c.ok ==> forall m :: Accept(id, m) !in c.s.w.k.inChain && Accept(id, m) !in c.s.w.k.outChain)
  {
    hide Tables, Indexed, RevokeRules, DropMacs, RemoveHooks, Leaked, OneEach, OthersSame;
    var id := s.tunnels[r].id;
    var (g, e) := DeleteGre(env, s.w, id);
    SameChains(s.w.k, g.w.k, id, s.tunnels[r].macs);
    if g.ok || e == NoDev {
      var s1 := s.(w := g.w);
      TablesCarry(s, s1);
      IndexedCarry(s, s1);
      var order := env.macOrder(|g.w.log|, s.tunnels[r].macs);
      assert Enumerates(order, s.tunnels[r].macs);
      DropMacsSound(env, s1, r, order);
      var m := DropMacs(env, s1, r, order);
      OthersTwice(s.w.k, g.w.k, m.s.w.k, id);
      if m.ok {
        RemoveHooksChains(env, m.s.w, m.s.tunnels[r].id, m.s.tunnels[r].hooks, 0);
        var h := RemoveHooks(env, m.s.w, m.s.tunnels[r].id, m.s.tunnels[r].hooks, 0);
        SameChains(m.s.w.k, h.w.k, id, {});
        OthersTwice(s.w.k, m.s.w.k, h.w.k, id);
        NoRules(h.w.k, id);
      }
    }
  }

  /** Deleting any tunnel, in service or not, keeps the tables in agreement wherever it stops,
      and on success leaves neither the record nor a client of it. If each client had its one
      rule in each chain, success leaves no rule of the tunnel either, and wherever the
      deletion stops the rules of all others stay. */
  lemma DelKeepsTables(env: Env, s: State, r: Ip)
    requires env.Valid() && Tables(s) && Indexed(s)
    ensures var c := Del(env, s, r);
      && Tables(c.s) && Indexed(c.s) && c.s.tunnels - {r} == s.tunnels - {r}
      && (c.ok ==> r !in c.s.tunnels && forall m :: m in c.s.macIndex ==> c.s.macIndex[m] != r)
      && (r in s.tunnels && OneEach(s.w.k, s.tunnels[r].id, s.tunnels[r].macs) ==>
            var id := s.tunnels[r].id;
            && OthersSame(s.w.k, c.s.w.k, id)
            && (c.ok ==> forall m :: Accept(id, m) !in c.s.w.k.inChain && Accept(id, m) !in c.s.w.k.outChain))
  {
    hide Tables, Indexed, Del, OneEach, OthersSame;
    DelTables(env, s, r);
    if r in s.tunnels && OneEach(s.w.k, s.tunnels[r].id, s.tunnels[r].macs) {
      DelRevokes(env, s, r);
    }
  }

  lemma NoRules(k: Kernel, id: nat)
    requires OneEach(k, id, {})
    ensures forall m :: Accept(id, m) !in k.inChain && Accept(id, m) !in k.outChain
  {
    forall m ensures Accept(id, m) !in k.inChain && Accept(id, m) !in k.outChain {
      assert multiset(k.inChain)[Accept(id, m)] == 0 && multiset(k.outChain)[Accept(id, m)] == 0;
    }
  }

  /** In every reachable state without a pending cleanup, a tunnel whose undos all worked has
      exactly one rule in each chain for each of its clients. */
  lemma OneRuleEach(env: Env, cfg: Config, foreign: set<nat>, events: seq<Event>, s: State, r: Ip)
    requires Reachable(env, cfg, foreign, events, s) && !s.cleanupPending && r in s.tunnels
    requires forall m :: (s.tunnels[r].id, m) !in Leaked(s.w.log)
    ensures OneEach(s.w.k, s.tunnels[r].id, s.tunnels[r].macs)
  {
    ReachableSound(env, cfg, foreign, events, s);
    hide Reachable, Tables, Indexed, Hooks, Links, AllFenced, Admitted, NormalForm, RulesOwned, IdleEmpty, Leaked,
      Once, SingleBut;
    var k, t := s.w.k, s.tunnels[r];
    assert forall m :: Accept(t.id, m) in k.inChain <==> m in t.macs;
    assert forall m :: Accept(t.id, m) in k.outChain <==> m in t.macs;
    SingleOf(k.inChain, Leaked(s.w.log), t.id, t.macs);
    SingleOf(k.outChain, {}, t.id, t.macs);
  }

  lemma SingleOf(rules: seq<Rule>, leaked: set<(nat, Mac)>, id: nat, macs: set<Mac>)
    requires Once(rules, leaked) && forall m :: (id, m) !in leaked
    requires forall m :: Accept(id, m) in rules <==> m in macs
    ensures SingleBut(rules, id, macs, None)
  {
    forall m ensures multiset(rules)[Accept(id, m)] == if m in macs then 1 else 0 {
      assert (id, m) !in leaked;
      assert Accept(id, m) in rules <==> multiset(rules)[Accept(id, m)] > 0;
    }
  }
}
