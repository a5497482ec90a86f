/** Whom a client belongs to, as a function of the packets of a run. */
module ProvisionOwners {
  import opened Types
  import opened Cidr
  import opened Kernel
  import opened Firewall
  import opened Provision
  import opened ProvisionInvariant
  import opened ProvisionCalls
  import opened ProvisionTheorems

  ghost predicate Owns(s: State, m: Mac, r: Ip) { m in s.macIndex && s.macIndex[m] == r }

  /** The i-th event is a packet of r that taught the daemon the address m, and no cleanup has
      completed since. */
  ghost predicate LearnedAt(env: Env, cfg: Config, s: State, events: seq<Event>, i: nat, m: Mac, r: Ip)
    requires env.Valid()
  {
    && i < |events| && events[i].Captured? && events[i].packet.mac == m && events[i].packet.remote == r
    && HandlePacket(env, cfg, Run(env, cfg, s, events[..i]), events[i].packet, events[i].now).verdict == Learned
    && NoReset(env, cfg, Run(env, cfg, s, events[..i + 1]), events[i + 1..])
  }

  /** Learning adds exactly the sender's address to the index, and nothing else changes it. */
  lemma PacketIndex(env: Env, cfg: Config, s: State, p: Packet, now: int)
    requires env.Valid() && Inv(cfg, s)
    ensures var h := HandlePacket(env, cfg, s, p, now);
      && h.s.macIndex == (if h.verdict == Learned then s.macIndex[p.mac := p.remote] else s.macIndex)
      && (h.verdict == Learned ==> p.mac !in s.macIndex)
  {
    hide Core, Admitted, Mapped, Add, AllowMac;
    if Eligible(cfg, s, p, now) {
      AddSound(env, cfg, s, p.remote);
      var a := if p.remote in s.tunnels && s.tunnels[p.remote].ready then Called(s, true, Other)
               else Add(env, cfg, s, p.remote);
      if a.ok {
        IndexedMember(cfg, a.s, p.remote, p.mac);
        AllowMacIndex(env, a.s, p.remote, p.mac);
      }
    }
  }

  lemma AllowMacIndex(env: Env, s: State, r: Ip, m: Mac)
    requires r in s.tunnels && m !in s.tunnels[r].macs
    ensures var c := AllowMac(env, s, r, m);
      c.s.macIndex == if c.ok then s.macIndex[m := r] else s.macIndex
  {
    hide AllowRules;
  }

  /** How one event changes ownership. */
  lemma StepOwns(env: Env, cfg: Config, s: State, e: Event, m: Mac, r: Ip)
    requires env.Valid() && Inv(cfg, s)
    ensures var s' := Step(env, cfg, s, e);
      Owns(s', m, r) <==>
        || (Owns(s, m, r) && (e.Cleanup? ==> s'.cleanupPending))
        || (e.Captured? && e.packet.mac == m && e.packet.remote == r
            && HandlePacket(env, cfg, s, e.packet, e.now).verdict == Learned)
  {
    hide Inv, HandlePacket, DelAll;
    match e
    case Captured(p, now) => PacketIndex(env, cfg, s, p, now);
    case Cleanup => DelAllSound(env, cfg, s);
  }

  /** The same packet, seen from the state after the first event. */
  lemma LearnedLater(env: Env, cfg: Config, s: State, events: seq<Event>, i: nat, m: Mac, r: Ip)
    requires env.Valid() && events != []
    ensures LearnedAt(env, cfg, s, events, i + 1, m, r)
      <==> LearnedAt(env, cfg, Step(env, cfg, s, events[0]), events[1..], i, m, r)
  {
    hide Step, HandlePacket, NoReset, Env.Valid;
    var rest := events[1..];
    if i < |rest| {
      assert events[..i + 1][0] == events[0] && events[..i + 1][1..] == rest[..i];
      assert events[..i + 2][0] == events[0] && events[..i + 2][1..] == rest[..i + 1];
      assert events[i + 2..] == rest[i + 1..];
    }
  }

  lemma LearnedFirst(env: Env, cfg: Config, s: State, events: seq<Event>, m: Mac, r: Ip)
    requires env.Valid() && events != []
    ensures LearnedAt(env, cfg, s, events, 0, m, r) <==>
      && events[0].Captured? && events[0].packet.mac == m && events[0].packet.remote == r
      && HandlePacket(env, cfg, s, events[0].packet, events[0].now).verdict == Learned
      && NoReset(env, cfg, Step(env, cfg, s, events[0]), events[1..])
  {
    hide Step, HandlePacket, NoReset, Env.Valid;
    assert events[..0] == [] && events[..1] == [events[0]] && [events[0]][1..] == [];
    assert Run(env, cfg, s, [events[0]]) == Run(env, cfg, Step(env, cfg, s, events[0]), []);
  }

  lemma {:induction false} RunOwns(env: Env, cfg: Config, s: State, events: seq<Event>, m: Mac, r: Ip)
    requires env.Valid() && Inv(cfg, s)
    ensures Owns(Run(env, cfg, s, events), m, r) <==>
      || (Owns(s, m, r) && NoReset(env, cfg, s, events))
      || (exists i: nat :: LearnedAt(env, cfg, s, events, i, m, r))
    decreases |events|
  {
    hide Inv, Step, LearnedAt, Owns, HandlePacket, Env.Valid;
    if events == [] {
      NoneLearned(env, cfg, s, m, r);
    } else {
      var e, s' := events[0], Step(env, cfg, s, events[0]);
      StepSound(env, cfg, s, e);
      StepOwns(env, cfg, s, e, m, r);
      RunOwns(env, cfg, s', events[1..], m, r);
      LearnedFirst(env, cfg, s, events, m, r);
      forall i: nat
        ensures LearnedAt(env, cfg, s, events, i + 1, m, r) <==> LearnedAt(env, cfg, s', events[1..], i, m, r)
      {
        LearnedLater(env, cfg, s, events, i, m, r);
      }
      if i: nat :| LearnedAt(env, cfg, s, events, i, m, r) {
        assert i > 0 ==> LearnedAt(env, cfg, s', events[1..], i - 1, m, r);
      }
    }
  }

  lemma NoneLearned(env: Env, cfg: Config, s: State, m: Mac, r: Ip)
    requires env.Valid()
    ensures forall i: nat :: !LearnedAt(env, cfg, s, [], i, m, r)
  {}

  /** In every reachable state a client belongs to a remote if and only if some packet of that
      remote taught it to the daemon and no cleanup has completed since. */
  lemma OwnedExactly(env: Env, cfg: Config, foreign: set<nat>, events: seq<Event>, s: State, m: Mac, r: Ip)
    requires Reachable(env, cfg, foreign, events, s)
    ensures m in s.macIndex && s.macIndex[m] == r <==>
      exists i: nat :: LearnedAt(env, cfg, Boot(env, foreign).value, events, i, m, r)
  {
    hide Run, LearnedAt, NoReset, Inv, ChainDefaults;
    BootSound(env, cfg, foreign);
    RunOwns(env, cfg, Boot(env, foreign).value, events, m, r);
  }

  /** Only a packet for this host, from a remote that may be a peer, on a VLAN that has a bridge,
      and not before the end of the backoff, teaches the daemon an address. */
  lemma LearnedIsServed(env: Env, cfg: Config, s: State, p: Packet, now: int)
    requires HandlePacket(env, cfg, s, p, now).verdict == Learned
    ensures p.local == cfg.local && p.remote != cfg.local && Admitted(cfg, p.remote)
    ensures exists b :: b in cfg.bridges && b.vlan == p.vlan
    ensures !s.cleanupPending && s.retryAfter <= now && p.mac !in s.macIndex
  {
    hide Learn, RemoteAllowed, Unroutable;
    var i :| 0 <= i < |cfg.bridges| && cfg.bridges[i].vlan == p.vlan;
    assert cfg.bridges[i] in cfg.bridges;
  }
}
