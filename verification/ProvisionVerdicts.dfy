/** What becomes of every packet, told from the tables, the configuration and the clock alone. */
module ProvisionVerdicts {
  import opened Types
  import opened Bits
  import opened Cidr
  import opened Kernel
  import opened Firewall
  import opened Provision
  import opened ProvisionInvariant
  import opened ProvisionCalls
  import opened ProvisionTheorems
  import opened ProvisionProgress

  /** a lies in one of the listed networks, or there is no list. */
  ghost predicate Listed(allow: seq<Network>, a: Ip) {
    allow == [] || exists n :: n in allow && And(a.bits, n.mask) == n.network
  }

  /** The packet is for this host, from an address that may be a peer, on a VLAN with a bridge, and
      no cleanup is pending. */
  ghost predicate Serviceable(cfg: Config, s: State, p: Packet) {
    && !s.cleanupPending
    && p.local == cfg.local && p.remote != cfg.local
    && 0x0100_0000 <= p.remote.bits < 0xE000_0000 && !(0x7F00_0000 <= p.remote.bits < 0x8000_0000)
    && Listed(cfg.allow, p.remote)
    && exists b :: b in cfg.bridges && b.vlan == p.vlan
  }

  lemma ListedExact(allow: seq<Network>, a: Ip)
    ensures RemoteAllowed(allow, a) <==> Listed(allow, a)
  {
    hide And;
    if i :| 0 <= i < |allow| && Matches(allow[i], a) {
      assert allow[i] in allow;
    }
    if n :| n in allow && And(a.bits, n.mask) == n.network {
      var i :| 0 <= i < |allow| && allow[i] == n;
      assert Matches(allow[i], a);
    }
  }

  lemma MappedExact(cfg: Config, vlan: nat)
    ensures Mapped(cfg, vlan) <==> exists b :: b in cfg.bridges && b.vlan == vlan
  {
    if b :| b in cfg.bridges && b.vlan == vlan {
      var i :| 0 <= i < |cfg.bridges| && cfg.bridges[i] == b;
    }
    if i :| 0 <= i < |cfg.bridges| && cfg.bridges[i].vlan == vlan {
      assert cfg.bridges[i] in cfg.bridges;
    }
  }

  lemma ServiceableExact(cfg: Config, s: State, p: Packet)
    ensures Serviceable(cfg, s, p) <==>
      !s.cleanupPending && p.local == cfg.local && Admitted(cfg, p.remote) && Mapped(cfg, p.vlan)
  {
    hide Listed, RemoteAllowed, Mapped;
    ListedExact(cfg.allow, p.remote);
    MappedExact(cfg, p.vlan);
  }

  /** Every verdict but the last two is decided by what stands in the tables, and leaves everything
      as it was: a packet that is not serviceable or whose client belongs to another remote is
      ignored, one whose client is learned already is known, then the backoff counts, then
      the room that is left. Only a packet that passes all of these is learned or fails. */
  lemma VerdictExact(env: Env, cfg: Config, s: State, p: Packet, now: int)
    requires env.Valid() && Inv(cfg, s)
    ensures var h, owned := HandlePacket(env, cfg, s, p, now), p.mac in s.macIndex;
      && (h.verdict == Ignored <==> !Serviceable(cfg, s, p) || (owned && s.macIndex[p.mac] != p.remote))
      && (h.verdict == Known <==> Serviceable(cfg, s, p) && owned && s.macIndex[p.mac] == p.remote)
      && (h.verdict == BackedOff <==> Serviceable(cfg, s, p) && !owned && now < s.retryAfter)
      && (h.verdict == Full <==>
            Serviceable(cfg, s, p) && !owned && s.retryAfter <= now && NoRoom(s, p.remote))
      && (h.verdict in {Ignored, Known, BackedOff, Full} ==> h.s == s)
      && (h.verdict == Failed ==> h.s.retryAfter == now + USEC_PER_SEC && h.s.macIndex.Keys >= s.macIndex.Keys)
  {
    hide Core, Admitted, Mapped, Learn, Serviceable, NoRoom;
    ServiceableExact(cfg, s, p);
    FullExactly(env, cfg, s, p, now);
    PacketSound(env, cfg, s, p, now);
    if p.remote in s.tunnels {
      IndexedMember(cfg, s, p.remote, p.mac);
    }
    OwnerHasRecord(cfg, s, p.mac);
  }

  lemma OwnerHasRecord(cfg: Config, s: State, m: Mac)
    requires Core(cfg, s)
    ensures m in s.macIndex ==> s.macIndex[m] in s.tunnels
  {
    hide Tables, Hooks, Links, RulesExact, AllFenced, Admitted;
  }

  /** A packet that fails is one that something outside the daemon stopped: one of the commands it
      takes was refused, or a bridge was missing. */
  lemma FailureHasCause(env: Env, cfg: Config, foreign: set<nat>, events: seq<Event>, s: State, p: Packet, now: int)
    requires Reachable(env, cfg, foreign, events, s) && DistinctVlans(cfg.bridges)
    requires HandlePacket(env, cfg, s, p, now).verdict == Failed
    ensures Serviceable(cfg, s, p) && p.mac !in s.macIndex && s.retryAfter <= now && !NoRoom(s, p.remote)
    ensures !Cooperates(env, |s.w.log|, |s.w.log| + AddCost(cfg, s, p.remote) + 2)
  {
    hide Reachable, Inv, HandlePacket, Cooperates, DistinctVlans, Serviceable, NoRoom, AddCost, Admitted, Mapped;
    ReachableSound(env, cfg, foreign, events, s);
    ReachableValid(env, cfg, foreign, events, s);
    VerdictExact(env, cfg, s, p, now);
    ServiceableExact(cfg, s, p);
    NotAClientOf(cfg, s, p.remote, p.mac);
    if Cooperates(env, |s.w.log|, |s.w.log| + AddCost(cfg, s, p.remote) + 2) {
      EligibleIsLearned(env, cfg, foreign, events, s, p, now);
    }
  }

  lemma ReachableValid(env: Env, cfg: Config, foreign: set<nat>, events: seq<Event>, s: State)
    requires Reachable(env, cfg, foreign, events, s)
    ensures env.Valid()
  {}

  lemma NotAClientOf(cfg: Config, s: State, r: Ip, m: Mac)
    requires Inv(cfg, s)
    ensures m !in s.macIndex && r in s.tunnels ==> m !in s.tunnels[r].macs
  {
    hide Core;
    if r in s.tunnels {
      IndexedMember(cfg, s, r, m);
    }
  }

  /** A packet that is served whenever there is room and no command fails, in terms of the
      configuration alone: some bridge has its VLAN and some listed network its sender. */
  lemma ServiceableIsLearned(env: Env, cfg: Config, foreign: set<nat>, events: seq<Event>, s: State,
                             p: Packet, now: int)
    requires Reachable(env, cfg, foreign, events, s) && DistinctVlans(cfg.bridges)
    requires Serviceable(cfg, s, p) && p.mac !in s.macIndex && s.retryAfter <= now && !NoRoom(s, p.remote)
    requires Cooperates(env, |s.w.log|, |s.w.log| + AddCost(cfg, s, p.remote) + 2)
    ensures var h := HandlePacket(env, cfg, s, p, now);
      h.verdict == Learned && p.mac in h.s.macIndex && h.s.macIndex[p.mac] == p.remote
  {
    hide Reachable, Inv, HandlePacket, Cooperates, DistinctVlans, Serviceable, NoRoom, AddCost, Admitted, Mapped;
    ReachableSound(env, cfg, foreign, events, s);
    ServiceableExact(cfg, s, p);
    NotAClientOf(cfg, s, p.remote, p.mac);
    EligibleIsLearned(env, cfg, foreign, events, s, p, now);
  }

  // ---- packets that make no difference ----

  ghost predicate Idle(cfg: Config, s: State, e: Event) {
    && e.Captured?
    && var p := e.packet;
    && (!Serviceable(cfg, s, p) || p.mac in s.macIndex || e.now < s.retryAfter || NoRoom(s, p.remote))
  }

  lemma IdleUnseen(env: Env, cfg: Config, s: State, e: Event)
    requires env.Valid() && Inv(cfg, s) && Idle(cfg, s, e)
    ensures Step(env, cfg, s, e) == s
  {
    hide Inv, HandlePacket, Serviceable, NoRoom;
    VerdictExact(env, cfg, s, e.packet, e.now);
  }

  /** fewer is what remains of events when some packets that are idle where they occur are left
      out. */
  ghost predicate Thins(env: Env, cfg: Config, s: State, events: seq<Event>, fewer: seq<Event>)
    requires env.Valid()
    decreases |events|
  {
    if events == [] then fewer == []
    else
      || (Idle(cfg, s, events[0]) && Thins(env, cfg, s, events[1..], fewer))
      || (fewer != [] && fewer[0] == events[0]
          && Thins(env, cfg, Step(env, cfg, s, events[0]), events[1..], fewer[1..]))
  }

  /** Leaving idle packets out of a run, all of them or some, changes neither tables, kernel,
      command log nor backoff. */
  lemma {:induction false} IdlePacketsUnseen(env: Env, cfg: Config, s: State, events: seq<Event>, fewer: seq<Event>)
    requires env.Valid() && Inv(cfg, s) && Thins(env, cfg, s, events, fewer)
    ensures Run(env, cfg, s, fewer) == Run(env, cfg, s, events)
    decreases |events|
  {
    hide Inv, Step, Idle, Env.Valid;
    if events != [] {
      var e := events[0];
      StepSound(env, cfg, s, e);
      if Idle(cfg, s, e) && Thins(env, cfg, s, events[1..], fewer) {
        IdleUnseen(env, cfg, s, e);
        IdlePacketsUnseen(env, cfg, s, events[1..], fewer);
      } else {
        IdlePacketsUnseen(env, cfg, Step(env, cfg, s, e), events[1..], fewer[1..]);
      }
    }
  }
}
