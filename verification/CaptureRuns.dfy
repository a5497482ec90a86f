/** From the bytes of captured frames to the tables of a run. */
module CaptureRuns {
  import opened Types
  import opened Kernel
  import opened Provision
  import opened ProvisionInvariant
  import opened ProvisionTheorems
  import opened ProvisionOwners
  import opened ProvisionVerdicts
  import opened Payload
  import opened PayloadGrammar
  import opened PayloadLayout

  /** What a captured frame is to the daemon: a packet, or nothing. */
  function Capture(d: Bytes, now: int): seq<Event> {
    var p := Parse(d);
    if p.Some? then [Captured(p.value, now)] else []
  }

  /** A frame whose source address starts with 0, 127 or a number from 224 on makes no difference,
      whatever else it carries and whatever follows it in the capture. */
  lemma MartiansUnseen(env: Env, cfg: Config, s: State, f: Frame, trailer: Bytes, now: int)
    requires env.Valid() && Inv(cfg, s) && PayloadGrammar.Valid(f)
    requires f.ip.remote[0] == 0 || f.ip.remote[0] == 127 || f.ip.remote[0] >= 224
    ensures Run(env, cfg, s, Capture(Serialise(f) + trailer, now)) == s
  {
    hide Inv, Serialise, Step, Parse, Serviceable, Env.Valid;
    var p := Carried(f);
    FrameAccepted(f, trailer);
    IpOfOctets(f.ip.remote, p.remote);
    Unlisted(cfg, s, p);
    IdleUnseen(env, cfg, s, Captured(p, now));
    RunOne(env, cfg, s, Captured(p, now));
  }

  lemma Unlisted(cfg: Config, s: State, p: Packet)
    requires p.remote.bits / 0x100_0000 in {0, 127} || p.remote.bits / 0x100_0000 >= 224
    ensures !Serviceable(cfg, s, p)
  {
    hide Listed;
  }

  /** The frames of a run, each with the time of its capture, and the cleanups between them. */
  datatype Input = Frame(bytes: Bytes, now: int) | Reset

  function Events(inputs: seq<Input>): seq<Event> {
    if inputs == [] then []
    else
      var n := |inputs| - 1;
      Events(inputs[..n])
      + (if inputs[n].Reset? then [Cleanup] else Capture(inputs[n].bytes, inputs[n].now))
  }

  lemma {:induction false} EventHasFrame(inputs: seq<Input>, i: nat)
    requires i < |Events(inputs)| && Events(inputs)[i].Captured?
    ensures exists j ::
      0 <= j < |inputs| && inputs[j].Frame? && Parse(inputs[j].bytes) == Some(Events(inputs)[i].packet)
  {
    hide Parse;
    var n := |inputs| - 1;
    if i < |Events(inputs[..n])| {
      EventHasFrame(inputs[..n], i);
      var j :| 0 <= j < n && inputs[..n][j].Frame? && Parse(inputs[..n][j].bytes) == Some(Events(inputs)[i].packet);
      assert inputs[j].Frame?;
    } else {
      assert inputs[n].Frame?;
    }
  }

  /** Bytes that teach the daemon the address m of a client of r: at fixed offsets they hold the
      source address r, the local address, the inner source address m, and a VLAN that has a
      bridge. */
  ghost predicate Teaches(cfg: Config, d: Bytes, m: Mac, r: Ip) {
    exists t: nat, ihl: nat, total: nat, vlan: nat ::
      && Layout(d, t, ihl, total, Packet(r, cfg.local, m, vlan))
      && exists b :: b in cfg.bridges && b.vlan == vlan
  }

  lemma OwnerHasPacket(env: Env, cfg: Config, foreign: set<nat>, events: seq<Event>, s: State, m: Mac) returns (i: nat)
    requires Reachable(env, cfg, foreign, events, s) && m in s.macIndex
    ensures i < |events| && events[i].Captured?
    ensures var p := events[i].packet;
      && p.mac == m && p.remote == s.macIndex[m] && p.local == cfg.local
      && exists b :: b in cfg.bridges && b.vlan == p.vlan
  {
    hide Run, NoReset, HandlePacket, Env.Valid, Admitted, Boot;
    var r, b := s.macIndex[m], Boot(env, foreign).value;
    OwnedExactly(env, cfg, foreign, events, s, m, r);
    i :| LearnedAt(env, cfg, b, events, i, m, r);
    LearnedIsServed(env, cfg, Run(env, cfg, b, events[..i]), events[i].packet, events[i].now);
  }

  /** Every client in a reachable state belongs to the sender of a frame that was captured, byte
      for byte. */
  lemma OwnersWereCaptured(env: Env, cfg: Config, foreign: set<nat>, inputs: seq<Input>, s: State, m: Mac)
    requires Reachable(env, cfg, foreign, Events(inputs), s) && m in s.macIndex
    ensures exists j :: 0 <= j < |inputs| && inputs[j].Frame? && Teaches(cfg, inputs[j].bytes, m, s.macIndex[m])
  {
    hide Reachable, Layout, Parse, Events;
    var i := OwnerHasPacket(env, cfg, foreign, Events(inputs), s, m);
    var p := Events(inputs)[i].packet;
    EventHasFrame(inputs, i);
    var j :| 0 <= j < |inputs| && inputs[j].Frame? && Parse(inputs[j].bytes) == Some(p);
    ParseIsLayout(inputs[j].bytes, p);
    var t: nat, ihl: nat, total: nat :| Layout(inputs[j].bytes, t, ihl, total, p);
    assert p == Packet(s.macIndex[m], cfg.local, m, p.vlan);
    assert Teaches(cfg, inputs[j].bytes, m, s.macIndex[m]);
  }
}
