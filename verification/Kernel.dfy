/**
 An abstract kernel and the commands the daemon sends to it.

 A command either takes effect or fails without effect. Which of the two happens is
 decided by an arbitrary environment, so a statement quantified over environments
 covers every pattern of failures. Each command is recorded, with the kernel state
 that follows it, in a log.
 */
module Kernel {
  import opened Types

  const HOOKS := 3

  datatype Port = Port(id: nat, vlan: nat)

  /** A jump from a built-in chain into an owned chain, for the ports of one tunnel. */
  datatype Jump = Jump(id: nat, hook: nat)

  datatype Chain = In | Out

  /** Accept(id, mac) matches one client address on the ports of tunnel id. */
  datatype Rule = Accept(id: nat, mac: Mac) | Multicast | Drop

  /** The two addresses between which an interface tunnels. */
  datatype Ends = Ends(local: Ip, remote: Ip)

  datatype Kernel = Kernel(
    foreign: set<nat>,          // ids whose interface name belonged to somebody else at start
    devs: map<nat, Ends>,       // gretap interfaces of the daemon
    vlans: set<Port>,           // VLAN children of those
    attached: map<Port, string>,// the bridge each enslaved VLAN child belongs to
    jumps: multiset<Jump>,
    inChain: seq<Rule>,
    outChain: seq<Rule>)

  datatype Command =
    | GreAdd(id: nat, ends: Ends)
    | GreDel(id: nat)
    | VlanAdd(port: Port)
    | Enslave(port: Port, bridge: string)
    | JumpAdd(jump: Jump)
    | JumpDel(jump: Jump)
    | Insert(chain: Chain, rule: Rule)
    | Append(chain: Chain, rule: Rule)
    | Delete(chain: Chain, rule: Rule)
    | Flush(chain: Chain)

  function Rules(k: Kernel, c: Chain): seq<Rule> {
    if c.In? then k.inChain else k.outChain
  }

  function WithRules(k: Kernel, c: Chain, rules: seq<Rule>): Kernel {
    if c.In? then k.(inChain := rules) else k.(outChain := rules)
  }

  /** Deleting a rule removes its first occurrence. */
  function RemoveFirst(rules: seq<Rule>, r: Rule): seq<Rule> {
    if rules == [] then []
    else if rules[0] == r then rules[1..]
    else [rules[0]] + RemoveFirst(rules[1..], r)
  }

  /** The name prefix+id is taken. */
  predicate Named(k: Kernel, id: nat) { id in k.devs || id in k.foreign }

  /** What a command does when nothing goes wrong; None when the kernel must refuse it. */
  function Apply(k: Kernel, c: Command): Option<Kernel> {
    match c
    case GreAdd(id, ends) =>
      if Named(k, id) then None else Some(k.(devs := k.devs[id := ends]))
    case GreDel(id) =>
      if id !in k.devs then None else
      Some(k.(devs := k.devs - {id},
              vlans := (set p | p in k.vlans && p.id != id),
              attached := map p | p in k.attached && p.id != id :: k.attached[p]))
    case VlanAdd(p) =>
      if p.id !in k.devs || p in k.vlans then None else Some(k.(vlans := k.vlans + {p}))
    case Enslave(p, b) =>
      if p !in k.vlans then None else Some(k.(attached := k.attached[p := b]))
    case JumpAdd(j) => Some(k.(jumps := k.jumps + multiset{j}))
    case JumpDel(j) =>
      if j !in k.jumps then None else Some(k.(jumps := k.jumps - multiset{j}))
    case Insert(c, r) => Some(WithRules(k, c, [r] + Rules(k, c)))
    case Append(c, r) => Some(WithRules(k, c, Rules(k, c) + [r]))
    case Delete(c, r) =>
      if r !in Rules(k, c) then None else Some(WithRules(k, c, RemoveFirst(Rules(k, c), r)))
    case Flush(c) => Some(WithRules(k, c, []))
  }

  /** One executed command: whether it reported success, and the kernel after it. */
  datatype Entry = Entry(cmd: Command, ok: bool, after: Kernel)

  datatype World = World(k: Kernel, log: seq<Entry>)

  datatype Done = Done(w: World, ok: bool)

  /** Everything the daemon does not control. All choices may depend on how many commands
      have run: whether the next one succeeds, whether a bridge exists, and the order in which
      a hash table lists its keys. */
  datatype Env = Env(
    succeeds: nat -> bool,
    bridgeUp: (nat, string) -> bool,
    tunnelOrder: (nat, set<Ip>) -> seq<Ip>,
    macOrder: (nat, set<Mac>) -> seq<Mac>)
  {
    ghost predicate Valid() {
      && (forall n: nat, s: set<Ip> :: Enumerates(tunnelOrder(n, s), s))
      && (forall n: nat, s: set<Mac> :: Enumerates(macOrder(n, s), s))
    }
  }

  /** Ingress rules left behind because the command that should have undone them failed,
      counted since the last flush of the ingress chain. */
  ghost function LeakStep(leaked: set<(nat, Mac)>, c: Command, ok: bool): set<(nat, Mac)> {
    match c
    case Flush(In) => if ok then {} else leaked
    case Delete(In, Accept(id, m)) => if ok then leaked else leaked + {(id, m)}
    case _ => leaked
  }

  ghost function Leaked(log: seq<Entry>): set<(nat, Mac)> {
    if log == [] then {}
    else
      var e := log[|log| - 1];
      LeakStep(Leaked(log[..|log| - 1]), e.cmd, e.ok)
  }

  function Exec(env: Env, w: World, c: Command): (d: Done)
    ensures Leaked(d.w.log) == LeakStep(Leaked(w.log), c, d.ok)
  {
    var r := Apply(w.k, c);
    var ok := env.succeeds(|w.log|) && r.Some?;
    var k := if ok then r.value else w.k;
    var log := w.log + [Entry(c, ok, k)];
    assert log[..|log| - 1] == w.log;
    Done(World(k, log), ok)
  }

  /** First-match traversal of an owned chain; a frame that matches nothing is let through. */
  predicate Traverse(rules: seq<Rule>, id: nat, m: Mac) {
    if rules == [] then true
    else match rules[0]
      case Accept(i, a) => if i == id && a == m then true else Traverse(rules[1..], id, m)
      case Multicast => if IsMulticast(m) then true else Traverse(rules[1..], id, m)
      case Drop => false
  }

  /** Whether a frame with source m entering a port of tunnel id passes PREROUTING. */
  predicate Ingress(k: Kernel, id: nat, m: Mac) {
    Jump(id, 0) in k.jumps ==> Traverse(k.inChain, id, m)
  }

  /** Whether a frame for m leaving a port of tunnel id passes FORWARD (1) or OUTPUT (2). */
  predicate Egress(k: Kernel, hook: nat, id: nat, m: Mac) {
    Jump(id, hook) in k.jumps ==> Traverse(k.outChain, id, m)
  }

  predicate EndsInDrop(rules: seq<Rule>) { rules != [] && rules[|rules| - 1] == Drop }

  /** Every frame on a port of tunnel id meets both owned chains, which end by dropping it. */
  ghost predicate Guarded(k: Kernel, id: nat) {
    && (forall h: nat :: h < HOOKS ==> Jump(id, h) in k.jumps)
    && EndsInDrop(k.inChain) && EndsInDrop(k.outChain)
  }

  /** No port is on a bridge without its whole firewall in front of it, and the owned chains
      end by dropping for as long as any tunnel interface exists. */
  ghost predicate Fenced(k: Kernel) {
    && (k.devs != map[] ==> EndsInDrop(k.inChain) && EndsInDrop(k.outChain))
    && forall p :: p in k.attached ==> Guarded(k, p.id)
  }

  ghost predicate AllFenced(log: seq<Entry>) {
    forall i :: 0 <= i < |log| ==> Fenced(log[i].after)
  }

  lemma AllFencedExtends(log: seq<Entry>, e: Entry)
    requires AllFenced(log) && Fenced(e.after)
    ensures AllFenced(log + [e])
  {}
}
