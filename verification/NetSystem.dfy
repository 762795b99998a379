/** The net game as a whole: nodes stepping in any order over a network that
    drops, duplicates, delays and reorders packets. */
module NetSystem {
  import opened Options
  import opened NetTics
  import opened NetNode

  /** A packet under way, with the tic numbers its bytes were cut from. */
  datatype Envelope = Envelope(src: nat, dst: nat, pkt: Packet, start: int, from: int)

  /** Every packet ever sent stays in `net`: delivering it never, late or twice is up to the run. */
  datatype System = System(nodes: seq<Node>, net: set<Envelope>)

  datatype Step =
    | Send(a: nat, elapsed: nat, inputs: seq<Cmd>)  // NetUpdate up to its listen label
    | HearSelf(a: nat)                              // GetPackets takes the rebound packet
    | Hear(e: Envelope)                             // GetPackets takes a packet of the network
    | Run(a: nat)                                   // one gametic of TryRunTics
    | Slow(a: nat, k: nat)                          // TryRunTics sets skiptics

  function Start(c: Config): (s: System)
    requires c.Valid()
  {
    System(seq(c.nodes, a requires 0 <= a < c.nodes => Fresh(c, a)), {})
  }

  predicate Up(c: Config, s: System, a: nat) {
    a < c.nodes == |s.nodes| && s.nodes[a].Shape(c) && s.nodes[a].fault.Fine?
  }

  /** The freshness assumption: byte-sized tic numbers reach a receiver within 64 tics. */
  predicate Timely(n: Node, e: Envelope) {
    && -64 <= e.start - n.maketic <= 64
    && (e.pkt.retransmit ==> -64 <= e.from - n.maketic <= 64)
  }

  predicate Enabled(c: Config, s: System, step: Step)
    requires c.Valid()
  {
    match step
    case Send(a, elapsed, inputs) => Up(c, s, a) && 0 < elapsed <= |inputs|
    case HearSelf(a) => Up(c, s, a) && s.nodes[a].rebound.Some? && s.nodes[a].rebound.value.player < c.nodes
    case Hear(e) =>
      e in s.net && Up(c, s, e.dst) && e.src < c.nodes && e.pkt.player < c.nodes && Timely(s.nodes[e.dst], e)
    case Run(a) => Up(c, s, a) && forall b :: 0 <= b < c.nodes ==> s.nodes[a].Div(c) < s.nodes[a].nettics[b]
    case Slow(a, k) => Up(c, s, a) && k < c.nodes && s.nodes[a].nettics[k] < s.nodes[a].nettics[a]
  }

  function Posted(n: Node, out: seq<Packet>): (es: set<Envelope>)
    requires |out| <= |n.resendto| && |out| <= |n.nettics|
  {
    set k | 0 <= k < |out| && k != n.self :: Envelope(n.self, k, out[k], n.resendto[k], n.nettics[k])
  }

  function Apply(c: Config, s: System, step: Step): (r: System)
    requires c.Valid() && Enabled(c, s, step)
    ensures |r.nodes| == |s.nodes|
  {
    match step
    case Send(a, elapsed, inputs) =>
      var built := Built(c, s.nodes[a], elapsed, inputs);
      var sending := SendAll(c, built);
      System(s.nodes[a := sending.node], s.net + Posted(built, sending.out))
    case HearSelf(a) =>
      var n := s.nodes[a];
      System(s.nodes[a := Receive(c, n.(rebound := None), a, n.rebound.value)], s.net)
    case Hear(e) =>
      System(s.nodes[e.dst := Receive(c, s.nodes[e.dst], e.src, e.pkt)], s.net)
    case Run(a) =>
      System(s.nodes[a := RunTic(c, s.nodes[a])], s.net)
    case Slow(a, k) =>
      System(s.nodes[a := s.nodes[a].(skiptics := 1)], s.net)
  }

  /** `t` is reached from `s` by the steps, each enabled when it is taken. */
  ghost predicate Leads(c: Config, s: System, steps: seq<Step>, t: System)
    requires c.Valid()
    decreases |steps|
  {
    if steps == [] then s == t
    else Enabled(c, s, steps[0]) && Leads(c, Apply(c, s, steps[0]), steps[1..], t)
  }

  ghost predicate Reachable(c: Config, s: System)
    requires c.Valid()
  {
    exists steps :: Leads(c, Start(c), steps, s)
  }
}
