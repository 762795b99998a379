/** The consistency check of G_Ticker raises no false alarm: the slot stamped into
    a command and the slot it is compared with hold the sample of the same tic. */
module NetAlarm {
  import opened Arith
  import opened Options
  import opened NetTics
  import opened NetNode
  import opened NetSystem
  import opened NetInvariant
  import opened NetSteps

  /** The gametic at which tic t starts. */
  function Begin(c: Config, t: int): int {
    t * c.ticdup
  }

  lemma BeginMono(c: Config, t: int, u: int)
    requires t < u
    ensures Begin(c, t) + c.ticdup <= Begin(c, u)
  {
    MulGap(t, u, c.ticdup);
  }

  lemma SameSlot(t: nat)
    ensures (t + BACKUPTICS) % BACKUPTICS == t % BACKUPTICS
  {
  }

  /** Where gametic stands between the beginnings of tics. */
  lemma BeginDiv(c: Config, x: Node)
    requires c.Valid()
    ensures Begin(c, x.Div(c)) <= x.gametic < Begin(c, x.Div(c)) + c.ticdup
    ensures StartsTic(c, x) <==> x.gametic == Begin(c, x.Div(c))
  {
  }

  /** The rings have their sizes and the executed rows their count. */
  predicate Logged(c: Config, x: Node) {
    x.Shape(c) && |x.ran| == x.gametic
  }

  /** Slot t % 12 was last written for tic t. */
  predicate LastIn(c: Config, gametic: nat, t: int) {
    0 <= t && 0 <= Begin(c, t) < gametic <= Begin(c, t + BACKUPTICS)
  }

  ghost predicate Samples(c: Config, x: Node)
    requires c.Valid() && Logged(c, x)
  {
    && (forall t, p :: LastIn(c, x.gametic, t) && 0 <= p < c.nodes ==>
          x.consist[p][t % BACKUPTICS] == c.sample(x.ran[..Begin(c, t)], p))
    && (forall t, p :: 0 <= t < BACKUPTICS && x.gametic <= Begin(c, t) && 0 <= p < c.nodes ==> x.consist[p][t] == 0)
  }

  /** The own command of tic t bears the sample of tic t - 12 (zero for the first ones). */
  ghost predicate Stamped(c: Config, x: Node, t: nat)
    requires c.Valid() && Logged(c, x) && t < |x.issued|
  {
    if t < BACKUPTICS then x.issued[t].consistancy == 0
    else
      && 0 <= Begin(c, t - BACKUPTICS) <= x.gametic
      && x.issued[t].consistancy == c.sample(x.ran[..Begin(c, t - BACKUPTICS)], x.self)
  }

  ghost predicate Stamps(c: Config, x: Node)
    requires c.Valid() && Logged(c, x)
  {
    forall t :: 0 <= t < |x.issued| ==> Stamped(c, x, t)
  }

  /** A node that holds the right samples, issued the right stamps and raised no alarm. */
  ghost predicate Silent(c: Config, x: Node)
    requires c.Valid()
  {
    Logged(c, x) && Samples(c, x) && Stamps(c, x) && x.fault != ConsistencyFailure
  }

  ghost predicate Quiet(c: Config, s: System)
    requires c.Valid() && Inv(c, s)
  {
    forall a :: 0 <= a < c.nodes ==> Silent(c, s.nodes[a])
  }

  // ----- running

  lemma SlotApart(c: Config, gametic: nat, div: nat, t: int)
    requires c.Valid() && gametic == Begin(c, div) && LastIn(c, gametic + 1, t) && t != div
    ensures t % BACKUPTICS != div % BACKUPTICS && LastIn(c, gametic, t)
  {
    if t > div {
      BeginMono(c, div, t);
    } else {
      BeginMono(c, t, div);
      if t + BACKUPTICS <= div {
        if t + BACKUPTICS < div { BeginMono(c, t + BACKUPTICS, div); }
      }
    }
  }

  lemma SampledAt(c: Config, x: Node, y: Node, t: int, p: nat)
    requires c.Valid() && Logged(c, x) && Samples(c, x) && p < c.nodes
    requires y == x.(gametic := x.gametic + 1, ran := x.ran + [Row(c, x)], consist := Sampled(c, x), netcmds := y.netcmds)
    requires LastIn(c, y.gametic, t)
    ensures y.consist[p][t % BACKUPTICS] == c.sample(y.ran[..Begin(c, t)], p)
  {
    BeginDiv(c, x);
    assert y.ran[..Begin(c, t)] == x.ran[..Begin(c, t)];
    if StartsTic(c, x) {
      if t == x.Div(c) {
        assert x.ran[..x.gametic] == x.ran;
      } else {
        SlotApart(c, x.gametic, x.Div(c), t);
      }
    } else if Begin(c, t) == x.gametic {
      if t < x.Div(c) { BeginMono(c, t, x.Div(c)); }
      if t > x.Div(c) { BeginMono(c, x.Div(c), t); }
    } else {
      assert LastIn(c, x.gametic, t);
    }
  }

  lemma UnsampledAt(c: Config, x: Node, t: nat, p: nat)
    requires c.Valid() && Logged(c, x) && Samples(c, x) && p < c.nodes
    requires t < BACKUPTICS && x.gametic + 1 <= Begin(c, t)
    ensures Sampled(c, x)[p][t] == 0
  {
    BeginDiv(c, x);
    if t <= x.Div(c) {
      if t < x.Div(c) { BeginMono(c, t, x.Div(c)); }
    } else {
      assert x.Div(c) % BACKUPTICS == x.Div(c);
    }
    assert x.consist[p][t] == 0;
  }

  lemma RunSamples(c: Config, x: Node)
    requires c.Valid() && Logged(c, x) && Samples(c, x) && Stamps(c, x)
    requires forall p: nat :: p < c.nodes ==> !Alarm(c, x, p)
    requires Logged(c, RunTic(c, x))
    ensures Samples(c, RunTic(c, x)) && Stamps(c, RunTic(c, x))
  {
    var y := RunTic(c, x);
    forall t, p | LastIn(c, y.gametic, t) && 0 <= p < c.nodes
      ensures y.consist[p][t % BACKUPTICS] == c.sample(y.ran[..Begin(c, t)], p)
    {
      SampledAt(c, x, y, t, p);
    }
    forall t, p | 0 <= t < BACKUPTICS && y.gametic <= Begin(c, t) && 0 <= p < c.nodes ensures y.consist[p][t] == 0 {
      UnsampledAt(c, x, t, p);
    }
    forall t | 0 <= t < |y.issued| ensures Stamped(c, y, t) {
      assert Stamped(c, x, t);
      if t >= BACKUPTICS {
        assert y.ran[..Begin(c, t - BACKUPTICS)] == x.ran[..Begin(c, t - BACKUPTICS)];
      }
    }
  }

  /** Rows executed by two nodes agree as far as both have come. */
  lemma PrefixAgrees(c: Config, s: System, a: nat, b: nat, k: nat)
    requires c.Valid() && Inv(c, s) && a < c.nodes && b < c.nodes
    requires k <= s.nodes[a].gametic && k <= s.nodes[b].gametic
    ensures s.nodes[a].ran[..k] == s.nodes[b].ran[..k]
  {
    var x, y := s.nodes[a], s.nodes[b];
    forall g | 0 <= g < k ensures x.ran[g] == y.ran[g] {
      forall p | 0 <= p < c.nodes ensures x.ran[g][p] == y.ran[g][p] {
        assert Knows(c, x, p, s.nodes[p].issued) && Knows(c, y, p, s.nodes[p].issued);
        assert Executed(c, x, p, s.nodes[p].issued, g);
        assert Executed(c, y, p, s.nodes[p].issued, g);
      }
      assert x.ran[g] == y.ran[g];
    }
  }

  /** The comparison for player p, given that p's history agrees with the own one. */
  lemma NoAlarmAt(c: Config, x: Node, p: nat, y: Node)
    requires c.Valid() && Logged(c, x) && Samples(c, x) && Logged(c, y) && Stamps(c, y) && y.self == p < c.nodes
    requires StartsTic(c, x) && x.Div(c) < |y.issued| && Row(c, x)[p] == y.issued[x.Div(c)]
    requires forall k :: 0 <= k <= x.gametic && k <= y.gametic ==> x.ran[..k] == y.ran[..k]
    ensures !Alarm(c, x, p)
  {
    BeginDiv(c, x);
    SampleIsStamp(c, x, x.Div(c), p, y);
  }

  /** The sample in the slot of tic t is the one that p's command of that tic bears. */
  lemma SampleIsStamp(c: Config, x: Node, t: nat, p: nat, y: Node)
    requires c.Valid() && Logged(c, x) && Samples(c, x) && Logged(c, y) && Stamps(c, y) && y.self == p < c.nodes
    requires x.gametic == Begin(c, t) && t < |y.issued|
    requires forall k :: 0 <= k <= x.gametic && k <= y.gametic ==> x.ran[..k] == y.ran[..k]
    ensures x.consist[p][t % BACKUPTICS] == y.issued[t].consistancy
  {
    assert Stamped(c, y, t);
    if t >= BACKUPTICS {
      OldSample(c, x, t, p);
    } else {
      assert x.consist[p][t] == 0;
    }
  }

  /** At the start of tic t the slot of t still holds the sample taken twelve tics before. */
  lemma OldSample(c: Config, x: Node, t: nat, p: nat)
    requires c.Valid() && Logged(c, x) && Samples(c, x) && p < c.nodes
    requires t >= BACKUPTICS && Begin(c, t) == x.gametic
    ensures Begin(c, t - BACKUPTICS) <= x.gametic
    ensures x.consist[p][t % BACKUPTICS] == c.sample(x.ran[..Begin(c, t - BACKUPTICS)], p)
  {
    var u := t - BACKUPTICS;
    BeginMono(c, -1, u);
    BeginMono(c, u, t);
    SameSlot(u);
    assert LastIn(c, x.gametic, u);
  }

  /** No enabled tic raises the consistency alarm. */
  lemma NoAlarm(c: Config, s: System, a: nat, p: nat)
    requires c.Valid() && Inv(c, s) && Quiet(c, s) && Enabled(c, s, Run(a)) && p < c.nodes
    ensures !Alarm(c, s.nodes[a], p)
  {
    var x, y := s.nodes[a], s.nodes[p];
    assert Knows(c, x, p, y.issued);
    RowCanon(c, x, p, y.issued);
    if StartsTic(c, x) {
      forall k | 0 <= k <= x.gametic && k <= y.gametic ensures x.ran[..k] == y.ran[..k] {
        PrefixAgrees(c, s, a, p, k);
      }
      NoAlarmAt(c, x, p, y);
    }
  }

  // ----- building

  /** The slot read while building tic t still holds the sample of tic t - 12. */
  lemma BuildStamp(c: Config, x: Node, t: nat)
    requires c.Valid() && Logged(c, x) && Samples(c, x)
    requires x.Div(c) <= t < x.Div(c) + BACKUPTICS / 2 - 1 && (!StartsTic(c, x) ==> x.Div(c) < t)
    ensures if t < BACKUPTICS then x.consist[x.self][t] == 0
            else
              && 0 <= Begin(c, t - BACKUPTICS) <= x.gametic
              && x.consist[x.self][t % BACKUPTICS] == c.sample(x.ran[..Begin(c, t - BACKUPTICS)], x.self)
  {
    BeginDiv(c, x);
    if x.Div(c) < t { BeginMono(c, x.Div(c), t); }
    assert x.gametic <= Begin(c, t);
    if t >= BACKUPTICS {
      var u := t - BACKUPTICS;
      BeginMono(c, u, x.Div(c));
      if u > 0 { BeginMono(c, 0, u); }
      assert LastIn(c, x.gametic, u);
      assert t % BACKUPTICS == u % BACKUPTICS;
    }
  }

  /** The node differs from x only by commands built since. */
  predicate BuiltSince(x: Node, n: Node) {
    n == x.(maketic := n.maketic, localcmds := n.localcmds, issued := n.issued, skiptics := n.skiptics)
  }

  lemma BuildOneStamps(c: Config, x: Node, n: Node, input: Cmd)
    requires c.Valid() && Logged(c, x) && Samples(c, x) && Logged(c, n) && BuiltSince(x, n) && CanBuild(c, n)
    requires |n.issued| == n.maketic && x.Div(c) <= n.maketic && (!StartsTic(c, x) ==> x.Div(c) < n.maketic)
    requires Stamps(c, n)
    ensures Stamps(c, BuildOne(c, n, input))
  {
    var m := BuildOne(c, n, input);
    BuildStamp(c, x, n.maketic);
    forall t | 0 <= t < |m.issued| ensures Stamped(c, m, t) {
      if t < |n.issued| {
        assert Stamped(c, n, t);
      }
    }
  }

  lemma {:induction false} BuildTicsStamps(c: Config, x: Node, n: Node, inputs: seq<Cmd>)
    requires c.Valid() && Logged(c, x) && Samples(c, x)
    requires Logged(c, n) && BuiltSince(x, n)
    requires |n.issued| == n.maketic && x.Div(c) <= n.maketic && (!StartsTic(c, x) ==> x.Div(c) < n.maketic)
    requires Stamps(c, n)
    ensures var r := BuildTics(c, n, inputs); Logged(c, r) && Stamps(c, r)
    decreases |inputs|
  {
    if inputs != [] && CanBuild(c, n) {
      var m := BuildOne(c, n, inputs[0]);
      BuildOneStamps(c, x, n, inputs[0]);
      BuildTicsStamps(c, x, m, inputs[1..]);
    }
  }

  lemma SendStamps(c: Config, x: Node, elapsed: nat, inputs: seq<Cmd>)
    requires c.Valid() && Own(c, x) && x.fault.Fine? && Samples(c, x) && Stamps(c, x) && 0 < elapsed <= |inputs|
    requires Window(c, x, x.self, x.maketic)
    ensures var y := SendAll(c, Built(c, x, elapsed, inputs)).node;
            Logged(c, y) && Samples(c, y) && Stamps(c, y) && y.fault != ConsistencyFailure
  {
    BuiltKeeps(c, x, elapsed, inputs);
    var n := Ticked(x, elapsed);
    QuietSame(c, x, n);
    BuildTicsStamps(c, x, n, inputs[..NewTics(x.skiptics, elapsed)]);
    var b := Built(c, x, elapsed, inputs);
    assert Samples(c, b);
    QuietSame(c, b, SendAll(c, b).node);
  }

  // ----- all runs

  lemma QuietSame(c: Config, x: Node, y: Node)
    requires c.Valid() && Logged(c, x) && Logged(c, y) && Samples(c, x) && Stamps(c, x)
    requires y.gametic == x.gametic && y.ran == x.ran && y.consist == x.consist && y.issued == x.issued && y.self == x.self
    ensures Samples(c, y) && Stamps(c, y)
  {
    forall t | 0 <= t < |y.issued| ensures Stamped(c, y, t) {
      assert Stamped(c, x, t);
    }
  }

  lemma ReceiveQuiet(c: Config, x: Node, b: nat, p: Packet)
    requires c.Valid() && Silent(c, x) && b < c.nodes && p.player == b
    ensures Silent(c, Receive(c, x, b, p))
  {
    ReceiveFrame(c, x, b, p);
    QuietSame(c, x, Receive(c, x, b, p));
  }

  lemma RunQuiet(c: Config, s: System, a: nat)
    requires c.Valid() && Inv(c, s) && Quiet(c, s) && Enabled(c, s, Run(a))
    ensures Silent(c, RunTic(c, s.nodes[a]))
  {
    forall p: nat | p < c.nodes ensures !Alarm(c, s.nodes[a], p) {
      NoAlarm(c, s, a, p);
    }
    RunSamples(c, s.nodes[a]);
  }

  /** The one node a step changes is silent afterwards. */
  lemma ActorQuiet(c: Config, s: System, step: Step)
    requires c.Valid() && Inv(c, s) && Quiet(c, s) && Enabled(c, s, step)
    ensures forall a :: 0 <= a < c.nodes ==> Silent(c, Apply(c, s, step).nodes[a])
  {
    match step
    case Send(a, elapsed, inputs) =>
      assert Knows(c, s.nodes[a], a, s.nodes[a].issued);
      SendStamps(c, s.nodes[a], elapsed, inputs);
    case HearSelf(a) =>
      var x := s.nodes[a];
      assert Own(c, x);
      QuietSame(c, x, x.(rebound := None));
      ReceiveQuiet(c, x.(rebound := None), a, x.rebound.value);
    case Hear(e) =>
      assert PostOk(c, s, e);
      ReceiveQuiet(c, s.nodes[e.dst], e.src, e.pkt);
    case Run(a) => RunQuiet(c, s, a);
    case Slow(a, k) => QuietSame(c, s.nodes[a], s.nodes[a].(skiptics := 1));
  }

  lemma StepQuiet(c: Config, s: System, step: Step)
    requires c.Valid() && Inv(c, s) && Quiet(c, s) && Enabled(c, s, step)
    ensures Inv(c, Apply(c, s, step)) && Quiet(c, Apply(c, s, step))
  {
    StepInv(c, s, step);
    ActorQuiet(c, s, step);
  }

  lemma StartQuiet(c: Config)
    requires c.Valid()
    ensures Inv(c, Start(c)) && Quiet(c, Start(c))
  {
    StartInv(c);
    forall t | 0 <= t ensures 0 <= Begin(c, t) {
      if t > 0 { BeginMono(c, 0, t); }
    }
  }

  lemma {:induction false} LeadsQuiet(c: Config, s: System, steps: seq<Step>, t: System)
    requires c.Valid() && Inv(c, s) && Quiet(c, s) && Leads(c, s, steps, t)
    ensures Inv(c, t) && Quiet(c, t)
    decreases |steps|
  {
    if steps != [] {
      StepQuiet(c, s, steps[0]);
      LeadsQuiet(c, Apply(c, s, steps[0]), steps[1..], t);
    }
  }

  lemma ReachableQuiet(c: Config, s: System)
    requires c.Valid() && Reachable(c, s)
    ensures Inv(c, s) && Quiet(c, s)
  {
    StartQuiet(c);
    var steps :| Leads(c, Start(c), steps, s);
    LeadsQuiet(c, Start(c), steps, s);
  }

  /** In every run, no node ever stops with a consistency failure. */
  lemma NoFalseAlarm(c: Config, s: System, a: nat)
    requires c.Valid() && Reachable(c, s) && a < c.nodes
    ensures |s.nodes| == c.nodes && s.nodes[a].fault != ConsistencyFailure
  {
    ReachableQuiet(c, s);
    assert Silent(c, s.nodes[a]);
  }
}
