/** "NetUpdate: netbuffer->numtics > BACKUPTICS" can happen in a sound net game:
    a retransmit request that is delivered late makes a node resend more than the
    ring holds. When exactly it happens, and a run in which it does. */
module NetStale {
  import opened Arith
  import opened Options
  import opened NetTics
  import opened NetNode
  import opened NetSystem
  import opened NetInvariant
  import opened NetSteps
  import opened NetAlarm

  /** A NetUpdate stops with the error iff it must honour a retransmit request from
      before the last twelve tics; without a request it never does. */
  lemma TooManyTicsExactly(c: Config, s: System, a: nat, elapsed: nat, inputs: seq<Cmd>)
    requires c.Valid() && Reachable(c, s) && Enabled(c, s, Send(a, elapsed, inputs))
    ensures var x := s.nodes[a];
            Apply(c, s, Send(a, elapsed, inputs)).nodes[a].fault.TooManyTics? <==>
            exists b :: 0 <= b < c.nodes && x.asked[b] &&
                        Built(c, x, elapsed, inputs).maketic - x.resendto[b] > BACKUPTICS
  {
    ReachableInv(c, s);
    var x := s.nodes[a];
    assert Own(c, x) && Knows(c, x, a, x.issued);
    var y := Built(c, x, elapsed, inputs);
    TicsToSend(c, x, elapsed, inputs);
    TooManyAfter(c, y);
  }

  lemma TooManyAfter(c: Config, y: Node)
    requires c.Valid() && y.Shape(c) && y.fault.Fine?
    ensures SendAll(c, y).node.fault.TooManyTics? <==> exists b :: 0 <= b < c.nodes && NumTics(y, b) > BACKUPTICS
  {
    var k := SendCount(c, y, 0);
  }

  /** Up to there no node owes another as much as a byte can count. */
  lemma TicsToSend(c: Config, x: Node, elapsed: nat, inputs: seq<Cmd>)
    requires c.Valid() && Own(c, x) && x.fault.Fine? && 0 < elapsed <= |inputs|
    requires x.Div(c) <= x.nettics[x.self] <= x.maketic
    ensures var y := Built(c, x, elapsed, inputs);
            && y.Shape(c) && y.fault.Fine?
            && forall b :: 0 <= b < c.nodes ==>
                 NumTics(y, b) == y.maketic - x.resendto[b] && (!x.asked[b] ==> NumTics(y, b) <= BACKUPTICS)
  {
    BuiltKeeps(c, x, elapsed, inputs);
  }

  // ----- reachability, one step at a time

  lemma ReachStep(c: Config, s: System, step: Step)
    requires c.Valid() && Reachable(c, s) && Enabled(c, s, step)
    ensures Reachable(c, Apply(c, s, step))
  {
    var steps :| Leads(c, Start(c), steps, s);
    LeadsOn(c, Start(c), steps, s, step);
  }

  // ----- a game of two

  /** Two nodes, no duplication, one backup tic, as doom/i_net.c sets it up. */
  predicate Pair(c: Config) {
    c.nodes == 2 && c.ticdup == 1 && c.extratics == 1
  }

  /** The counters of a running node: tics made and run, the tics it knows of itself and
      of the other node, where it resumes sending to either, whether it misses tics. */
  datatype Brief = Brief(make: nat, game: nat, mine: nat, theirs: nat, toMe: int, toThem: int, missing: bool)

  predicate Is(c: Config, n: Node, a: nat, f: Brief) {
    && Pair(c) && a < 2 && n.Shape(c) && n.self == a && n.fault.Fine? && n.skiptics == 0
    && n.maketic == f.make && n.gametic == f.game
    && n.nettics[a] == f.mine && n.nettics[1 - a] == f.theirs
    && n.resendto[a] == f.toMe && n.resendto[1 - a] == f.toThem
    && n.remoteresend[a] == false && n.remoteresend[1 - a] == f.missing
    && n.resendcount[0] <= 0 && n.resendcount[1] <= 0
  }

  /** A reachable state in which the two nodes stand at f and g and the packet q is under way. */
  ghost predicate At(c: Config, s: System, f: Brief, g: Brief, q: Envelope) {
    Pair(c) && Reachable(c, s) && |s.nodes| == 2 && Is(c, s.nodes[0], 0, f) && Is(c, s.nodes[1], 1, g) && q in s.net
  }

  function Blanks(k: nat): (s: seq<Cmd>)
    ensures |s| == k
  {
    Replicate(k, BLANK)
  }

  lemma {:induction false} BuildsAll(c: Config, n: Node, k: nat)
    requires Pair(c) && n.Shape(c) && n.maketic + k <= n.gametic + 5
    ensures BuildTics(c, n, Blanks(k)).maketic == n.maketic + k
    decreases k
  {
    if k > 0 {
      DivIs(n.gametic, 1, n.gametic, 0);
      assert Blanks(k)[1..] == Blanks(k - 1);
      BuildsAll(c, BuildOne(c, n, Blanks(k)[0]), k - 1);
    }
  }

  /** Can a node in state f make k tics, send them and take its own copy? */
  predicate CanBeat(f: Brief, k: nat) {
    && 1 <= k && f.make + k <= f.game + 5
    && 0 <= f.toMe <= f.mine <= f.make <= f.toMe + BACKUPTICS - k
    && 0 <= f.toThem <= f.make <= f.toThem + BACKUPTICS - k
  }

  function SentOff(f: Brief, k: nat): Brief {
    f.(make := f.make + k, toMe := f.make + k - 1, toThem := f.make + k - 1)
  }

  function Beaten(f: Brief, k: nat): Brief {
    SentOff(f, k).(mine := f.make + k)
  }

  /** A packet of node a from tic `start` to tic `end`. */
  predicate Plain(p: Packet, a: nat, start: int, end: int) {
    p.player == a && p.starttic == start % 256 && |p.cmds| == end - start
  }

  lemma BuiltBrief(c: Config, x: Node, a: nat, f: Brief, k: nat)
    requires Is(c, x, a, f) && CanBeat(f, k)
    ensures var y := Built(c, x, k, Blanks(k));
            && y == x.(maketic := f.make + k, localcmds := y.localcmds, issued := y.issued)
            && NumTics(y, a) == f.make + k - f.toMe && NumTics(y, 1 - a) == f.make + k - f.toThem
  {
    assert Blanks(k)[..k] == Blanks(k);
    BuildsAll(c, Ticked(x, k), k);
    BuildTicsKeeps(c, Ticked(x, k), Blanks(k));
  }

  lemma SentBrief(c: Config, x: Node, a: nat, f: Brief, k: nat)
    requires Is(c, x, a, f) && CanBeat(f, k)
    ensures var s := SendAll(c, Built(c, x, k, Blanks(k)));
            && Is(c, s.node, a, SentOff(f, k)) && |s.out| == 2 && s.node.rebound == Some(s.out[a])
            && Plain(s.out[a], a, f.toMe, f.make + k) && !s.out[a].retransmit
            && Plain(s.out[1 - a], a, f.toThem, f.make + k) && s.out[1 - a].retransmit == f.missing
            && (f.missing ==> s.out[1 - a].retransmitfrom == f.theirs % 256)
  {
    BuiltBrief(c, x, a, f, k);
    var y := Built(c, x, k, Blanks(k));
    assert SendCount(c, y, 0) == 2;
  }

  /** What the next packet of the own commands does to the counters. */
  lemma SelfBrief(c: Config, x: Node, a: nat, f: Brief, p: Packet, start: nat, end: nat)
    requires Is(c, x, a, f) && Plain(p, a, start, end) && !p.retransmit
    requires -64 <= start - f.make <= 64 && start <= f.mine < end
    ensures Is(c, Receive(c, x, a, p), a, f.(mine := end))
  {
    ExpandTicsExact(x.maketic, start);
  }

  function Told(f: Brief, start: nat, end: nat): Brief {
    if end <= f.theirs then f
    else if start > f.theirs then f.(missing := true)
    else f.(theirs := end, missing := false)
  }

  /** What a packet of the other node, without a request, does to the counters. */
  lemma ToldBrief(c: Config, x: Node, a: nat, f: Brief, p: Packet, start: nat, end: nat)
    requires Is(c, x, a, f) && Plain(p, 1 - a, start, end) && !p.retransmit
    requires -64 <= start - f.make <= 64
    ensures Is(c, Receive(c, x, 1 - a, p), a, Told(f, start, end))
  {
    ExpandTicsExact(x.maketic, start);
  }

  lemma RunBrief(c: Config, x: Node, a: nat, f: Brief)
    requires Is(c, x, a, f) && RunTic(c, x).fault != ConsistencyFailure
    ensures Is(c, RunTic(c, x), a, f.(game := f.game + 1))
  {
  }

  // ----- moves of the two-node game

  /** Node a of a reachable state stands at f. */
  ghost predicate Stands(c: Config, s: System, a: nat, f: Brief) {
    Pair(c) && Reachable(c, s) && |s.nodes| == 2 && a < 2 && Is(c, s.nodes[a], a, f)
  }

  /** Only node a moved, and no packet got lost. */
  predicate Moved(s: System, t: System, a: nat) {
    && |s.nodes| == |t.nodes| == 2 && a < 2 && t.nodes[1 - a] == s.nodes[1 - a]
    && s.net <= t.net
  }

  /** The packet that node a, at f, sends to the other after making k tics. */
  predicate Mail(e: Envelope, a: nat, f: Brief, k: nat) {
    && a < 2 && e.src == a && e.dst == 1 - a && e.start == f.toThem && e.from == f.theirs
    && Plain(e.pkt, a, f.toThem, f.make + k) && e.pkt.retransmit == f.missing
    && (f.missing ==> e.pkt.retransmitfrom == f.theirs % 256)
  }

  lemma Sends(c: Config, s: System, a: nat, f: Brief, k: nat) returns (t: System, e: Envelope)
    requires Stands(c, s, a, f) && CanBeat(f, k)
    ensures Stands(c, t, a, SentOff(f, k)) && Moved(s, t, a) && e in t.net && Mail(e, a, f, k)
    ensures t.nodes[a].rebound.Some?
    ensures var p := t.nodes[a].rebound.value; Plain(p, a, f.toMe, f.make + k) && !p.retransmit
  {
    var x := s.nodes[a];
    SentBrief(c, x, a, f, k);
    BuiltBrief(c, x, a, f, k);
    var y := Built(c, x, k, Blanks(k));
    t := Apply(c, s, Send(a, k, Blanks(k)));
    ReachStep(c, s, Send(a, k, Blanks(k)));
    var out := SendAll(c, y).out;
    e := Envelope(a, 1 - a, out[1 - a], y.resendto[1 - a], y.nettics[1 - a]);
    assert e in Posted(y, out);
  }

  lemma HearsItself(c: Config, s: System, a: nat, f: Brief, start: nat, end: nat) returns (t: System)
    requires Stands(c, s, a, f) && s.nodes[a].rebound.Some?
    requires var p := s.nodes[a].rebound.value; Plain(p, a, start, end) && !p.retransmit
    requires -64 <= start - f.make <= 64 && start <= f.mine < end
    ensures Stands(c, t, a, f.(mine := end)) && Moved(s, t, a) && t.net == s.net
  {
    SelfBrief(c, s.nodes[a].(rebound := None), a, f, s.nodes[a].rebound.value, start, end);
    t := Apply(c, s, HearSelf(a));
    ReachStep(c, s, HearSelf(a));
  }

  /** Node a makes k tics, sends them, and hears itself. */
  lemma Beat(c: Config, s: System, a: nat, f: Brief, k: nat) returns (t: System, e: Envelope)
    requires Stands(c, s, a, f) && CanBeat(f, k)
    ensures Stands(c, t, a, Beaten(f, k)) && Moved(s, t, a) && e in t.net && Mail(e, a, f, k)
  {
    t, e := Sends(c, s, a, f, k);
    t := HearsItself(c, t, a, SentOff(f, k), f.toMe, f.make + k);
  }

  /** Node a hears a packet of the other node that carries no request. */
  lemma Listen(c: Config, s: System, a: nat, f: Brief, e: Envelope, g: Brief, k: nat) returns (t: System)
    requires Stands(c, s, a, f) && CanBeat(g, k)
    requires e in s.net && Mail(e, 1 - a, g, k) && !g.missing && -64 <= e.start - f.make <= 64
    ensures Stands(c, t, a, Told(f, g.toThem, g.make + k)) && Moved(s, t, a) && t.net == s.net
  {
    ToldBrief(c, s.nodes[a], a, f, e.pkt, g.toThem, g.make + k);
    t := Apply(c, s, Hear(e));
    ReachStep(c, s, Hear(e));
  }

  /** Node a runs a tic; in a reachable state the consistency alarm stays silent. */
  lemma Tick(c: Config, s: System, a: nat, f: Brief) returns (t: System)
    requires Stands(c, s, a, f) && f.game < f.mine && f.game < f.theirs
    ensures Stands(c, t, a, f.(game := f.game + 1)) && Moved(s, t, a) && t.net == s.net
  {
    t := Apply(c, s, Run(a));
    ReachStep(c, s, Run(a));
    NoFalseAlarm(c, t, a);
    RunBrief(c, s.nodes[a], a, f);
  }

  // ----- the run

  /** A node that has made and heard m tics of both, and run all but three of them. */
  function Level(m: nat): Brief
    requires m >= 3
  {
    Brief(m, m - 3, m, m, m - 1, m - 1, false)
  }

  /** The first request of node 1, for tic 0. */
  predicate Request(q: Envelope) {
    Mail(q, 1, Brief(0, 0, 0, 0, 0, 0, true), 1)
  }

  /** Node 0's second packet overtakes its first; node 1 asks for tic 0, then gets both. */
  lemma Opening(c: Config) returns (s: System, q: Envelope)
    requires Pair(c)
    ensures At(c, s, Level(3), Level(3), q) && Request(q)
  {
    s := Start(c);
    assert Leads(c, s, [], s);
    var zero := Brief(0, 0, 0, 0, 0, 0, false);
    var two := Brief(2, 0, 2, 0, 1, 1, false);
    var first, second, third;
    s, first := Beat(c, s, 0, zero, 2);
    s, second := Beat(c, s, 0, two, 1);
    s := Listen(c, s, 1, zero, second, two, 1);
    s, q := Beat(c, s, 1, zero.(missing := true), 1);
    s := Listen(c, s, 1, Brief(1, 0, 1, 0, 0, 0, true), first, zero, 2);
    s := Listen(c, s, 1, Brief(1, 0, 1, 2, 0, 0, false), second, two, 1);
    var g := Brief(1, 0, 1, 3, 0, 0, false);
    s, third := Beat(c, s, 1, g, 2);
    s := Listen(c, s, 0, Brief(3, 0, 3, 0, 2, 2, false), third, g, 2);
  }

  /** The two nodes get one tic further. */
  lemma Round(c: Config, s: System, m: nat, q: Envelope) returns (t: System)
    requires m >= 3 && At(c, s, Level(m), Level(m), q)
    ensures At(c, t, Level(m + 1), Level(m + 1), q)
  {
    var f := Level(m).(game := m - 2);
    var e0, e1;
    t := Tick(c, s, 0, Level(m));
    t := Tick(c, t, 1, Level(m));
    t, e0 := Beat(c, t, 0, f, 1);
    t, e1 := Beat(c, t, 1, f, 1);
    t := Listen(c, t, 1, Beaten(f, 1), e0, f, 1);
    t := Listen(c, t, 0, Beaten(f, 1), e1, f, 1);
  }

  lemma {:induction false} Rounds(c: Config, m: nat) returns (s: System, q: Envelope)
    requires Pair(c) && m >= 3
    ensures At(c, s, Level(m), Level(m), q) && Request(q)
  {
    if m == 3 {
      s, q := Opening(c);
    } else {
      s, q := Rounds(c, m - 1);
      s := Round(c, s, m - 1, q);
    }
  }

  /** Thirteen tics on, the old request arrives and node 0 obeys it. */
  lemma ObeysOldRequest(c: Config) returns (t: System)
    requires Pair(c)
    ensures Reachable(c, t) && |t.nodes| == 2 && Up(c, t, 0)
    ensures var n := t.nodes[0]; n.maketic == 13 && n.gametic == 10 && n.skiptics == 0 && n.asked[1] && n.resendto[1] == 0
  {
    var s, q := Rounds(c, 13);
    ReachStep(c, s, Hear(q));
    t := Apply(c, s, Hear(q));
  }

  /** Its next NetUpdate then stops the game. */
  lemma StaleRequestStops(c: Config)
    requires Pair(c)
    ensures exists s: System :: Reachable(c, s) && |s.nodes| == 2 && s.nodes[0].fault.TooManyTics?
  {
    var t := ObeysOldRequest(c);
    var step := Send(0, 1, Blanks(1));
    ReachStep(c, t, step);
    assert Blanks(1)[..1] == Blanks(1);
    BuildsAll(c, Ticked(t.nodes[0], 1), 1);
    TooManyTicsExactly(c, t, 0, 1, Blanks(1));
    assert Reachable(c, Apply(c, t, step));
  }
}
