/** A net game gets on: tics run, packets carry on where they must, lost ones are asked for and sent again
    (doom/d_net.c), and machines that have drifted apart are found out (doom/g_game.c). */
module NetProgress {
  import opened Arith
  import opened Options
  import opened NetTics
  import opened NetNode
  import opened NetSystem
  import opened NetInvariant
  import opened NetSteps
  import opened NetAlarm

  // ----- running

  /** A gametic for which all commands are there is run: it is executed, counted, and nothing stops the node. */
  lemma RunAdvances(c: Config, s: System, a: nat)
    requires c.Valid() && Reachable(c, s) && Enabled(c, s, Run(a))
    ensures var x, y := s.nodes[a], Apply(c, s, Run(a)).nodes[a];
            && y.gametic == x.gametic + 1 && y.fault.Fine? && y.ran == x.ran + [Row(c, x)]
            && y.nettics == x.nettics && y.maketic == x.maketic && y.issued == x.issued
  {
    ReachableInv(c, s);
    ReachableQuiet(c, s);
    forall p: nat | p < c.nodes ensures !Alarm(c, s.nodes[a], p) {
      NoAlarm(c, s, a, p);
    }
  }

  /** The sample that a command of the tic about to start should bear: the one taken twelve tics before. */
  ghost function Expected(c: Config, x: Node, p: nat): int
    requires c.Valid() && Logged(c, x)
  {
    var t := x.Div(c) - BACKUPTICS;
    if t < 0 || !(0 <= Begin(c, t) <= x.gametic) then 0 else c.sample(x.ran[..Begin(c, t)], p)
  }

  /** A machine whose history differs is found out: the node stops exactly when, past the first twelve gametics, the
      command of some player bears another sample than its own history yields. */
  lemma DriftIsFound(c: Config, x: Node)
    requires c.Valid() && Logged(c, x) && Samples(c, x) && x.fault.Fine?
    ensures RunTic(c, x).fault.ConsistencyFailure? <==>
            && x.gametic % c.ticdup == 0 && x.gametic > 12
            && exists p: nat :: p < c.nodes && Row(c, x)[p].consistancy != Expected(c, x, p)
  {
    if StartsTic(c, x) && x.gametic > 12 {
      forall p: nat | p < c.nodes ensures Alarm(c, x, p) <==> Row(c, x)[p].consistancy != Expected(c, x, p) {
        OwnSample(c, x, p);
      }
    }
  }

  lemma OwnSample(c: Config, x: Node, p: nat)
    requires c.Valid() && Logged(c, x) && Samples(c, x) && p < c.nodes && StartsTic(c, x)
    ensures x.consist[p][x.Div(c) % BACKUPTICS] == Expected(c, x, p)
  {
    BeginDiv(c, x);
    if x.Div(c) < BACKUPTICS {
      FirstSample(c, x, x.Div(c), p);
    } else {
      BeginMono(c, -1, x.Div(c) - BACKUPTICS);
      OldSample(c, x, x.Div(c), p);
    }
  }

  lemma FirstSample(c: Config, x: Node, t: nat, p: nat)
    requires c.Valid() && Logged(c, x) && Samples(c, x) && p < c.nodes && t < BACKUPTICS && x.gametic <= Begin(c, t)
    ensures x.consist[p][t % BACKUPTICS] == 0
  {
  }

  // ----- hearing

  /** A packet from b whose tics join on to those known makes all of them known; one that comes too early is missed
      and asked for; an old one changes nothing. */
  lemma HearTakes(c: Config, s: System, e: Envelope)
    requires c.Valid() && Inv(c, s) && Enabled(c, s, Hear(e))
    ensures |s.nodes| == c.nodes && s.nodes[e.dst].Shape(c)
    ensures var x, y := s.nodes[e.dst], Apply(c, s, Hear(e)).nodes[e.dst]; var end := e.start + |e.pkt.cmds|; var b := e.src;
            && y.Shape(c)
            && (end <= x.nettics[b] ==> y.nettics[b] == x.nettics[b] && y.remoteresend[b] == x.remoteresend[b])
            && (e.start <= x.nettics[b] < end ==> y.nettics[b] == end && !y.remoteresend[b])
            && (x.nettics[b] < e.start && x.nettics[b] < end ==> y.nettics[b] == x.nettics[b] && y.remoteresend[b])
  {
    assert PostOk(c, s, e);
    ExpandTicsExact(s.nodes[e.dst].maketic, e.start);
  }

  /** A request is honoured when the count has run down, which then starts again; every other packet counts down. */
  lemma HearCounts(c: Config, s: System, e: Envelope)
    requires c.Valid() && Inv(c, s) && Enabled(c, s, Hear(e))
    ensures |s.nodes| == c.nodes && s.nodes[e.dst].Shape(c)
    ensures var x, y := s.nodes[e.dst], Apply(c, s, Hear(e)).nodes[e.dst]; var b := e.src;
            && y.Shape(c)
            && (if e.pkt.retransmit && x.resendcount[b] <= 0 then
                  y.resendto[b] == e.from && y.resendcount[b] == 10 && y.asked[b]
                else y.resendto[b] == x.resendto[b] && y.resendcount[b] == x.resendcount[b] - 1 && y.asked[b] == x.asked[b])
  {
    assert PostOk(c, s, e);
    if e.pkt.retransmit {
      ExpandTicsExact(s.nodes[e.dst].maketic, e.from);
    }
  }

  /** The state after packets from node b. */
  function ReceiveAll(c: Config, n: Node, b: nat, ps: seq<Packet>): (r: Node)
    requires c.Valid() && n.Shape(c) && b < c.nodes && forall i :: 0 <= i < |ps| ==> ps[i].player < c.nodes
    ensures r.Shape(c)
    decreases |ps|
  {
    if ps == [] then n else ReceiveAll(c, Receive(c, n, b, ps[0]), b, ps[1..])
  }

  /** Among any packets in a row that all repeat a request, more than the count, one is honoured: the count cannot
      stay above zero. */
  lemma {:induction false} RequestIsHeard(c: Config, n: Node, b: nat, ps: seq<Packet>) returns (k: nat)
    requires c.Valid() && n.Shape(c) && b < c.nodes && forall i :: 0 <= i < |ps| ==> ps[i].player < c.nodes && ps[i].retransmit
    requires |ps| > 0 && |ps| > n.resendcount[b]
    ensures k < |ps| && ReceiveAll(c, n, b, ps[..k]).resendcount[b] <= 0
    ensures Receive(c, ReceiveAll(c, n, b, ps[..k]), b, ps[k]).asked[b]
    decreases |ps|
  {
    if n.resendcount[b] <= 0 {
      k := 0;
      assert ReceiveAll(c, n, b, ps[..0]) == n;
    } else {
      var m := Receive(c, n, b, ps[0]);
      var j := RequestIsHeard(c, m, b, ps[1..]);
      k := j + 1;
      assert ps[..k][1..] == ps[1..][..j];
    }
  }

  // ----- sending

  /** An update that does not stop sends every other node a packet with all its tics from the one where sending is to
      resume, and the request for the first tic that it misses, if any. The next packet will begin `extratics` earlier
      than this one ends. */
  lemma SendPosts(c: Config, s: System, a: nat, elapsed: nat, inputs: seq<Cmd>, b: nat) returns (t: System, e: Envelope)
    requires c.Valid() && Inv(c, s) && Enabled(c, s, Send(a, elapsed, inputs)) && b < c.nodes && b != a
    requires Apply(c, s, Send(a, elapsed, inputs)).nodes[a].fault.Fine?
    ensures t == Apply(c, s, Send(a, elapsed, inputs)) && |t.nodes| == c.nodes == |s.nodes| && s.nodes[a].Shape(c) && t.nodes[a].Shape(c)
    ensures e in t.net && e.src == a && e.dst == b && e.start == s.nodes[a].resendto[b] && e.from == s.nodes[a].nettics[b]
    ensures 0 <= e.start && e.start + |e.pkt.cmds| == t.nodes[a].maketic == |t.nodes[a].issued|
    ensures e.pkt.cmds == t.nodes[a].issued[e.start..] && e.pkt.retransmit == s.nodes[a].remoteresend[b]
    ensures t.nodes[a].resendto[b] == t.nodes[a].maketic - c.extratics && |e.pkt.cmds| <= BACKUPTICS
    ensures t.nodes[a].nettics == s.nodes[a].nettics && t.nodes == s.nodes[a := t.nodes[a]]
  {
    var x := s.nodes[a];
    assert Own(c, x) && Knows(c, x, a, x.issued);
    var y := Built(c, x, elapsed, inputs);
    BuiltKeeps(c, x, elapsed, inputs);
    t := Apply(c, s, Send(a, elapsed, inputs));
    e := Envelope(a, b, PacketFor(c, y, b), y.resendto[b], y.nettics[b]);
    var out := AllSent(c, y);
    PacketCarries(c, y, b);
    InPosted(y, out, b);
  }

  lemma AllSent(c: Config, y: Node) returns (out: seq<Packet>)
    requires c.Valid() && y.Shape(c) && SendAll(c, y).node.fault.Fine?
    ensures out == SendAll(c, y).out && |out| == c.nodes == SendCount(c, y, 0)
    ensures forall b :: 0 <= b < c.nodes ==> out[b] == PacketFor(c, y, b) && NumTics(y, b) <= BACKUPTICS
  {
    var k := SendCount(c, y, 0);
    assert k == c.nodes;
    out := seq(k, i requires 0 <= i < c.nodes => PacketFor(c, y, i));
    assert SendAll(c, y).out == out;
  }

  lemma InPosted(n: Node, out: seq<Packet>, k: nat)
    requires |out| <= |n.resendto| && |out| <= |n.nettics| && k < |out| && k != n.self
    ensures Envelope(n.self, k, out[k], n.resendto[k], n.nettics[k]) in Posted(n, out)
  {
  }

  /** A node hears of its own new tics through the packet that rebounds, if sending resumes no later than it knows. */
  lemma OwnTicsKnown(c: Config, s: System, a: nat, elapsed: nat, inputs: seq<Cmd>) returns (t: System, u: System)
    requires c.Valid() && Inv(c, s) && Enabled(c, s, Send(a, elapsed, inputs))
    requires Apply(c, s, Send(a, elapsed, inputs)).nodes[a].fault.Fine?
    requires a < |s.nodes[a].resendto| && a < |s.nodes[a].nettics| && s.nodes[a].resendto[a] <= s.nodes[a].nettics[a]
    ensures t == Apply(c, s, Send(a, elapsed, inputs)) && Enabled(c, t, HearSelf(a)) && u == Apply(c, t, HearSelf(a))
    ensures a < |u.nodes| && u.nodes[a].Shape(c) && u.nodes[a].nettics[a] == u.nodes[a].maketic == t.nodes[a].maketic
  {
    var x := s.nodes[a];
    assert Own(c, x) && Knows(c, x, a, x.issued);
    var y := Built(c, x, elapsed, inputs);
    BuiltKeeps(c, x, elapsed, inputs);
    var out := AllSent(c, y);
    PacketCarries(c, y, a);
    t := Apply(c, s, Send(a, elapsed, inputs));
    var n := t.nodes[a];
    assert n.rebound == Some(PacketFor(c, y, a)) && n.maketic == y.maketic && n.nettics == x.nettics;
    ExpandTicsExact(n.maketic, y.resendto[a]);
    u := Apply(c, t, HearSelf(a));
    SelfTakes(c, n, a, PacketFor(c, y, a), y.resendto[a]);
  }

  lemma SelfTakes(c: Config, n: Node, a: nat, p: Packet, start: nat)
    requires c.Valid() && n.Shape(c) && a < c.nodes && p.player < c.nodes && start == ExpandTics(n.maketic, p.starttic)
    requires start <= n.nettics[a] <= start + |p.cmds| == n.maketic
    ensures Receive(c, n.(rebound := None), a, p).nettics[a] == n.maketic
    ensures Receive(c, n.(rebound := None), a, p).maketic == n.maketic
  {
  }

  // ----- repair

  lemma SentTimely(c: Config, s: System, e: Envelope)
    requires c.Valid() && Inv(c, s) && e in s.net && e.src < c.nodes && e.dst < c.nodes
    requires e.start + |e.pkt.cmds| == s.nodes[e.src].maketic && |e.pkt.cmds| <= BACKUPTICS && e.from == s.nodes[e.src].nettics[e.dst]
    requires s.nodes[e.dst].fault.Fine?
    ensures Enabled(c, s, Hear(e))
  {
    assert PostOk(c, s, e);
    Windows(c, s, e.src, e.dst);
    Windows(c, s, e.dst, e.src);
    Windows(c, s, e.src, e.src);
    Windows(c, s, e.dst, e.dst);
  }

  /** A loss is made good in four steps: node a, which misses tics of b, sends; b hears the request and sends; a hears
      that, and knows all that b has made. */
  lemma LossIsRepaired(c: Config, s: System, a: nat, b: nat, mine: (nat, seq<Cmd>), theirs: (nat, seq<Cmd>))
    returns (s1: System, e1: Envelope, s2: System, s3: System, e2: Envelope, s4: System)
    requires c.Valid() && Inv(c, s) && a < c.nodes && b < c.nodes && a != b
    requires s.nodes[a].remoteresend[b] && s.nodes[b].resendcount[a] <= 0 && s.nodes[b].fault.Fine?
    requires Enabled(c, s, Send(a, mine.0, mine.1)) && Apply(c, s, Send(a, mine.0, mine.1)).nodes[a].fault.Fine?
    requires 0 < theirs.0 <= |theirs.1|
    ensures s1 == Apply(c, s, Send(a, mine.0, mine.1)) && Enabled(c, s1, Hear(e1)) && e1.src == a && e1.dst == b
    ensures s2 == Apply(c, s1, Hear(e1)) && Enabled(c, s2, Send(b, theirs.0, theirs.1))
    ensures s3 == Apply(c, s2, Send(b, theirs.0, theirs.1)) && |s3.nodes| == c.nodes
    ensures s3.nodes[b].fault.Fine? ==>
              && Enabled(c, s3, Hear(e2)) && e2.src == b && e2.dst == a && s4 == Apply(c, s3, Hear(e2)) && |s4.nodes| == c.nodes
              && s4.nodes[a].Shape(c) && s4.nodes[a].nettics[b] == s4.nodes[b].maketic
              && (s3.nodes[a].nettics[b] < s3.nodes[b].maketic ==> !s4.nodes[a].remoteresend[b])
  {
    s1, e1 := SendPosts(c, s, a, mine.0, mine.1, b);
    SendInv(c, s, a, mine.0, mine.1);
    SentTimely(c, s1, e1);
    HearCounts(c, s1, e1);
    HearInv(c, s1, e1);
    s2 := Apply(c, s1, Hear(e1));
    var r := HearKeeps(c, s1, e1);
    s3 := Apply(c, s2, Send(b, theirs.0, theirs.1));
    e2, s4 := e1, s3;
    if s3.nodes[b].fault.Fine? {
      s3, e2, s4 := Answered(c, s2, b, a, theirs.0, theirs.1);
    }
  }

  lemma HearKeeps(c: Config, s: System, e: Envelope) returns (y: Node)
    requires c.Valid() && Inv(c, s) && Enabled(c, s, Hear(e)) && e.src != e.dst
    ensures y == Apply(c, s, Hear(e)).nodes[e.dst] && y.fault.Fine? && y.Shape(c)
    ensures Apply(c, s, Hear(e)).nodes == s.nodes[e.dst := y]
  {
    y := Receive(c, s.nodes[e.dst], e.src, e.pkt);
  }

  /** A node that is to resume sending to `a` where a's knowledge ends tells it everything. */
  lemma Answered(c: Config, s: System, b: nat, a: nat, elapsed: nat, inputs: seq<Cmd>) returns (t: System, e: Envelope, u: System)
    requires c.Valid() && Inv(c, s) && a < c.nodes && b < c.nodes && a != b && s.nodes[a].fault.Fine?
    requires Enabled(c, s, Send(b, elapsed, inputs)) && s.nodes[b].resendto[a] == s.nodes[a].nettics[b]
    requires Apply(c, s, Send(b, elapsed, inputs)).nodes[b].fault.Fine?
    ensures t == Apply(c, s, Send(b, elapsed, inputs)) && |t.nodes| == c.nodes
    ensures Enabled(c, t, Hear(e)) && e.src == b && e.dst == a && u == Apply(c, t, Hear(e)) && |u.nodes| == c.nodes
    ensures u.nodes[a].Shape(c) && u.nodes[a].nettics[b] == u.nodes[b].maketic
    ensures t.nodes[a].nettics[b] < t.nodes[b].maketic ==> !u.nodes[a].remoteresend[b]
  {
    t, e := SendPosts(c, s, b, elapsed, inputs, a);
    SendInv(c, s, b, elapsed, inputs);
    SentTimely(c, t, e);
    HearTakes(c, t, e);
    u := Apply(c, t, Hear(e));
    var y := HearKeeps(c, t, e);
  }
}
