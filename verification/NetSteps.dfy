/** Each step of a net game keeps the invariant; hence every run does. */
module NetSteps {
  import opened Arith
  import opened Options
  import opened NetTics
  import opened NetNode
  import opened NetSystem
  import opened NetInvariant

  /** What a node holds of a player depends on these five fields only. */
  lemma KnowsSame(c: Config, x: Node, y: Node, b: nat, issued: seq<Cmd>)
    requires c.Valid() && Own(c, x) && Own(c, y) && b < c.nodes
    requires y.gametic == x.gametic && y.ran == x.ran && y.nettics[b] == x.nettics[b] && y.netcmds[b] == x.netcmds[b]
    requires Knows(c, x, b, issued)
    ensures Knows(c, y, b, issued)
  {
    forall g | 0 <= g < y.gametic ensures Executed(c, y, b, issued, g) {
      assert Executed(c, x, b, issued, g);
    }
  }

  // ----- Send

  lemma BuildOneRing(c: Config, n: Node, input: Cmd)
    requires c.Valid() && n.Shape(c) && OwnRing(c, n) && CanBuild(c, n)
    ensures OwnRing(c, BuildOne(c, n, input))
  {
    var r := BuildOne(c, n, input);
    forall t | 0 <= t < r.maketic <= t + BACKUPTICS ensures r.localcmds[t % BACKUPTICS] == r.issued[t] {
      if t < n.maketic {
        assert t % BACKUPTICS != n.maketic % BACKUPTICS;
      }
    }
  }

  lemma {:induction false} BuildTicsRing(c: Config, n: Node, inputs: seq<Cmd>)
    requires c.Valid() && n.Shape(c) && OwnRing(c, n)
    ensures var r := BuildTics(c, n, inputs);
            && OwnRing(c, r) && Grows(n, r)
            && (inputs != [] && CanBuild(c, n) ==> n.maketic < r.maketic)
    decreases |inputs|
  {
    if inputs != [] && CanBuild(c, n) {
      var m := BuildOne(c, n, inputs[0]);
      BuildOneRing(c, n, inputs[0]);
      BuildTicsRing(c, m, inputs[1..]);
    }
  }

  /** Building keeps the rings, moves nothing else, and builds at least the very first tic. */
  lemma BuiltKeeps(c: Config, x: Node, elapsed: nat, inputs: seq<Cmd>)
    requires c.Valid() && Own(c, x) && x.fault.Fine? && 0 < elapsed <= |inputs|
    requires x.Div(c) <= x.nettics[x.self] <= x.maketic
    ensures var y := Built(c, x, elapsed, inputs);
            && OwnRing(c, y) && Grows(x, y) && 1 <= y.maketic <= x.maketic + 5
            && y == x.(maketic := y.maketic, localcmds := y.localcmds, issued := y.issued, skiptics := y.skiptics)
  {
    var n := Ticked(x, elapsed);
    var ins := inputs[..NewTics(x.skiptics, elapsed)];
    BuildTicsKeeps(c, n, ins);
    BuildTicsRing(c, n, ins);
  }

  lemma PacketCarries(c: Config, y: Node, i: nat)
    requires c.Valid() && y.Shape(c) && OwnRing(c, y) && i < c.nodes
    requires 0 <= y.resendto[i] <= y.maketic < y.resendto[i] + 256
    requires NumTics(y, i) <= BACKUPTICS
    ensures NumTics(y, i) == y.maketic - y.resendto[i]
    ensures Carries(PacketFor(c, y, i), y.resendto[i], y)
  {
    var p := PacketFor(c, y, i);
    var from := y.resendto[i];
    forall j | 0 <= j < |p.cmds| ensures p.cmds[j] == y.issued[from + j] {
      assert y.localcmds[(from + j) % BACKUPTICS] == y.issued[from + j];
    }
  }

  lemma SentOwn(c: Config, x: Node, y: Node)
    requires c.Valid() && Own(c, x) && x.fault.Fine? && y.Shape(c) && OwnRing(c, y)
    requires x.Div(c) <= x.nettics[x.self] <= x.maketic && Grows(x, y) && 1 <= y.maketic <= x.maketic + 5
    requires y == x.(maketic := y.maketic, localcmds := y.localcmds, issued := y.issued, skiptics := y.skiptics)
    ensures Own(c, SendAll(c, y).node)
  {
    var k := SendCount(c, y, 0);
    var r := SendAll(c, y).node;
    if k == c.nodes {
      PacketCarries(c, y, y.self);
      var p := PacketFor(c, y, y.self);
      ExpandTicsExact(y.maketic, y.resendto[y.self]);
      ExpandTicsExact(y.maketic, y.nettics[y.self]);
      assert OwnRebound(r);
    }
  }

  lemma SendInv(c: Config, s: System, a: nat, elapsed: nat, inputs: seq<Cmd>)
    requires c.Valid() && Inv(c, s) && Enabled(c, s, Send(a, elapsed, inputs))
    ensures Inv(c, Apply(c, s, Send(a, elapsed, inputs)))
  {
    var x := s.nodes[a];
    assert Knows(c, x, a, x.issued);
    var y := Built(c, x, elapsed, inputs);
    BuiltKeeps(c, x, elapsed, inputs);
    SentOwn(c, x, y);
    var sending := SendAll(c, y);
    var r := sending.node;
    forall b | 0 <= b < c.nodes ensures Knows(c, r, b, if b == a then r.issued else s.nodes[b].issued) {
      KnowsSame(c, x, r, b, s.nodes[b].issued);
      if b == a {
        KnowsMore(c, r, a, x.issued, r.issued);
      }
    }
    var posts := Posted(y, sending.out);
    var t := System(s.nodes[a := r], s.net);
    forall e | e in posts ensures PostOk(c, t, e) {
      SentPost(c, s, a, y, r, e.dst);
    }
    Replace(c, s, a, r, posts);
  }

  /** The packet to node b is in order. */
  lemma SentPost(c: Config, s: System, a: nat, y: Node, r: Node, b: nat)
    requires c.Valid() && Inv(c, s) && a < c.nodes && b < c.nodes && b != a && s.nodes[a].fault.Fine?
    requires y.Shape(c) && OwnRing(c, y) && Grows(s.nodes[a], y) && y.maketic <= s.nodes[a].maketic + 5
    requires y.resendto == s.nodes[a].resendto && y.nettics == s.nodes[a].nettics
    requires r.self == y.self && r.issued == y.issued && r.maketic == y.maketic && NumTics(y, b) <= BACKUPTICS
    ensures y.resendto[b] >= 0
    ensures PostOk(c, System(s.nodes[a := r], s.net), Envelope(a, b, PacketFor(c, y, b), y.resendto[b], y.nettics[b]))
  {
    assert Own(c, s.nodes[a]) && Knows(c, s.nodes[a], b, s.nodes[b].issued) && Knows(c, s.nodes[a], a, s.nodes[a].issued);
    PacketCarries(c, y, b);
  }

  // ----- Hear and HearSelf

  lemma {:induction false} StoreAt(ring: seq<Cmd>, tic: nat, cmds: seq<Cmd>, t: nat)
    requires |ring| == BACKUPTICS && |cmds| <= BACKUPTICS
    requires tic + |cmds| <= t + BACKUPTICS && t < tic + |cmds|
    ensures Store(ring, tic, cmds)[t % BACKUPTICS] == if t < tic then ring[t % BACKUPTICS] else cmds[t - tic]
    decreases |cmds|
  {
    if cmds != [] {
      var ring' := ring[tic % BACKUPTICS := cmds[0]];
      if t < tic {
        assert t % BACKUPTICS != tic % BACKUPTICS;
      }
      if |cmds| > 1 || t < tic {
        StoreAt(ring', tic + 1, cmds[1..], t);
      }
    }
  }

  lemma HearRequestKeeps(c: Config, x: Node, b: nat, p: Packet)
    requires c.Valid() && Own(c, x) && x.fault.Fine? && b < c.nodes
    requires p.retransmit ==> InSight(x, ExpandTics(x.maketic, p.retransmitfrom))
    ensures var y := HearRequest(c, x, b, p);
            && Own(c, y)
            && y == x.(resendto := y.resendto, resendcount := y.resendcount, asked := y.asked)
  {
  }

  /** Taking commands that `issued` really holds keeps the ring of player b right. */
  lemma TakeRing(c: Config, x: Node, b: nat, p: Packet, start: nat, issued: seq<Cmd>)
    requires c.Valid() && Own(c, x) && b < c.nodes && p.player == b
    requires start == ExpandTics(x.maketic, p.starttic) <= x.nettics[b] < start + |p.cmds| <= |issued|
    requires |p.cmds| <= BACKUPTICS && p.cmds == issued[start..start + |p.cmds|]
    requires |issued| <= x.Div(c) + BACKUPTICS
    requires Window(c, x, b, |issued|) && Ring(c, x, b, issued)
    ensures var y := TakeCommands(c, x, b, p); Ring(c, y, b, issued)
  {
    var y := TakeCommands(c, x, b, p);
    var tail := p.cmds[x.nettics[b] - start..];
    forall t | y.Div(c) <= t < y.nettics[b] ensures y.netcmds[b][t % BACKUPTICS] == Shown(c, y, issued, t) {
      StoreAt(x.netcmds[b], x.nettics[b], tail, t);
      if t < x.nettics[b] {
        assert x.netcmds[b][t % BACKUPTICS] == Shown(c, x, issued, t);
      }
    }
  }

  lemma TakeKeeps(c: Config, x: Node, b: nat, p: Packet, start: nat, src: Node)
    requires c.Valid() && Own(c, x) && b < c.nodes && src.self == b
    requires start == ExpandTics(x.maketic, p.starttic) && Carries(p, start, src)
    requires |src.issued| <= x.Div(c) + BACKUPTICS
    requires Knows(c, x, b, src.issued)
    ensures var y := TakeCommands(c, x, b, p); Own(c, y) && Knows(c, y, b, src.issued)
  {
    var y := TakeCommands(c, x, b, p);
    if start <= x.nettics[b] < start + |p.cmds| {
      TakeRing(c, x, b, p, start, src.issued);
      forall g | 0 <= g < y.gametic ensures Executed(c, y, b, src.issued, g) {
        assert Executed(c, x, b, src.issued, g);
      }
    } else {
      KnowsSame(c, x, y, b, src.issued);
    }
  }

  /** Receiving from node b leaves what concerns the other nodes, and the own tics, alone. */
  lemma ReceiveFrame(c: Config, x: Node, b: nat, p: Packet)
    requires c.Valid() && x.Shape(c) && b < c.nodes && p.player == b
    ensures var r := Receive(c, x, b, p);
            && r.self == x.self && r.maketic == x.maketic && r.issued == x.issued
            && r.gametic == x.gametic && r.ran == x.ran
            && (forall d :: 0 <= d < c.nodes && d != b ==> r.nettics[d] == x.nettics[d] && r.netcmds[d] == x.netcmds[d])
  {
  }

  lemma ReceiveKeeps(c: Config, x: Node, b: nat, p: Packet, start: nat, src: Node)
    requires c.Valid() && Own(c, x) && x.fault.Fine? && b < c.nodes && src.self == b
    requires start == ExpandTics(x.maketic, p.starttic) && Carries(p, start, src)
    requires p.retransmit ==> InSight(x, ExpandTics(x.maketic, p.retransmitfrom))
    requires |src.issued| <= x.Div(c) + BACKUPTICS
    requires Knows(c, x, b, src.issued)
    ensures var r := Receive(c, x, b, p); Own(c, r) && Knows(c, r, b, src.issued)
  {
    var y := HearRequest(c, x, b, p);
    HearRequestKeeps(c, x, b, p);
    KnowsSame(c, x, y, b, src.issued);
    TakeKeeps(c, y, b, p, start, src);
  }

  /** Receiving at node a, out of the state x, what node b really sent. */
  lemma ReceiveInv(c: Config, s: System, a: nat, x: Node, b: nat, p: Packet, start: nat)
    requires c.Valid() && Inv(c, s) && a < c.nodes && b < c.nodes
    requires Own(c, x) && x.fault.Fine? && x == s.nodes[a].(rebound := x.rebound)
    requires start == ExpandTics(x.maketic, p.starttic) && Carries(p, start, s.nodes[b])
    requires p.retransmit ==> InSight(x, ExpandTics(x.maketic, p.retransmitfrom))
    ensures p.player < c.nodes && Inv(c, System(s.nodes[a := Receive(c, x, b, p)], s.net))
  {
    Windows(c, s, a, b);
    KnowsSame(c, s.nodes[a], x, b, s.nodes[b].issued);
    ReceiveKeeps(c, x, b, p, start, s.nodes[b]);
    ReceiveFrame(c, x, b, p);
    var r := Receive(c, x, b, p);
    forall d | 0 <= d < c.nodes ensures Knows(c, r, d, s.nodes[d].issued) {
      if d != b {
        KnowsSame(c, s.nodes[a], r, d, s.nodes[d].issued);
      }
    }
    Replace(c, s, a, r, {});
    assert s.net + {} == s.net;
  }

  lemma HearInv(c: Config, s: System, e: Envelope)
    requires c.Valid() && Inv(c, s) && Enabled(c, s, Hear(e))
    ensures Inv(c, Apply(c, s, Hear(e)))
  {
    var x := s.nodes[e.dst];
    assert PostOk(c, s, e);
    ExpandTicsExact(x.maketic, e.start);
    if e.pkt.retransmit {
      ExpandTicsExact(x.maketic, e.from);
    }
    ReceiveInv(c, s, e.dst, x, e.src, e.pkt, e.start);
  }

  lemma HearSelfInv(c: Config, s: System, a: nat)
    requires c.Valid() && Inv(c, s) && Enabled(c, s, HearSelf(a))
    ensures Inv(c, Apply(c, s, HearSelf(a)))
  {
    var x := s.nodes[a];
    assert Own(c, x);
    var p := x.rebound.value;
    ReceiveInv(c, s, a, x.(rebound := None), a, p, ExpandTics(x.maketic, p.starttic));
  }

  // ----- Run

  lemma RowCanon(c: Config, x: Node, b: nat, issued: seq<Cmd>)
    requires c.Valid() && Own(c, x) && b < c.nodes && Knows(c, x, b, issued) && x.Div(c) < x.nettics[b]
    ensures Row(c, x)[b] == Canon(c, issued, x.gametic)
  {
  }

  /** A tic that will run again is blanked in its slot; the later tics keep theirs. */
  lemma BlankedAt(c: Config, x: Node, b: nat, t: nat)
    requires c.Valid() && x.Shape(c) && b < c.nodes && x.Div(c) <= t < x.Div(c) + BACKUPTICS
    ensures Blanked(c, x)[b][t % BACKUPTICS] ==
            if t == x.Div(c) && (x.gametic + 1) % c.ticdup != 0 then Repeated(x.netcmds[b][t % BACKUPTICS])
            else x.netcmds[b][t % BACKUPTICS]
  {
    var again := (x.gametic + 1) % c.ticdup != 0;
    assert again ==> (x.gametic + 1) / c.ticdup == x.Div(c) by { DivStep(x.gametic, c.ticdup); }
    BlankedRow(c, x, b, x.Div(c) % BACKUPTICS);
    SlotsApart(x.Div(c), t);
  }

  lemma BlankedRow(c: Config, x: Node, b: nat, slot: nat)
    requires c.Valid() && x.Shape(c) && b < c.nodes && slot < BACKUPTICS
    requires (x.gametic + 1) % c.ticdup != 0 ==> slot == (x.gametic + 1) / c.ticdup % BACKUPTICS
    ensures Blanked(c, x)[b] == if (x.gametic + 1) % c.ticdup == 0 then x.netcmds[b]
                                else x.netcmds[b][slot := Repeated(x.netcmds[b][slot])]
  {
  }

  lemma SlotsApart(s: nat, t: nat)
    requires s <= t < s + BACKUPTICS
    ensures t % BACKUPTICS == s % BACKUPTICS <==> t == s
  {
  }

  lemma RunRing(c: Config, x: Node, b: nat, issued: seq<Cmd>)
    requires c.Valid() && Own(c, x) && b < c.nodes && Knows(c, x, b, issued)
    requires x.Div(c) < x.nettics[b] <= x.Div(c) + BACKUPTICS
    requires forall p: nat :: p < c.nodes ==> !Alarm(c, x, p)
    ensures Ring(c, RunTic(c, x), b, issued)
  {
    var y := RunTic(c, x);
    DivStep(x.gametic, c.ticdup);
    forall t | y.Div(c) <= t < y.nettics[b] ensures y.netcmds[b][t % BACKUPTICS] == Shown(c, y, issued, t) {
      assert x.netcmds[b][t % BACKUPTICS] == Shown(c, x, issued, t);
      BlankedAt(c, x, b, t);
    }
  }

  lemma RunKnows(c: Config, x: Node, b: nat, issued: seq<Cmd>)
    requires c.Valid() && Own(c, x) && b < c.nodes && Knows(c, x, b, issued)
    requires x.Div(c) < x.nettics[b] <= x.Div(c) + BACKUPTICS
    requires forall p: nat :: p < c.nodes ==> !Alarm(c, x, p)
    requires Own(c, RunTic(c, x))
    ensures Knows(c, RunTic(c, x), b, issued)
  {
    var y := RunTic(c, x);
    DivStep(x.gametic, c.ticdup);
    RunRing(c, x, b, issued);
    RowCanon(c, x, b, issued);
    forall g | 0 <= g < y.gametic ensures Executed(c, y, b, issued, g) {
      if g < x.gametic {
        assert Executed(c, x, b, issued, g);
      }
    }
  }

  lemma RunInv(c: Config, s: System, a: nat)
    requires c.Valid() && Inv(c, s) && Enabled(c, s, Run(a))
    ensures Inv(c, Apply(c, s, Run(a)))
  {
    var x := s.nodes[a];
    var y := RunTic(c, x);
    if p: nat :| p < c.nodes && Alarm(c, x, p) {
      assert Own(c, y);
      forall b | 0 <= b < c.nodes ensures Knows(c, y, b, s.nodes[b].issued) {
        KnowsSame(c, x, y, b, s.nodes[b].issued);
      }
    } else {
      DivStep(x.gametic, c.ticdup);
      assert Own(c, y);
      forall b | 0 <= b < c.nodes ensures Knows(c, y, b, s.nodes[b].issued) {
        Windows(c, s, a, b);
        RunKnows(c, x, b, s.nodes[b].issued);
      }
    }
    Replace(c, s, a, y, {});
    assert s.net + {} == s.net;
  }

  lemma SlowInv(c: Config, s: System, a: nat, k: nat)
    requires c.Valid() && Inv(c, s) && Enabled(c, s, Slow(a, k))
    ensures Inv(c, Apply(c, s, Slow(a, k)))
  {
    var x := s.nodes[a];
    var y := x.(skiptics := 1);
    assert Knows(c, x, a, x.issued);
    assert Own(c, y);
    forall b | 0 <= b < c.nodes ensures Knows(c, y, b, s.nodes[b].issued) {
      KnowsSame(c, x, y, b, s.nodes[b].issued);
    }
    Replace(c, s, a, y, {});
    assert s.net + {} == s.net;
  }

  // ----- all runs

  lemma StepInv(c: Config, s: System, step: Step)
    requires c.Valid() && Inv(c, s) && Enabled(c, s, step)
    ensures Inv(c, Apply(c, s, step))
  {
    match step
    case Send(a, elapsed, inputs) => SendInv(c, s, a, elapsed, inputs);
    case HearSelf(a) => HearSelfInv(c, s, a);
    case Hear(e) => HearInv(c, s, e);
    case Run(a) => RunInv(c, s, a);
    case Slow(a, k) => SlowInv(c, s, a, k);
  }

  lemma {:induction false} LeadsInv(c: Config, s: System, steps: seq<Step>, t: System)
    requires c.Valid() && Inv(c, s) && Leads(c, s, steps, t)
    ensures Inv(c, t)
    decreases |steps|
  {
    if steps != [] {
      StepInv(c, s, steps[0]);
      LeadsInv(c, Apply(c, s, steps[0]), steps[1..], t);
    }
  }

  lemma ReachableInv(c: Config, s: System)
    requires c.Valid() && Reachable(c, s)
    ensures Inv(c, s)
  {
    StartInv(c);
    var steps :| Leads(c, Start(c), steps, s);
    LeadsInv(c, Start(c), steps, s);
  }

  lemma {:induction false} LeadsOn(c: Config, s: System, steps: seq<Step>, t: System, step: Step)
    requires c.Valid() && Leads(c, s, steps, t) && Enabled(c, t, step)
    ensures Leads(c, s, steps + [step], Apply(c, t, step))
    decreases |steps|
  {
    if steps != [] {
      assert (steps + [step])[1..] == steps[1..] + [step];
      LeadsOn(c, Apply(c, s, steps[0]), steps[1..], t, step);
    } else {
      assert (steps + [step])[1..] == [];
    }
  }
}
