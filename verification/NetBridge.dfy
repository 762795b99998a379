/** The main loop of a machine, embedded in the net game: a NetUpdate is a run of
    steps of the system, so the theorems about all runs cover the driver. */
module NetBridge {
  import opened Options
  import opened NetTics
  import opened NetNode
  import opened NetSystem
  import opened NetInvariant
  import opened NetSteps
  import opened NetDriver

  /** The waiting packets of node a, with where they come from in the network. */
  predicate Arrived(s: System, a: nat, n: Node, mail: seq<Mail>, posts: seq<Envelope>) {
    && |mail| == |posts|
    && forall i :: 0 <= i < |mail| ==>
         posts[i] in s.net && posts[i].dst == a && Timely(n, posts[i]) && mail[i] == Mail(posts[i].src, posts[i].pkt)
  }

  lemma Leads1(c: Config, s: System, step: Step, rest: seq<Step>, t: System)
    requires c.Valid() && Enabled(c, s, step) && Leads(c, Apply(c, s, step), rest, t)
    ensures Leads(c, s, [step] + rest, t)
  {
    assert ([step] + rest)[1..] == rest;
  }

  lemma ArrivedDeliverable(c: Config, s: System, a: nat, n: Node, mail: seq<Mail>, posts: seq<Envelope>)
    requires c.Valid() && Inv(c, s) && Arrived(s, a, n, mail, posts)
    ensures Deliverable(c, mail)
  {
    forall i | 0 <= i < |mail| ensures mail[i].node < c.nodes && mail[i].pkt.player < c.nodes {
      assert PostOk(c, s, posts[i]);
    }
  }

  lemma SelfMailFits(c: Config, s: System, a: nat)
    requires c.Valid() && Inv(c, s) && Up(c, s, a)
    ensures SelfMail(c, s.nodes[a])
  {
    assert Own(c, s.nodes[a]);
  }

  lemma ReceiveFine(c: Config, n: Node, b: nat, p: Packet)
    requires c.Valid() && n.Shape(c) && b < c.nodes && p.player < c.nodes
    ensures Receive(c, n, b, p).fault == n.fault && Receive(c, n, b, p).maketic == n.maketic
    ensures Receive(c, n, b, p).rebound == n.rebound
  {
  }

  lemma HearOne(c: Config, s: System, a: nat, mail: seq<Mail>, posts: seq<Envelope>) returns (r: System)
    requires c.Valid() && Inv(c, s) && Up(c, s, a) && Arrived(s, a, s.nodes[a], mail, posts) && mail != []
    ensures mail[0].node < c.nodes && mail[0].pkt.player < c.nodes && Enabled(c, s, Hear(posts[0]))
    ensures r == Apply(c, s, Hear(posts[0]))
    ensures r == System(s.nodes[a := Receive(c, s.nodes[a], mail[0].node, mail[0].pkt)], s.net)
    ensures Inv(c, r) && Up(c, r, a) && Arrived(r, a, r.nodes[a], mail[1..], posts[1..])
    ensures r.nodes[a].rebound == s.nodes[a].rebound
  {
    assert PostOk(c, s, posts[0]);
    StepInv(c, s, Hear(posts[0]));
    r := Apply(c, s, Hear(posts[0]));
    ReceiveFine(c, s.nodes[a], posts[0].src, posts[0].pkt);
  }

  lemma HearOwn(c: Config, s: System, a: nat, mail: seq<Mail>, posts: seq<Envelope>) returns (r: System)
    requires c.Valid() && Inv(c, s) && Up(c, s, a) && Arrived(s, a, s.nodes[a], mail, posts)
    requires s.nodes[a].rebound.Some?
    ensures Enabled(c, s, HearSelf(a)) && s.nodes[a].self == a
    ensures r == Apply(c, s, HearSelf(a))
    ensures Inv(c, r) && Up(c, r, a) && Arrived(r, a, r.nodes[a], mail, posts) && r.nodes[a].rebound.None?
  {
    SelfMailFits(c, s, a);
    StepInv(c, s, HearSelf(a));
    r := Apply(c, s, HearSelf(a));
    ReceiveFine(c, s.nodes[a].(rebound := None), a, s.nodes[a].rebound.value);
  }

  /** GetPackets is a run of Hear and HearSelf steps. */
  lemma {:induction false} HeardLeads(c: Config, s: System, a: nat, mail: seq<Mail>, posts: seq<Envelope>)
    returns (steps: seq<Step>, t: System)
    requires c.Valid() && Inv(c, s) && Up(c, s, a) && Arrived(s, a, s.nodes[a], mail, posts)
    ensures Deliverable(c, mail) && SelfMail(c, s.nodes[a])
    ensures t == System(s.nodes[a := Heard(c, s.nodes[a], mail)], s.net) && Leads(c, s, steps, t)
    decreases |mail|, s.nodes[a].rebound.Some?
  {
    ArrivedDeliverable(c, s, a, s.nodes[a], mail, posts);
    SelfMailFits(c, s, a);
    if s.nodes[a].rebound.None? && mail == [] {
      steps, t := [], s;
      assert s.nodes[a := s.nodes[a]] == s.nodes;
    } else {
      var step;
      if s.nodes[a].rebound.Some? {
        var r := HearOwn(c, s, a, mail, posts);
        step := HearSelf(a);
        steps, t := HeardLeads(c, r, a, mail, posts);
      } else {
        var r := HearOne(c, s, a, mail, posts);
        step := Hear(posts[0]);
        steps, t := HeardLeads(c, r, a, mail[1..], posts[1..]);
      }
      Leads1(c, s, step, steps, t);
      steps := [step] + steps;
      assert t.nodes == s.nodes[a := t.nodes[a]];
    }
  }

  /** The state after node a has built and sent, before it listens. */
  function AfterSend(c: Config, s: System, a: nat, f: Frame): System
    requires c.Valid() && Up(c, s, a) && f.elapsed <= |f.inputs|
  {
    if f.elapsed <= 0 then s else Apply(c, s, Send(a, f.elapsed, f.inputs))
  }

  lemma AfterSendIs(c: Config, s: System, a: nat, f: Frame)
    requires c.Valid() && Inv(c, s) && Up(c, s, a) && f.elapsed <= |f.inputs|
    ensures var m := AfterSend(c, s, a, f);
            && Inv(c, m) && |m.nodes| == |s.nodes| && m.nodes == s.nodes[a := m.nodes[a]]
            && m.nodes[a] == if f.elapsed <= 0 then s.nodes[a] else Update(c, s.nodes[a], f.elapsed, f.inputs).node
  {
    if f.elapsed > 0 {
      StepInv(c, s, Send(a, f.elapsed, f.inputs));
    } else {
      assert s.nodes[a := s.nodes[a]] == s.nodes;
    }
  }

  /** Sending is one step of the run, or none. */
  lemma SendFirst(c: Config, s: System, a: nat, f: Frame, rest: seq<Step>, t: System) returns (steps: seq<Step>)
    requires c.Valid() && Up(c, s, a) && f.elapsed <= |f.inputs| && Leads(c, AfterSend(c, s, a, f), rest, t)
    ensures Leads(c, s, steps, t)
  {
    steps := rest;
    if f.elapsed > 0 {
      Leads1(c, s, Send(a, f.elapsed, f.inputs), rest, t);
      steps := [Send(a, f.elapsed, f.inputs)] + rest;
    }
  }

  /** Listening is the rest of it, unless sending has failed. */
  lemma ListenNext(c: Config, m: System, a: nat, f: Frame, posts: seq<Envelope>) returns (rest: seq<Step>, t: System)
    requires c.Valid() && Inv(c, m) && a < c.nodes && Deliverable(c, f.mail)
    requires m.nodes[a].fault.Fine? ==> Arrived(m, a, m.nodes[a], f.mail, posts)
    ensures Leads(c, m, rest, t) && t.net == m.net
    ensures m.nodes[a].fault.Fine? ==> SelfMail(c, m.nodes[a]) && t.nodes == m.nodes[a := Heard(c, m.nodes[a], f.mail)]
    ensures !m.nodes[a].fault.Fine? ==> t == m
  {
    if m.nodes[a].fault.Fine? {
      rest, t := HeardLeads(c, m, a, f.mail, posts);
    } else {
      rest, t := [], m;
    }
  }

  // ----- turns of the machines

  /** An act of the machine of node a, with the packets that it finds in the network. */
  datatype Turn = Turn(a: nat, act: Act, posts: seq<Envelope>)

  /** The act is possible, and the packets it finds have arrived in time. */
  predicate MayTake(c: Config, s: System, turn: Turn)
    requires c.Valid()
  {
    && Up(c, s, turn.a) && Possible(c, s.nodes[turn.a], turn.act)
    && (turn.act.DoUpdate? ==>
          var m := AfterSend(c, s, turn.a, turn.act.f);
          |m.nodes| == c.nodes && (m.nodes[turn.a].fault.Fine? ==> Arrived(m, turn.a, m.nodes[turn.a], turn.act.f.mail, turn.posts)))
  }

  /** The machine of node a changes, and what it sends is in the network. */
  function Taken(c: Config, s: System, turn: Turn): System
    requires c.Valid() && MayTake(c, s, turn)
  {
    System(s.nodes[turn.a := Done(c, s.nodes[turn.a], turn.act)],
           if turn.act.DoUpdate? then AfterSend(c, s, turn.a, turn.act.f).net else s.net)
  }

  /** A NetUpdate is a run of the system. */
  lemma UpdateLeads(c: Config, s: System, a: nat, f: Frame, posts: seq<Envelope>) returns (steps: seq<Step>)
    requires c.Valid() && Inv(c, s) && MayTake(c, s, Turn(a, DoUpdate(f), posts))
    ensures Leads(c, s, steps, Taken(c, s, Turn(a, DoUpdate(f), posts)))
  {
    AfterSendIs(c, s, a, f);
    var m := AfterSend(c, s, a, f);
    var rest, t := ListenNext(c, m, a, f, posts);
    steps := SendFirst(c, s, a, f, rest, t);
    assert t.nodes == s.nodes[a := Updated(c, s.nodes[a], f)];
  }

  /** Every turn of a machine is. */
  lemma TurnLeads(c: Config, s: System, turn: Turn) returns (steps: seq<Step>)
    requires c.Valid() && Inv(c, s) && MayTake(c, s, turn)
    ensures Leads(c, s, steps, Taken(c, s, turn))
  {
    match turn.act
    case DoUpdate(f) =>
      steps := UpdateLeads(c, s, turn.a, f, turn.posts);
    case DoTic =>
      Leads1(c, s, Run(turn.a), [], Apply(c, s, Run(turn.a)));
      steps := [Run(turn.a)] + [];
    case DoSlow =>
      assert Own(c, s.nodes[turn.a]);
      Leads1(c, s, Slow(turn.a, KEYNODE), [], Apply(c, s, Slow(turn.a, KEYNODE)));
      steps := [Slow(turn.a, KEYNODE)] + [];
  }

  /** The machines take turns, in any order, from s to t. */
  ghost predicate Turns(c: Config, s: System, turns: seq<Turn>, t: System)
    requires c.Valid()
    decreases |turns|
  {
    if turns == [] then s == t else MayTake(c, s, turns[0]) && Turns(c, Taken(c, s, turns[0]), turns[1..], t)
  }

  ghost predicate CanReach(c: Config, s: System, t: System)
    requires c.Valid()
  {
    exists steps :: Leads(c, s, steps, t)
  }

  lemma {:induction false} ReachFurther(c: Config, s: System, steps: seq<Step>, m: System, t: System)
    requires c.Valid() && Leads(c, s, steps, m) && CanReach(c, m, t)
    ensures CanReach(c, s, t)
    decreases |steps|
  {
    if steps != [] {
      var next := FirstStep(c, s, steps, m);
      ReachFurther(c, next, steps[1..], m, t);
      var rest :| Leads(c, next, rest, t);
      Leads1(c, s, steps[0], rest, t);
    }
  }

  lemma FirstStep(c: Config, s: System, steps: seq<Step>, t: System) returns (next: System)
    requires c.Valid() && steps != [] && Leads(c, s, steps, t)
    ensures Enabled(c, s, steps[0]) && next == Apply(c, s, steps[0]) && Leads(c, next, steps[1..], t)
  {
    next := Apply(c, s, steps[0]);
  }

  lemma ReachOn(c: Config, s: System, steps: seq<Step>, t: System)
    requires c.Valid() && Reachable(c, s) && Leads(c, s, steps, t)
    ensures Reachable(c, t)
  {
    var before :| Leads(c, Start(c), before, s);
    ReachFurther(c, Start(c), before, s, t);
  }

  /** A game played by the machines is a run of the system, so that the theorems about all runs cover it. */
  lemma {:induction false} TurnsReach(c: Config, s: System, turns: seq<Turn>, t: System)
    requires c.Valid() && Reachable(c, s) && Turns(c, s, turns, t)
    ensures Reachable(c, t)
    decreases |turns|
  {
    if turns != [] {
      ReachableInv(c, s);
      var steps := TurnLeads(c, s, turns[0]);
      ReachOn(c, s, steps, Taken(c, s, turns[0]));
      TurnsReach(c, Taken(c, s, turns[0]), turns[1..], t);
    }
  }

  /** Consecutive acts of one machine, as TryRunTics does them, find their packets in time. */
  ghost predicate InTime(c: Config, s: System, a: nat, acts: seq<Act>, posts: seq<seq<Envelope>>)
    requires c.Valid() && |posts| == |acts|
    decreases |acts|
  {
    acts == [] || (MayTake(c, s, Turn(a, acts[0], posts[0])) && InTime(c, Taken(c, s, Turn(a, acts[0], posts[0])), a, acts[1..], posts[1..]))
  }

  /** What a machine plays in its main loop is a part of such a game: it gets to the state of the machine and leaves
      the other machines alone. */
  lemma {:induction false} PlaysLeads(c: Config, s: System, a: nat, acts: seq<Act>, posts: seq<seq<Envelope>>, m: Node)
    returns (t: System)
    requires c.Valid() && Reachable(c, s) && a < c.nodes == |s.nodes| && Plays(c, s.nodes[a], acts, m)
    requires |posts| == |acts| && InTime(c, s, a, acts, posts)
    ensures Reachable(c, t) && t.nodes == s.nodes[a := m]
    decreases |acts|
  {
    if acts == [] {
      t := s;
      var trace :| IsTrace(c, s.nodes[a], acts, m, trace);
    } else {
      var turn := Turn(a, acts[0], posts[0]);
      var next := PlaysFirst(c, s.nodes[a], acts, m);
      ReachableInv(c, s);
      var steps := TurnLeads(c, s, turn);
      var r := Taken(c, s, turn);
      ReachOn(c, s, steps, r);
      t := PlaysLeads(c, r, a, acts[1..], posts[1..], m);
    }
  }
}
