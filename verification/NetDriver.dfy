/** doom/d_net.c as it is written: one machine updating its rings and counters in
    place. Every method is proved against the functions of NetNode. */
module NetDriver {
  import opened Arith
  import opened Fixed
  import opened Options
  import opened NetTics
  import opened NetNode

  /** A packet as GetPackets gets it: the node it comes from, and its contents. */
  datatype Mail = Mail(node: nat, pkt: Packet)

  predicate Deliverable(c: Config, mail: seq<Mail>) {
    forall i :: 0 <= i < |mail| ==> mail[i].node < c.nodes && mail[i].pkt.player < c.nodes
  }

  predicate SelfMail(c: Config, n: Node) {
    n.rebound.Some? ==> n.rebound.value.player < c.nodes
  }

  /** GetPackets: the rebound packet first, then what the network holds. */
  function Heard(c: Config, n: Node, mail: seq<Mail>): (r: Node)
    requires c.Valid() && n.Shape(c) && Deliverable(c, mail) && SelfMail(c, n)
    ensures r.Shape(c)
    decreases |mail|, n.rebound.Some?
  {
    if n.rebound.Some? then Heard(c, Receive(c, n.(rebound := None), n.self, n.rebound.value), mail)
    else if mail == [] then n
    else Heard(c, Receive(c, n, mail[0].node, mail[0].pkt), mail[1..])
  }

  /** Hearing the mail from i on leads to `goal`. */
  ghost predicate ToHear(c: Config, n: Node, mail: seq<Mail>, i: nat, goal: Node)
    requires c.Valid() && n.Shape(c) && Deliverable(c, mail) && SelfMail(c, n) && i <= |mail|
  {
    Heard(c, n, mail[i..]) == goal
  }

  lemma HearFirst(c: Config, n: Node, mail: seq<Mail>) returns (goal: Node)
    requires c.Valid() && n.Shape(c) && Deliverable(c, mail) && SelfMail(c, n)
    ensures goal == Heard(c, n, mail) && ToHear(c, n, mail, 0, goal)
  {
    assert mail[0..] == mail;
    goal := Heard(c, n, mail);
  }

  lemma HearLast(c: Config, n: Node, mail: seq<Mail>, goal: Node)
    requires c.Valid() && n.Shape(c) && Deliverable(c, mail) && SelfMail(c, n)
    requires ToHear(c, n, mail, |mail|, goal) && n.rebound.None?
    ensures n == goal
  {
  }

  lemma HearNext(c: Config, n: Node, mail: seq<Mail>, i: nat, goal: Node) returns (r: Node)
    requires c.Valid() && n.Shape(c) && Deliverable(c, mail) && SelfMail(c, n) && i <= |mail|
    requires ToHear(c, n, mail, i, goal) && (n.rebound.Some? || i < |mail|)
    ensures r == if n.rebound.Some? then Receive(c, n.(rebound := None), n.self, n.rebound.value)
                 else Receive(c, n, mail[i].node, mail[i].pkt)
    ensures r.Shape(c) && SelfMail(c, r) && ToHear(c, r, mail, if n.rebound.Some? then i else i + 1, goal)
  {
    if n.rebound.Some? {
      r := Receive(c, n.(rebound := None), n.self, n.rebound.value);
    } else {
      assert mail[i..][1..] == mail[i + 1..];
      r := Receive(c, n, mail[i].node, mail[i].pkt);
    }
  }

  /** What one call of NetUpdate meets: clock ticks, inputs to build from, waiting packets. */
  datatype Frame = Frame(elapsed: int, inputs: seq<Cmd>, mail: seq<Mail>)

  predicate ValidFrame(c: Config, f: Frame) {
    |f.inputs| >= f.elapsed && Deliverable(c, f.mail)
  }

  /** NetUpdate. */
  function Updated(c: Config, n: Node, f: Frame): (r: Node)
    requires c.Valid() && n.Shape(c) && ValidFrame(c, f) && SelfMail(c, n)
    ensures r.Shape(c)
  {
    if f.elapsed <= 0 then Heard(c, n, f.mail)
    else
      var sent := Update(c, n, f.elapsed, f.inputs).node;
      if sent.fault.Fine? then Heard(c, sent, f.mail) else sent
  }

  /** What a node does in its main loop: update, run a gametic, or slow down when it is ahead of the key player. */
  datatype Act = DoUpdate(f: Frame) | DoTic | DoSlow

  /** The node of the first player, to whom the others adapt. */
  const KEYNODE := 0

  predicate IsAhead(n: Node) {
    KEYNODE < |n.nettics| && n.self < |n.nettics| && n.nettics[KEYNODE] < n.nettics[n.self]
  }

  predicate Ready(c: Config, n: Node)
    requires c.Valid() && n.Shape(c)
  {
    forall b :: 0 <= b < c.nodes ==> n.Div(c) < n.nettics[b]
  }

  predicate Possible(c: Config, n: Node, act: Act)
    requires c.Valid()
  {
    && n.Shape(c) && n.fault.Fine?
    && match act
       case DoUpdate(f) => ValidFrame(c, f) && SelfMail(c, n)
       case DoTic => Ready(c, n)
       case DoSlow => IsAhead(n)
  }

  function Done(c: Config, n: Node, act: Act): (r: Node)
    requires c.Valid() && Possible(c, n, act)
  {
    match act
    case DoUpdate(f) => Updated(c, n, f)
    case DoTic => RunTic(c, n)
    case DoSlow => n.(skiptics := 1)
  }

  /** Act number i leads from one state of the trace to the next. */
  ghost predicate Acted(c: Config, acts: seq<Act>, trace: seq<Node>, i: nat)
    requires c.Valid() && i < |acts| && |trace| == |acts| + 1
  {
    Possible(c, trace[i], acts[i]) && trace[i + 1] == Done(c, trace[i], acts[i])
  }

  ghost predicate IsTrace(c: Config, n: Node, acts: seq<Act>, m: Node, trace: seq<Node>)
    requires c.Valid()
  {
    && |trace| == |acts| + 1 && trace[0] == n && trace[|acts|] == m
    && forall i: nat :: i < |acts| ==> Acted(c, acts, trace, i)
  }

  /** The node gets from n to m by the acts, each possible when it is done. */
  ghost predicate Plays(c: Config, n: Node, acts: seq<Act>, m: Node)
    requires c.Valid()
  {
    exists trace :: IsTrace(c, n, acts, m, trace)
  }

  lemma PlaysNone(c: Config, n: Node)
    requires c.Valid()
    ensures Plays(c, n, [], n)
  {
    assert IsTrace(c, n, [], n, [n]);
  }

  lemma PlaysFirst(c: Config, n: Node, acts: seq<Act>, m: Node) returns (next: Node)
    requires c.Valid() && Plays(c, n, acts, m) && acts != []
    ensures Possible(c, n, acts[0]) && next == Done(c, n, acts[0]) && Plays(c, next, acts[1..], m)
  {
    var trace :| IsTrace(c, n, acts, m, trace);
    assert Acted(c, acts, trace, 0);
    next := trace[1];
    forall i: nat | i < |acts| - 1 ensures Acted(c, acts[1..], trace[1..], i) {
      assert Acted(c, acts, trace, i + 1);
    }
    assert IsTrace(c, next, acts[1..], m, trace[1..]);
  }

  lemma PlaysOn(c: Config, n: Node, acts: seq<Act>, m: Node, act: Act)
    requires c.Valid() && Plays(c, n, acts, m) && Possible(c, m, act)
    ensures Plays(c, n, acts + [act], Done(c, m, act))
  {
    var trace :| IsTrace(c, n, acts, m, trace);
    var more := trace + [Done(c, m, act)];
    forall i: nat | i <= |acts| ensures Acted(c, acts + [act], more, i) {
      if i < |acts| {
        assert Acted(c, acts, trace, i);
      }
    }
    assert IsTrace(c, n, acts + [act], Done(c, m, act), more);
  }

  // ----- what TryRunTics is to do

  /** The least tic up to which all nodes are known; MAXINT is where the search starts. */
  function LeastTic(nettics: seq<nat>): (low: int)
    ensures low <= MAXINT && (low == MAXINT || low in nettics) && forall b :: 0 <= b < |nettics| ==> low <= nettics[b]
  {
    if nettics == [] then MAXINT
    else
      var n := |nettics| - 1;
      var low := LeastTic(nettics[..n]);
      if nettics[n] < low then nettics[n] else low
  }

  /** How many tics to run, by the clock and by what is there. */
  function TicsToRun(c: Config, n: Node, realtics: int): nat
    requires c.Valid()
  {
    var available := LeastTic(n.nettics) - n.Div(c);
    var counts := if realtics < available - 1 then realtics + 1 else if realtics < available then realtics else available;
    if counts < 1 then 1 else counts
  }

  /** With tics available it never runs more than those, and no fewer than the clock asks for if they are there; it runs
      one more than that if two more are. */
  lemma TicsToRunIs(c: Config, n: Node, realtics: int)
    requires c.Valid()
    ensures var available, counts := LeastTic(n.nettics) - n.Div(c), TicsToRun(c, n, realtics);
            && 1 <= counts && (available >= 1 ==> counts <= available)
            && (1 <= available <= realtics + 1 ==> counts == Max(1, Min(realtics, available)))
            && (0 <= realtics && realtics + 2 <= available ==> counts == realtics + 1)
            && (available < 1 ==> counts == 1)
  {
  }

  function Tics(n: nat): seq<Act> { seq(n, _ => DoTic) }

  /** n updates with the frames from k on. */
  function Updates(frames: nat -> Frame, k: nat, n: nat): seq<Act> {
    if n == 0 then [] else Updates(frames, k, n - 1) + [DoUpdate(frames(k + n - 1))]
  }

  /** n tics of all their gametics, each followed by an update. */
  function Rounds(c: Config, frames: nat -> Frame, k: nat, n: nat): seq<Act> {
    if n == 0 then [] else Rounds(c, frames, k, n - 1) + Tics(c.ticdup) + [DoUpdate(frames(k + n - 1))]
  }

  /** The gametics of n tics. */
  function Gametics(c: Config, n: nat): nat {
    if n == 0 then 0 else Gametics(c, n - 1) + c.ticdup
  }

  lemma {:induction false} GameticsAre(c: Config, n: nat)
    ensures Gametics(c, n) == n * c.ticdup
  {
    if n > 0 {
      GameticsAre(c, n - 1);
    }
  }

  /** n tics have been run, from gametic `start` to gametic `end`. */
  ghost predicate RanRounds(c: Config, frames: nat -> Frame, k: nat, n: nat, acts: seq<Act>, acts': seq<Act>, start: nat, end: nat) {
    acts' == acts + Rounds(c, frames, k, n) && end == start + Gametics(c, n)
  }

  lemma NoRounds(c: Config, frames: nat -> Frame, k: nat, acts: seq<Act>, start: nat)
    ensures RanRounds(c, frames, k, 0, acts, acts, start, start)
  {
  }

  lemma RoundsOn(c: Config, frames: nat -> Frame, k: nat, n: nat, acts: seq<Act>, acts': seq<Act>, start: nat, end: nat)
    requires RanRounds(c, frames, k, n, acts, acts', start, end)
    ensures RanRounds(c, frames, k, n + 1, acts, acts' + Tics(c.ticdup) + [DoUpdate(frames(k + n))], start, end + c.ticdup)
  {
    assert acts + Rounds(c, frames, k, n + 1) == acts + Rounds(c, frames, k, n) + Tics(c.ticdup) + [DoUpdate(frames(k + n))];
  }

  lemma UpdatesOn(frames: nat -> Frame, k: nat, n: nat, acts: seq<Act>)
    ensures acts + Updates(frames, k, n + 1) == acts + Updates(frames, k, n) + [DoUpdate(frames(k + n))]
  {
  }

  ghost predicate RanFor(c: Config, frames: nat -> Frame, acts: seq<Act>, slow: bool, waits: nat, counts: nat, acts': seq<Act>) {
    acts' == acts + (if slow then [DoSlow] else []) + Updates(frames, 1, waits) + Rounds(c, frames, 1 + waits, counts)
  }

  /** An update, perhaps the slowing down, the updates of the wait, and the tics. */
  function Schedule(c: Config, frames: nat -> Frame, slow: bool, waits: nat, counts: nat): seq<Act> {
    [DoUpdate(frames(0))] + (if slow then [DoSlow] else []) + Updates(frames, 1, waits) + Rounds(c, frames, 1 + waits, counts)
  }

  lemma Scheduled(c: Config, frames: nat -> Frame, acts: seq<Act>, slow: bool, waits: nat, counts: nat, acts': seq<Act>)
    requires acts == [] + [DoUpdate(frames(0))] && RanFor(c, frames, acts, slow, waits, counts, acts')
    ensures acts' == Schedule(c, frames, slow, waits, counts)
  {
  }

  /** Hearing packets never takes back a known tic, nor runs one. */
  predicate Ahead(n: Node, m: Node) {
    && m.gametic == n.gametic && |m.nettics| == |n.nettics|
    && forall b :: 0 <= b < |n.nettics| ==> n.nettics[b] <= m.nettics[b]
  }

  lemma {:induction false} HeardAhead(c: Config, n: Node, mail: seq<Mail>)
    requires c.Valid() && n.Shape(c) && Deliverable(c, mail) && SelfMail(c, n)
    ensures Ahead(n, Heard(c, n, mail))
    decreases |mail|, n.rebound.Some?
  {
    if n.rebound.Some? {
      var m := Receive(c, n.(rebound := None), n.self, n.rebound.value);
      assert Ahead(n, m);
      HeardAhead(c, m, mail);
    } else if mail != [] {
      var m := Receive(c, n, mail[0].node, mail[0].pkt);
      assert Ahead(n, m);
      HeardAhead(c, m, mail[1..]);
    }
  }

  lemma UpdatedAhead(c: Config, n: Node, f: Frame)
    requires c.Valid() && n.Shape(c) && ValidFrame(c, f) && SelfMail(c, n)
    ensures Ahead(n, Updated(c, n, f))
  {
    if f.elapsed <= 0 {
      HeardAhead(c, n, f.mail);
    } else {
      BuildTicsKeeps(c, Ticked(n, f.elapsed), f.inputs[..NewTics(n.skiptics, f.elapsed)]);
      var sent := Update(c, n, f.elapsed, f.inputs).node;
      assert Ahead(n, sent);
      if sent.fault.Fine? {
        HeardAhead(c, sent, f.mail);
      }
    }
  }

  function Grid<T>(a: array2<T>): (g: seq<seq<T>>)
    reads a
    ensures |g| == a.Length0
    ensures forall i :: 0 <= i < |g| ==> |g[i]| == a.Length1
    ensures forall i, j :: 0 <= i < |g| && 0 <= j < |g[i]| ==> g[i][j] == a[i, j]
  {
    seq(a.Length0, i requires 0 <= i < a.Length0 reads a =>
      seq(a.Length1, j requires 0 <= j < a.Length1 reads a => a[i, j]))
  }

  lemma GridOf<T>(a: array2<T>, x: T)
    requires forall i, j :: 0 <= i < a.Length0 && 0 <= j < a.Length1 ==> a[i, j] == x
    ensures Grid(a) == Replicate(a.Length0, Replicate(a.Length1, x))
  {
    assert forall i :: 0 <= i < a.Length0 ==> Grid(a)[i] == Replicate(a.Length1, x);
  }

  lemma PacketAlike(c: Config, n: Node, m: Node, i: nat)
    requires c.Valid() && n.Shape(c) && m.Shape(c) && i < c.nodes && m == SentTo(c, n, i)
    ensures PacketFor(c, n, i) == PacketFor(c, m, i)
  {
  }

  function Outbox(c: Config, n: Node, k: nat): seq<Packet>
    requires c.Valid() && n.Shape(c) && k <= c.nodes
  {
    seq(k, i requires 0 <= i < c.nodes => PacketFor(c, n, i))
  }

  lemma OutboxOn(c: Config, n: Node, k: nat)
    requires c.Valid() && n.Shape(c) && k < c.nodes
    ensures Outbox(c, n, k + 1) == Outbox(c, n, k) + [PacketFor(c, n, k)]
  {
  }

  lemma AllFitOn(n: Node, k: nat)
    requires k < |n.resendto| && AllFit(n, 0, k) && NumTics(n, k) <= BACKUPTICS
    ensures AllFit(n, 0, k + 1)
  {
  }

  lemma {:induction false} CountIs(c: Config, n: Node, i: nat, k: nat)
    requires c.Valid() && n.Shape(c) && i <= k <= c.nodes
    requires AllFit(n, i, k)
    requires k < c.nodes ==> NumTics(n, k) > BACKUPTICS
    ensures SendCount(c, n, i) == k
    decreases k - i
  {
    if i < k {
      CountIs(c, n, i + 1, k);
    }
  }

  /** The packet to node i is not touched by those before it. */
  lemma SentToTics(c: Config, n: Node, i: nat)
    requires c.Valid() && n.Shape(c) && i < c.nodes
    ensures NumTics(SentTo(c, n, i), i) == NumTics(n, i)
  {
  }

  /** The packets to nodes i to k - 1 are short enough. */
  predicate AllFit(n: Node, i: nat, k: nat)
    requires k <= |n.resendto|
  {
    forall j :: i <= j < k ==> NumTics(n, j) <= BACKUPTICS
  }

  lemma SentToStep(c: Config, n: Node, i: nat)
    requires c.Valid() && n.Shape(c) && i < c.nodes
    ensures var m := SentTo(c, n, i);
            SentTo(c, n, i + 1) == m.(resendto := m.resendto[i := n.maketic - c.extratics], asked := m.asked[i := false],
                                      rebound := if i == n.self then Some(PacketFor(c, n, i)) else m.rebound)
  {
    var m, m' := SentTo(c, n, i), SentTo(c, n, i + 1);
    assert m'.resendto == m.resendto[i := n.maketic - c.extratics];
    assert m'.asked == m.asked[i := false];
  }

  /** The effect of the copy loop of GetPackets. */
  function Copied(c: Config, n: Node, player: nat, node: nat, cmds: seq<Cmd>): Node
    requires c.Valid() && n.Shape(c) && player < c.nodes && node < c.nodes
  {
    n.(netcmds := n.netcmds[player := Store(n.netcmds[player], n.nettics[node], cmds)],
       nettics := n.nettics[node := n.nettics[node] + |cmds|])
  }

  lemma CopiedStep(c: Config, n: Node, player: nat, node: nat, cmds: seq<Cmd>)
    requires c.Valid() && n.Shape(c) && player < c.nodes && node < c.nodes && cmds != []
    ensures var m := n.(netcmds := n.netcmds[player := n.netcmds[player][n.nettics[node] % BACKUPTICS := cmds[0]]],
                        nettics := n.nettics[node := n.nettics[node] + 1]);
            Copied(c, n, player, node, cmds) == Copied(c, m, player, node, cmds[1..])
  {
  }

  /** The samples when G_Ticker has renewed those of the first k players. */
  function SampledUpto(c: Config, n: Node, k: nat): (s: seq<seq<int>>)
    requires c.Valid() && n.Shape(c) && k <= c.nodes
    ensures |s| == c.nodes
  {
    seq(c.nodes, p requires 0 <= p < c.nodes =>
      if p < k then n.consist[p][n.Div(c) % BACKUPTICS := c.sample(n.ran, p)] else n.consist[p])
  }

  lemma SampledStep(c: Config, n: Node, k: nat)
    requires c.Valid() && n.Shape(c) && k < c.nodes
    ensures var s := SampledUpto(c, n, k);
            SampledUpto(c, n, k + 1) == s[k := s[k][n.Div(c) % BACKUPTICS := c.sample(n.ran, k)]]
  {
  }

  /** The rings when the first k players' commands in `slot` have been blanked. */
  function BlankedUpto(c: Config, n: Node, slot: nat, k: nat): (s: seq<seq<Cmd>>)
    requires c.Valid() && n.Shape(c) && slot < BACKUPTICS && k <= c.nodes
    ensures |s| == c.nodes
  {
    seq(c.nodes, p requires 0 <= p < c.nodes =>
      if p < k then n.netcmds[p][slot := Repeated(n.netcmds[p][slot])] else n.netcmds[p])
  }

  lemma BlankedStep(c: Config, n: Node, slot: nat, k: nat)
    requires c.Valid() && n.Shape(c) && slot < BACKUPTICS && k < c.nodes
    ensures var s := BlankedUpto(c, n, slot, k);
            BlankedUpto(c, n, slot, k + 1) == s[k := s[k][slot := Repeated(s[k][slot])]]
  {
  }

  lemma BlankedNext(c: Config, n: Node)
    requires c.Valid() && n.Shape(c) && (n.gametic + 1) % c.ticdup != 0
    ensures Blanked(c, n) == BlankedUpto(c, n, (n.gametic + 1) / c.ticdup % BACKUPTICS, c.nodes)
  {
  }

  lemma SameRow(c: Config, n: Node, m: Node)
    requires c.Valid() && n.Shape(c) && m.Shape(c) && m == n.(consist := m.consist)
    ensures Row(c, m) == Row(c, n) && Blanked(c, m) == Blanked(c, n)
  {
    assert forall p :: 0 <= p < c.nodes ==> Row(c, m)[p] == Row(c, n)[p];
    assert forall p :: 0 <= p < c.nodes ==> Blanked(c, m)[p] == Blanked(c, n)[p];
  }

  /** The static variables of TryRunTics. */
  class Pacer {
    var frameon: nat
    const frameskip: array<bool>
    var oldnettics: int

    ghost predicate Valid() { frameskip.Length == 4 }

    constructor ()
      ensures Valid() && oldnettics == 0 && fresh(frameskip)
    {
      frameon, oldnettics := 0, 0;
      frameskip := new bool[4](_ => false);
    }

    /** One frame of a node that is not the key player's: it is to skip a tic when it was ahead four times. */
    method Sample(mine: int, key: int) returns (slow: bool)
      requires Valid()
      modifies this, frameskip
      ensures oldnettics == mine && frameon == old(frameon) + 1
      ensures forall i :: 0 <= i < 4 ==> frameskip[i] == if i == frameon % 4 then old(oldnettics) > key else old(frameskip[i])
      ensures slow <==> forall i :: 0 <= i < 4 ==> frameskip[i]
      ensures slow ==> key < old(oldnettics)
    {
      frameon := frameon + 1;
      frameskip[frameon % 4] := oldnettics > key;
      oldnettics := mine;
      slow := frameskip[0] && frameskip[1] && frameskip[2] && frameskip[3];
    }
  }

  class Machine {
    const c: Config
    const self: nat
    var maketic: nat
    var gametic: nat
    var skiptics: nat
    var nettics: seq<nat>
    var resendto: seq<int>
    var resendcount: seq<int>
    var remoteresend: seq<bool>
    const localcmds: array<Cmd>
    const netcmds: array2<Cmd>
    const consist: array2<int>
    var rebound: Option<Packet>
    var fault: Fault
    ghost var issued: seq<Cmd>
    var ran: seq<seq<Cmd>>          // the simulation: everything it has executed
    ghost var asked: seq<bool>
    const pacer: Pacer

    ghost function View(): Node
      reads this, localcmds, netcmds, consist
    {
      Node(self, maketic, gametic, skiptics, nettics, resendto, resendcount, remoteresend,
           localcmds[..], Grid(netcmds), Grid(consist), rebound, fault, issued, ran, asked)
    }

    ghost predicate Valid()
      reads this, localcmds, netcmds, consist
    {
      && c.Valid() && View().Shape(c) && SelfMail(c, View())
      && netcmds.Length1 == consist.Length1 == BACKUPTICS
    }

    constructor (c: Config, self: nat)
      requires c.Valid() && self < c.nodes
      ensures Valid() && View() == Fresh(c, self) && this.c == c
      ensures fresh(localcmds) && fresh(netcmds) && fresh(consist) && fresh(pacer) && fresh(pacer.frameskip) && Paced()
    {
      this.c := c;
      this.self := self;
      maketic, gametic, skiptics := 0, 0, 0;
      nettics := Replicate(c.nodes, 0);
      resendto := Replicate(c.nodes, 0);
      resendcount := Replicate(c.nodes, 0);
      remoteresend := Replicate(c.nodes, false);
      localcmds := new Cmd[BACKUPTICS](_ => BLANK);
      netcmds := new Cmd[c.nodes, BACKUPTICS]((_, _) => BLANK);
      consist := new int[c.nodes, BACKUPTICS]((_, _) => 0);
      rebound, fault := None, Fine;
      ran := [];
      issued, asked := [], Replicate(c.nodes, false);
      pacer := new Pacer();
      new;
      assert localcmds[..] == Replicate(BACKUPTICS, BLANK);
      GridOf(netcmds, BLANK);
      GridOf(consist, 0);
    }

    /** G_BuildTiccmd into the next slot of the local ring. */
    method BuildTiccmd(input: Cmd)
      requires Valid()
      modifies this`maketic, this`issued, localcmds
      ensures Valid() && View() == BuildOne(c, old(View()), input)
    {
      ghost var was := View();
      var slot := maketic % BACKUPTICS;
      localcmds[slot] := input.(consistancy := consist[self, slot]);
      issued := issued + [input.(consistancy := consist[self, slot])];
      maketic := maketic + 1;
      assert localcmds[..] == was.localcmds[slot := input.(consistancy := consist[self, slot])];
    }

    /** The build loop of NetUpdate. */
    method BuildTiccmds(inputs: seq<Cmd>)
      requires Valid()
      modifies this`maketic, this`issued, localcmds
      ensures Valid() && View() == BuildTics(c, old(View()), inputs)
    {
      var gameticdiv := gametic / c.ticdup;
      var i := 0;
      while i < |inputs|
        invariant 0 <= i <= |inputs| && Valid()
        invariant BuildTics(c, View(), inputs[i..]) == BuildTics(c, old(View()), inputs)
      {
        if maketic - gameticdiv >= BACKUPTICS / 2 - 1 {
          return;
        }
        BuildTiccmd(inputs[i]);
        assert inputs[i..][1..] == inputs[i + 1..];
        i := i + 1;
      }
    }

    /** The packet for node i, copied out of the local ring. */
    method MakePacket(i: nat) returns (p: Packet)
      requires Valid() && i < c.nodes
      ensures p == PacketFor(c, View(), i)
    {
      var realstart := resendto[i];
      var numtics := (maketic - realstart) % 256;
      var cmds: seq<Cmd> := [];
      for j := 0 to numtics
        invariant |cmds| == j
        invariant forall k :: 0 <= k < j ==> cmds[k] == localcmds[..][(realstart + k) % BACKUPTICS]
      {
        cmds := cmds + [localcmds[(realstart + j) % BACKUPTICS]];
      }
      p := Packet(self, realstart % 256, remoteresend[i], if remoteresend[i] then nettics[i] % 256 else 0, cmds);
    }

    /** The bookkeeping for the packet p to node i. */
    method MarkSent(i: nat, p: Packet)
      requires Valid() && i < c.nodes && p.player < c.nodes
      modifies this`resendto, this`asked, this`rebound
      ensures Valid()
      ensures View() == old(View()).(resendto := old(resendto)[i := maketic - c.extratics],
                                     asked := old(asked)[i := false],
                                     rebound := if i == self then Some(p) else old(rebound))
    {
      resendto := resendto[i := maketic - c.extratics];
      asked := asked[i := false];
      if i == self {
        rebound := Some(p);
      }
    }

    /** One round of the send loop that started in state `was`. */
    method SendPacket(i: nat, ghost was: Node) returns (p: Packet)
      requires Valid() && i < c.nodes && was.Shape(c) && View() == SentTo(c, was, i)
      modifies this`resendto, this`asked, this`rebound
      ensures Valid() && View() == SentTo(c, was, i + 1) && p == PacketFor(c, was, i)
    {
      p := MakePacket(i);
      PacketAlike(c, was, View(), i);
      MarkSent(i, p);
      SentToStep(c, was, i);
    }

    /** The send loop of NetUpdate, up to the first overlong packet. */
    method SendLoop() returns (out: seq<Packet>, i: nat)
      requires Valid()
      modifies this`resendto, this`asked, this`rebound
      ensures i <= c.nodes && View() == SentTo(c, old(View()), i) && out == Outbox(c, old(View()), i)
      ensures SendCount(c, old(View()), 0) == i
      ensures Valid()
    {
      ghost var was := View();
      out, i := [], 0;
      assert was == SentTo(c, was, 0);
      while i < c.nodes && (maketic - resendto[i]) % 256 <= BACKUPTICS
        invariant 0 <= i <= c.nodes && Valid()
        invariant View() == SentTo(c, was, i) && out == Outbox(c, was, i) && AllFit(was, 0, i)
      {
        SentToTics(c, was, i);
        AllFitOn(was, i);
        OutboxOn(c, was, i);
        var p := SendPacket(i, was);
        out := out + [p];
        i := i + 1;
      }
      if i < c.nodes {
        SentToTics(c, was, i);
      }
      CountIs(c, was, 0, i);
    }

    /** The sending half of NetUpdate: an overlong packet is an error. */
    method SendPackets() returns (out: seq<Packet>)
      requires Valid()
      modifies this`resendto, this`asked, this`rebound, this`fault
      ensures Valid() && Sending(View(), out) == SendAll(c, old(View()))
    {
      var i;
      out, i := SendLoop();
      if i < c.nodes {
        fault := TooManyTics;
      }
    }

    /** One round of the copy loop of GetPackets. */
    method CopyCmd(player: nat, node: nat, cmd: Cmd)
      requires Valid() && player < c.nodes && node < c.nodes
      modifies this`nettics, netcmds
      ensures Valid()
      ensures View() == old(View()).(
                          netcmds := old(View()).netcmds[player := old(View()).netcmds[player][old(nettics)[node] % BACKUPTICS := cmd]],
                          nettics := old(nettics)[node := old(nettics)[node] + 1])
    {
      ghost var was := View();
      var slot := nettics[node] % BACKUPTICS;
      netcmds[player, slot] := cmd;
      nettics := nettics[node := nettics[node] + 1];
      ghost var rings := was.netcmds[player := was.netcmds[player][slot := cmd]];
      assert forall i :: 0 <= i < c.nodes ==> Grid(netcmds)[i] == rings[i];
      assert View().netcmds == rings;
      assert View().consist == was.consist;
    }

    /** The copy loop of GetPackets. */
    method CopyCmds(player: nat, node: nat, cmds: seq<Cmd>)
      requires Valid() && player < c.nodes && node < c.nodes
      modifies this`nettics, netcmds
      ensures Valid() && View() == Copied(c, old(View()), player, node, cmds)
    {
      var k := 0;
      while k < |cmds|
        invariant 0 <= k <= |cmds| && Valid()
        invariant Copied(c, View(), player, node, cmds[k..]) == Copied(c, old(View()), player, node, cmds)
      {
        ghost var before := View();
        CopyCmd(player, node, cmds[k]);
        CopiedStep(c, before, player, node, cmds[k..]);
        assert cmds[k..][1..] == cmds[k + 1..];
        k := k + 1;
      }
      assert cmds[k..] == [];
    }

    /** The retransmit part of GetPackets. */
    method TakeRequest(b: nat, p: Packet)
      requires Valid() && b < c.nodes
      modifies this`resendto, this`resendcount, this`asked
      ensures Valid() && View() == HearRequest(c, old(View()), b, p)
    {
      if resendcount[b] <= 0 && p.retransmit {
        resendto := resendto[b := ExpandTics(maketic, p.retransmitfrom)];
        resendcount := resendcount[b := RESENDCOUNT];
        asked := asked[b := true];
      } else {
        resendcount := resendcount[b := resendcount[b] - 1];
      }
    }

    /** The command part of GetPackets. */
    method TakeCmds(b: nat, p: Packet)
      requires Valid() && b < c.nodes && p.player < c.nodes
      modifies this`remoteresend, this`nettics, netcmds
      ensures Valid() && View() == TakeCommands(c, old(View()), b, p)
    {
      var realstart := ExpandTics(maketic, p.starttic);
      var realend := realstart + |p.cmds|;
      if realend <= nettics[b] {
        return;
      }
      if realstart > nettics[b] {
        remoteresend := remoteresend[b := true];
        return;
      }
      remoteresend := remoteresend[b := false];
      CopyCmds(p.player, b, p.cmds[nettics[b] - realstart..]);
    }

    /** One round of the loop of GetPackets. */
    method TakePacket(b: nat, p: Packet)
      requires Valid() && b < c.nodes && p.player < c.nodes
      modifies this`resendto, this`resendcount, this`asked, this`remoteresend, this`nettics, netcmds
      ensures Valid() && View() == Receive(c, old(View()), b, p)
    {
      TakeRequest(b, p);
      TakeCmds(b, p);
    }

    /** The rebound packet is taken out of its slot and processed. */
    method TakeRebound()
      requires Valid() && rebound.Some?
      modifies this`rebound, this`resendto, this`resendcount, this`asked, this`remoteresend, this`nettics, netcmds
      ensures Valid() && View() == Receive(c, old(View()).(rebound := None), self, old(rebound).value)
      ensures rebound.None?
    {
      var p := rebound.value;
      rebound := None;
      TakePacket(self, p);
    }

    /** HGetPacket hands out the rebound packet before those of the network. */
    method TakeNext(mail: seq<Mail>, i: nat, ghost goal: Node) returns (j: nat)
      requires Valid() && Deliverable(c, mail) && i <= |mail| && (rebound.Some? || i < |mail|)
      requires ToHear(c, View(), mail, i, goal)
      modifies this`rebound, this`resendto, this`resendcount, this`asked, this`remoteresend, this`nettics, netcmds
      ensures Valid() && j <= |mail| && ToHear(c, View(), mail, j, goal)
      ensures j == i + 1 || (j == i && old(rebound).Some? && rebound.None?)
    {
      ghost var next := HearNext(c, View(), mail, i, goal);
      j := i;
      if rebound.Some? {
        TakeRebound();
      } else {
        TakePacket(mail[i].node, mail[i].pkt);
        j := i + 1;
      }
      assert View() == next;
    }

    method GetPackets(mail: seq<Mail>)
      requires Valid() && Deliverable(c, mail)
      modifies this`rebound, this`resendto, this`resendcount, this`asked, this`remoteresend, this`nettics, netcmds
      ensures Valid() && View() == Heard(c, old(View()), mail)
    {
      ghost var goal := HearFirst(c, View(), mail);
      var i := 0;
      while rebound.Some? || i < |mail|
        invariant 0 <= i <= |mail| && Valid() && ToHear(c, View(), mail, i, goal)
        decreases |mail| - i, rebound.Some?
      {
        i := TakeNext(mail, i, goal);
      }
      HearLast(c, View(), mail, goal);
    }

    /** The building half of NetUpdate. */
    method BuildElapsed(elapsed: nat, inputs: seq<Cmd>)
      requires Valid() && elapsed <= |inputs|
      modifies this`skiptics, this`maketic, this`issued, localcmds
      ensures Valid() && View() == Built(c, old(View()), elapsed, inputs)
    {
      var newtics := elapsed;
      if skiptics <= newtics {
        newtics, skiptics := newtics - skiptics, 0;
      } else {
        newtics, skiptics := 0, skiptics - newtics;
      }
      BuildTiccmds(inputs[..newtics]);
    }

    /** NetUpdate up to its listen label. */
    method BuildAndSend(elapsed: nat, inputs: seq<Cmd>) returns (out: seq<Packet>)
      requires Valid() && elapsed <= |inputs|
      modifies this`skiptics, this`maketic, this`issued, localcmds
      modifies this`resendto, this`asked, this`rebound, this`fault
      ensures Valid() && Sending(View(), out) == Update(c, old(View()), elapsed, inputs)
    {
      BuildElapsed(elapsed, inputs);
      out := SendPackets();
    }

    /** NetUpdate; the packets for the other nodes go out in order. */
    method NetUpdate(f: Frame) returns (out: seq<Packet>)
      requires Valid() && ValidFrame(c, f) && fault.Fine?
      modifies this, localcmds, netcmds
      ensures Valid() && View() == Updated(c, old(View()), f)
      ensures out == if f.elapsed <= 0 then [] else Update(c, old(View()), f.elapsed, f.inputs).out
    {
      out := [];
      if f.elapsed > 0 {
        out := BuildAndSend(f.elapsed, f.inputs);
        if !fault.Fine? {
          return;
        }
      }
      GetPackets(f.mail);
    }

    /** The renewal of one sample by G_Ticker. */
    method RenewSample(i: nat, buf: nat)
      requires Valid() && i < c.nodes && buf < BACKUPTICS
      modifies consist
      ensures Valid() && View() == old(View()).(
                                     consist := old(View()).consist[i := old(View()).consist[i][buf := c.sample(ran, i)]])
    {
      ghost var was := View();
      consist[i, buf] := c.sample(ran, i);
      ghost var rings := was.consist[i := was.consist[i][buf := c.sample(ran, i)]];
      assert forall k :: 0 <= k < c.nodes ==> Grid(consist)[k] == rings[k];
      assert View().consist == rings;
      assert View().netcmds == was.netcmds;
    }

    /** The samples of player i differ; `was` is the state before the loop. */
    predicate Differs(i: nat, buf: nat, ghost was: Node)
      requires Valid() && i < c.nodes && buf == gametic / c.ticdup % BACKUPTICS && gametic % c.ticdup == 0 && was.Shape(c)
      requires View() == was.(consist := SampledUpto(c, was, i))
      reads this, localcmds, netcmds, consist
      ensures Differs(i, buf, was) <==> Alarm(c, was, i)
    {
      gametic > BACKUPTICS && consist[i, buf] != netcmds[i, buf].consistancy
    }

    method RenewNext(i: nat, buf: nat, ghost was: Node)
      requires Valid() && i < c.nodes && buf == gametic / c.ticdup % BACKUPTICS && was.Shape(c)
      requires View() == was.(consist := SampledUpto(c, was, i))
      modifies consist
      ensures Valid() && View() == was.(consist := SampledUpto(c, was, i + 1))
    {
      RenewSample(i, buf);
      SampledStep(c, was, i);
    }

    /** The command loop of G_Ticker for a tic that starts: compare and renew each sample. */
    method CheckSamples()
      requires Valid() && fault.Fine? && gametic % c.ticdup == 0
      modifies this`fault, consist
      ensures Valid()
      ensures (exists p: nat :: p < c.nodes && Alarm(c, old(View()), p)) ==> fault.ConsistencyFailure?
      ensures (forall p: nat :: p < c.nodes ==> !Alarm(c, old(View()), p)) ==>
                View() == old(View()).(consist := Sampled(c, old(View())))
    {
      ghost var was := View();
      var buf := gametic / c.ticdup % BACKUPTICS;
      var i := 0;
      assert View() == was.(consist := SampledUpto(c, was, 0));
      while i < c.nodes
        invariant 0 <= i <= c.nodes && Valid() && View() == was.(consist := SampledUpto(c, was, i))
        invariant forall p: nat :: p < i ==> !Alarm(c, was, p)
      {
        if Differs(i, buf, was) {
          fault := ConsistencyFailure;
          return;
        }
        RenewNext(i, buf, was);
        i := i + 1;
      }
      assert SampledUpto(c, was, i) == Sampled(c, was);
    }

    /** The commands of all players for the current tic. */
    method FetchRow() returns (row: seq<Cmd>)
      requires Valid()
      ensures |row| == c.nodes
      ensures forall p :: 0 <= p < c.nodes ==> row[p] == View().netcmds[p][gametic / c.ticdup % BACKUPTICS]
    {
      var buf := gametic / c.ticdup % BACKUPTICS;
      row := [];
      for i := 0 to c.nodes
        invariant |row| == i && forall p :: 0 <= p < i ==> row[p] == Grid(netcmds)[p][buf]
      {
        row := row + [netcmds[i, buf]];
      }
    }

    method BlankOne(j: nat, buf: nat)
      requires Valid() && j < c.nodes && buf < BACKUPTICS
      modifies netcmds
      ensures Valid()
      ensures View() == old(View()).(netcmds :=
                old(View()).netcmds[j := old(View()).netcmds[j][buf := Repeated(old(View()).netcmds[j][buf])]])
    {
      ghost var was := View();
      netcmds[j, buf] := Repeated(netcmds[j, buf]);
      ghost var rings := was.netcmds[j := was.netcmds[j][buf := Repeated(was.netcmds[j][buf])]];
      assert forall k :: 0 <= k < c.nodes ==> Grid(netcmds)[k] == rings[k];
      assert View().netcmds == rings;
      assert View().consist == was.consist;
    }

    /** The loop of TryRunTics over the commands of a tic that will be repeated. */
    method BlankRepeated(buf: nat)
      requires Valid() && buf < BACKUPTICS
      modifies netcmds
      ensures Valid() && View() == old(View()).(netcmds := BlankedUpto(c, old(View()), buf, c.nodes))
    {
      ghost var was := View();
      var j := 0;
      assert BlankedUpto(c, was, buf, 0) == was.netcmds;
      while j < c.nodes
        invariant 0 <= j <= c.nodes && Valid() && View() == was.(netcmds := BlankedUpto(c, was, buf, j))
      {
        BlankOne(j, buf);
        BlankedStep(c, was, buf, j);
        j := j + 1;
      }
    }

    /** Hand the commands to the simulation, count the gametic, prepare a repetition. */
    method Advance()
      requires Valid()
      modifies this`gametic, this`ran, netcmds
      ensures View() == old(View()).(gametic := old(gametic) + 1, ran := old(ran) + [Row(c, old(View()))],
                                     netcmds := Blanked(c, old(View())))
      ensures Valid()
    {
      ghost var was := View();
      var row := FetchRow();
      assert row == Row(c, was);
      ran := ran + [row];
      gametic := gametic + 1;
      if gametic % c.ticdup != 0 {
        BlankedNext(c, was);
        BlankRepeated(gametic / c.ticdup % BACKUPTICS);
      }
    }

    /** One gametic: G_Ticker and what follows it in the loop of TryRunTics. */
    method RunGametic()
      requires Valid() && fault.Fine?
      modifies this`fault, this`gametic, this`ran, consist, netcmds
      ensures Valid()
      ensures (exists p: nat :: p < c.nodes && Alarm(c, old(View()), p)) ==> fault.ConsistencyFailure?
      ensures (forall p: nat :: p < c.nodes ==> !Alarm(c, old(View()), p)) ==> View() == RunTic(c, old(View()))
    {
      ghost var was := View();
      if gametic % c.ticdup == 0 {
        CheckSamples();
        if !fault.Fine? {
          return;
        }
      }
      SameRow(c, was, View());
      Advance();
    }

    /** The search for the least tic. */
    method LowTic() returns (lowtic: int)
      requires Valid()
      ensures lowtic == LeastTic(nettics)
    {
      lowtic := MAXINT;
      for i := 0 to c.nodes
        invariant lowtic == LeastTic(nettics[..i])
      {
        if nettics[i] < lowtic {
          lowtic := nettics[i];
        }
        assert nettics[..i + 1][..i] == nettics[..i];
      }
      assert nettics[..c.nodes] == nettics;
    }

    /** Between two tics, nothing run that is not known. */
    ghost predicate Synced()
      requires c.Valid()
      reads this
    {
      gametic % c.ticdup == 0 && |nettics| == c.nodes && forall b :: 0 <= b < c.nodes ==> gametic / c.ticdup <= nettics[b]
    }

    /** What the pacer remembers was true. */
    ghost predicate Paced()
      reads this, pacer
    {
      pacer.Valid() && self < |nettics| && pacer.oldnettics <= nettics[self]
    }

    /** The adaptation of TryRunTics: the key player does not adapt, the others skip a tic when they are ahead. */
    method Adapt(ghost from: Node, ghost acts: seq<Act>) returns (slow: bool, ghost acts': seq<Act>)
      requires Valid() && fault.Fine? && Paced() && Plays(c, from, acts, View())
      modifies this`skiptics, pacer, pacer.frameskip
      ensures slow <==> self != KEYNODE && forall i :: 0 <= i < 4 ==> pacer.frameskip[i]
      ensures self == KEYNODE ==> pacer.oldnettics == old(pacer.oldnettics) && pacer.frameskip[..] == old(pacer.frameskip[..])
      ensures self != KEYNODE ==> pacer.oldnettics == nettics[self]
      ensures self != KEYNODE ==> forall i :: 0 <= i < 4 ==>
                pacer.frameskip[i] == if i == pacer.frameon % 4 then old(pacer.oldnettics) > nettics[KEYNODE] else old(pacer.frameskip[i])
      ensures skiptics == (if slow then 1 else old(skiptics)) && acts' == acts + if slow then [DoSlow] else []
      ensures Plays(c, from, acts', View()) && Paced()
      ensures Valid()
    {
      slow, acts' := false, acts;
      if self != KEYNODE {
        slow := pacer.Sample(nettics[self], nettics[KEYNODE]);
        if slow {
          PlaysOn(c, from, acts, View(), DoSlow);
          skiptics := 1;
          acts' := acts + [DoSlow];
        }
      }
    }

    /** A gametic as an act of the main loop. */
    method TicAct(ghost from: Node, ghost acts: seq<Act>) returns (ghost acts': seq<Act>)
      requires Valid() && fault.Fine? && Ready(c, View()) && Plays(c, from, acts, View())
      modifies this`fault, this`gametic, this`ran, consist, netcmds
      ensures Valid()
      ensures fault.Fine? ==> Plays(c, from, acts', View()) && gametic == old(gametic) + 1
      ensures acts' == acts + [DoTic]
    {
      ghost var was := View();
      RunGametic();
      acts' := acts + [DoTic];
      if fault.Fine? {
        PlaysOn(c, from, acts, was, DoTic);
      }
    }

    /** Gametic number i of a tic. */
    method CheckedTic(lowtic: int, ghost start: nat, i: nat, ghost from: Node, ghost acts: seq<Act>) returns (ghost acts': seq<Act>)
      requires Valid() && fault.Fine? && start % c.ticdup == 0 && i < c.ticdup && gametic == start + i
      requires start / c.ticdup < lowtic && forall b :: 0 <= b < c.nodes ==> lowtic <= nettics[b]
      requires Plays(c, from, acts, View())
      modifies this`fault, this`gametic, this`ran, consist, netcmds
      ensures Valid()
      ensures fault.Fine? ==> Plays(c, from, acts', View()) && gametic == start + i + 1
      ensures acts' == acts + [DoTic]
    {
      WithinWhole(start, c.ticdup, i);
      if gametic / c.ticdup > lowtic {
        assert false;                             // this error cannot happen
      }
      acts' := TicAct(from, acts);
    }

    /** All gametics of one tic, for which every node's command is there. */
    method RunWholeTic(lowtic: int, ghost from: Node, ghost acts: seq<Act>) returns (ghost acts': seq<Act>)
      requires Valid() && fault.Fine? && gametic % c.ticdup == 0
      requires gametic / c.ticdup < lowtic && forall b :: 0 <= b < c.nodes ==> lowtic <= nettics[b]
      requires Plays(c, from, acts, View())
      modifies this`fault, this`gametic, this`ran, consist, netcmds
      ensures Valid()
      ensures fault.Fine? ==> Plays(c, from, acts', View())
      ensures fault.Fine? ==> gametic % c.ticdup == 0 && gametic / c.ticdup == old(gametic / c.ticdup) + 1
      ensures fault.Fine? ==> gametic == old(gametic) + c.ticdup && acts' == acts + Tics(c.ticdup)
    {
      acts' := acts;
      var i := 0;
      ghost var start := gametic;
      NextWhole(start, c.ticdup);
      while i < c.ticdup
        invariant 0 <= i <= c.ticdup && Valid() && fault.Fine? && gametic == start + i
        invariant Plays(c, from, acts', View()) && acts' == acts + Tics(i)
      {
        acts' := CheckedTic(lowtic, start, i, from, acts');
        if !fault.Fine? {
          return;
        }
        i := i + 1;
      }
    }

    /** NetUpdate as an act of the main loop. */
    method UpdateAct(f: Frame, ghost from: Node, ghost acts: seq<Act>) returns (ghost acts': seq<Act>)
      requires Valid() && ValidFrame(c, f) && fault.Fine? && Synced() && Plays(c, from, acts, View())
      modifies this, localcmds, netcmds
      ensures Valid() && Synced() && gametic == old(gametic)
      ensures forall b :: 0 <= b < c.nodes ==> old(nettics)[b] <= nettics[b]
      ensures View() == Updated(c, old(View()), f)
      ensures Plays(c, from, acts', View()) && acts' == acts + [DoUpdate(f)]
    {
      ghost var was := View();
      var _ := NetUpdate(f);
      UpdatedAhead(c, was, f);
      PlaysOn(c, from, acts, was, DoUpdate(f));
      acts' := acts + [DoUpdate(f)];
      assert Ahead(was, View());
    }

    /** One round of the run loop of TryRunTics: a whole tic, then a NetUpdate. */
    method TicAndUpdate(lowtic: int, f: Frame, ghost from: Node, ghost acts: seq<Act>) returns (ghost acts': seq<Act>)
      requires Valid() && fault.Fine? && Synced() && ValidFrame(c, f)
      requires gametic / c.ticdup < lowtic && forall b :: 0 <= b < c.nodes ==> lowtic <= nettics[b]
      requires Plays(c, from, acts, View())
      modifies this, localcmds, netcmds, consist
      ensures Valid()
      ensures fault.Fine? ==> Synced() && Plays(c, from, acts', View())
      ensures fault.Fine? ==> gametic / c.ticdup == old(gametic / c.ticdup) + 1
      ensures fault.Fine? ==> gametic == old(gametic) + c.ticdup && acts' == acts + Tics(c.ticdup) + [DoUpdate(f)]
      ensures fault.Fine? ==> forall b :: 0 <= b < c.nodes ==> lowtic <= nettics[b] && old(nettics)[b] <= nettics[b]
    {
      acts' := RunWholeTic(lowtic, from, acts);
      if !fault.Fine? {
        return;
      }
      acts' := UpdateAct(f, from, acts');
    }

    /** The run loop of TryRunTics; frames from `k` on feed its NetUpdates. */
    method RunTics(counts: nat, lowtic: int, frames: nat -> Frame, k: nat, ghost from: Node, ghost acts: seq<Act>)
      returns (ghost acts': seq<Act>)
      requires Valid() && fault.Fine? && Synced() && (forall i: nat :: ValidFrame(c, frames(i)))
      requires gametic / c.ticdup + counts <= lowtic && forall b :: 0 <= b < c.nodes ==> lowtic <= nettics[b]
      requires Plays(c, from, acts, View())
      modifies this, localcmds, netcmds, consist
      ensures Valid()
      ensures fault.Fine? ==> Synced() && Plays(c, from, acts', View())
      ensures fault.Fine? ==> forall b :: 0 <= b < c.nodes ==> old(nettics)[b] <= nettics[b]
      ensures fault.Fine? ==> RanRounds(c, frames, k, counts, acts, acts', old(gametic), gametic)
    {
      acts' := acts;
      NoRounds(c, frames, k, acts, gametic);
      var left, done := counts, 0;
      while left > 0
        invariant left + done == counts && RanRounds(c, frames, k, done, acts, acts', old(gametic), gametic)
        invariant 0 <= left && Valid() && fault.Fine? && Synced()
        invariant gametic / c.ticdup + left <= lowtic && forall b :: 0 <= b < c.nodes ==> lowtic <= nettics[b]
        invariant Plays(c, from, acts', View()) && forall b :: 0 <= b < c.nodes ==> old(nettics)[b] <= nettics[b]
      {
        RoundsOn(c, frames, k, done, acts, acts', old(gametic), gametic);
        acts' := TicAndUpdate(lowtic, frames(k + done), from, acts');
        if !fault.Fine? {
          return;
        }
        left, done := left - 1, done + 1;
      }
    }

    /** The wait of TryRunTics for missing tics: the clock has run out after `patience` rounds, and then it
        gives up, even if the tics have come. */
    method WaitForTics(lowtic0: int, counts: nat, patience: nat, frames: nat -> Frame, ghost from: Node, ghost acts: seq<Act>)
      returns (lowtic: int, waits: nat, gaveUp: bool, ghost acts': seq<Act>)
      requires Valid() && fault.Fine? && Synced() && gametic <= MAXINT && (forall i: nat :: ValidFrame(c, frames(i)))
      requires forall b :: 0 <= b < c.nodes ==> lowtic0 <= nettics[b]
      requires Plays(c, from, acts, View())
      modifies this, localcmds, netcmds
      ensures Synced() && Plays(c, from, acts', View()) && gametic == old(gametic)
      ensures forall b :: 0 <= b < c.nodes ==> lowtic <= nettics[b] && old(nettics)[b] <= nettics[b]
      ensures acts' == acts + Updates(frames, 1, waits)
      ensures fault.Fine? && !gaveUp ==> gametic / c.ticdup + counts <= lowtic
      ensures waits > 0 ==> lowtic0 < gametic / c.ticdup + counts
      ensures if gaveUp then waits >= 1 && waits >= patience else waits == 0 || waits < patience
      ensures Valid()
    {
      lowtic, waits, gaveUp, acts' := lowtic0, 0, false, acts;
      while lowtic < gametic / c.ticdup + counts && fault.Fine? && !gaveUp
        invariant Valid() && Synced() && gametic == old(gametic)
        invariant forall b :: 0 <= b < c.nodes ==> lowtic <= nettics[b] && old(nettics)[b] <= nettics[b]
        invariant Plays(c, from, acts', View()) && acts' == acts + Updates(frames, 1, waits)
        invariant if waits > 0 then lowtic0 < gametic / c.ticdup + counts else lowtic == lowtic0
        invariant if gaveUp then waits >= 1 && waits >= patience else waits == 0 || waits < patience
        decreases !gaveUp, patience - waits
      {
        UpdatesOn(frames, 1, waits, acts);
        lowtic, acts' := WaitRound(frames(waits + 1), from, acts');
        waits := waits + 1;
        gaveUp := waits >= patience;
      }
    }

    /** One round of the wait. */
    method WaitRound(f: Frame, ghost from: Node, ghost acts: seq<Act>) returns (lowtic: int, ghost acts': seq<Act>)
      requires Valid() && fault.Fine? && Synced() && gametic <= MAXINT && ValidFrame(c, f) && Plays(c, from, acts, View())
      modifies this, localcmds, netcmds
      ensures Synced() && gametic == old(gametic)
      ensures forall b :: 0 <= b < c.nodes ==> lowtic <= nettics[b] && old(nettics)[b] <= nettics[b]
      ensures Plays(c, from, acts', View()) && acts' == acts + [DoUpdate(f)]
      ensures Valid()
    {
      acts' := UpdateAct(f, from, acts);
      lowtic := LowTic();
      DivLe(gametic, c.ticdup);
      if lowtic < gametic / c.ticdup {
        assert false;                           // nor can this one
      }
    }

    /** How many tics to run. */
    method DecideTics(realtics: int) returns (lowtic: int, counts: nat)
      requires Valid()
      ensures lowtic == LeastTic(nettics) && counts == TicsToRun(c, View(), realtics)
    {
      lowtic := LowTic();
      var availabletics := lowtic - gametic / c.ticdup;
      var n := if realtics < availabletics - 1 then realtics + 1
               else if realtics < availabletics then realtics else availabletics;
      if n < 1 {
        n := 1;
      }
      counts := n;
    }

    /** TryRunTics: whatever the clock, the inputs and the network do, it is a sequence of updates, of gametics for
        which all commands have arrived, in whole tics, and of slowing down when ahead. It runs just the tics that
        the clock asks for and that are there, and waits, or gives up, only if there was none to run after the
        first update. */
    method TryRunTics(realtics: int, patience: nat, frames: nat -> Frame)
      returns (slow: bool, waits: nat, gaveUp: bool, ghost first: Node, ghost counts: nat, ghost acts: seq<Act>)
      requires Valid() && fault.Fine? && Synced() && Paced() && gametic <= MAXINT && (forall i: nat :: ValidFrame(c, frames(i)))
      modifies this, localcmds, netcmds, consist, pacer, pacer.frameskip
      ensures first == Updated(c, old(View()), frames(0))
      ensures counts == if gaveUp then 0 else TicsToRun(c, first, realtics)
      ensures fault.Fine? ==> acts == Schedule(c, frames, slow, waits, counts) && gametic == old(gametic) + counts * c.ticdup
      ensures waits > 0 ==> LeastTic(first.nettics) <= first.Div(c)
      ensures if gaveUp then waits >= 1 && waits >= patience else waits == 0 || waits < patience
      ensures slow ==> self != KEYNODE
      ensures fault.Fine? ==> Synced() && Paced() && Plays(c, old(View()), acts, View())
      ensures Valid()
    {
      ghost var from := View();
      slow, waits, gaveUp := false, 0, false;
      PlaysNone(c, from);
      acts := UpdateAct(frames(0), from, []);
      first, counts := View(), TicsToRun(c, View(), realtics);
      if !fault.Fine? {
        return;
      }
      ghost var update := acts;
      slow, waits, gaveUp, acts := RunDecided(realtics, patience, frames, from, acts);
      counts := if gaveUp then 0 else counts;
      if fault.Fine? {
        Scheduled(c, frames, update, slow, waits, counts, acts);
        GameticsAre(c, counts);
      }
    }

    /** What TryRunTics does after its first update. */
    method RunDecided(realtics: int, patience: nat, frames: nat -> Frame, ghost from: Node, ghost acts: seq<Act>)
      returns (slow: bool, waits: nat, gaveUp: bool, ghost acts': seq<Act>)
      requires Valid() && fault.Fine? && Synced() && Paced() && gametic <= MAXINT && (forall i: nat :: ValidFrame(c, frames(i)))
      requires Plays(c, from, acts, View())
      modifies this, localcmds, netcmds, consist, pacer, pacer.frameskip
      ensures fault.Fine? ==> RanFor(c, frames, acts, slow, waits, if gaveUp then 0 else TicsToRun(c, old(View()), realtics), acts')
      ensures fault.Fine? ==> gametic == old(gametic) + Gametics(c, if gaveUp then 0 else TicsToRun(c, old(View()), realtics))
      ensures waits > 0 ==> LeastTic(old(nettics)) <= old(gametic) / c.ticdup
      ensures if gaveUp then waits >= 1 && waits >= patience else waits == 0 || waits < patience
      ensures slow ==> self != KEYNODE
      ensures fault.Fine? ==> Synced() && Paced() && Plays(c, from, acts', View())
      ensures Valid()
    {
      var lowtic, counts := DecideTics(realtics);
      slow, acts' := Adapt(from, acts);
      waits, gaveUp, acts' := WaitAndRun(lowtic, counts, patience, frames, from, acts');
    }

    /** The two loops of TryRunTics. */
    method WaitAndRun(lowtic0: int, counts: nat, patience: nat, frames: nat -> Frame, ghost from: Node, ghost acts: seq<Act>)
      returns (waits: nat, gaveUp: bool, ghost acts': seq<Act>)
      requires Valid() && fault.Fine? && Synced() && gametic <= MAXINT && (forall i: nat :: ValidFrame(c, frames(i)))
      requires forall b :: 0 <= b < c.nodes ==> lowtic0 <= nettics[b]
      requires Plays(c, from, acts, View())
      modifies this, localcmds, netcmds, consist
      ensures fault.Fine? ==> Synced() && Plays(c, from, acts', View())
      ensures fault.Fine? ==> forall b :: 0 <= b < c.nodes ==> old(nettics)[b] <= nettics[b]
      ensures fault.Fine? ==> RanRounds(c, frames, 1 + waits, if gaveUp then 0 else counts, acts + Updates(frames, 1, waits), acts',
                                        old(gametic), gametic)
      ensures waits > 0 ==> lowtic0 < old(gametic) / c.ticdup + counts
      ensures if gaveUp then waits >= 1 && waits >= patience else waits == 0 || waits < patience
      ensures Valid()
    {
      var lowtic;
      lowtic, waits, gaveUp, acts' := WaitForTics(lowtic0, counts, patience, frames, from, acts);
      if gaveUp {
        NoRounds(c, frames, 1 + waits, acts', gametic);
      } else if fault.Fine? {
        acts' := RunTics(counts, lowtic, frames, 1 + waits, from, acts');
      }
    }
  }
}
