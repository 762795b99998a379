/** One machine of a net game (doom/d_net.c, doom/g_game.c): what building,
    sending, receiving and running tics do to its state.

    Nodes are numbered alike on every machine, so that node `b` runs player `b`.
    `issued`, `ran` and `asked` are histories that no operation consults. */
module NetNode {
  import opened Options
  import opened NetTics

  const RESENDCOUNT := 10
  const BT_SPECIAL := 128

  /** The input of one player for one tic. */
  datatype Cmd = Cmd(
    forwardmove: int, sidemove: int, angleturn: int, consistancy: int, chatchar: int, buttons: int)

  const BLANK := Cmd(0, 0, 0, 0, 0, 0)

  /** A command as it is executed again in a duplicated tic: no chat, no special button. */
  function Repeated(cmd: Cmd): Cmd {
    cmd.(chatchar := 0, buttons := if cmd.buttons / BT_SPECIAL % 2 == 1 then 0 else cmd.buttons)
  }

  /** A game packet; tic numbers are truncated to a byte, numtics is |cmds|. */
  datatype Packet = Packet(
    player: nat, starttic: int, retransmit: bool, retransmitfrom: int, cmds: seq<Cmd>)

  /** The I_Error that stopped a node, if any. */
  datatype Fault = Fine | TooManyTics | ConsistencyFailure

  /** What all nodes of a game share. `sample` is the value that the simulation
      yields for a player's consistency check after the given executed rows. */
  datatype Config = Config(
    nodes: nat, ticdup: nat, extratics: nat, sample: (seq<seq<Cmd>>, nat) -> int)
  {
    predicate Valid() { nodes >= 1 && ticdup >= 1 && extratics <= 1 }
  }

  datatype Node = Node(
    self: nat,
    maketic: nat,                 // the tic that has no command yet
    gametic: nat,                 // the tic about to run
    skiptics: nat,                // clock ticks to let pass without building
    nettics: seq<nat>,            // the tics known of each node
    resendto: seq<int>,           // the tic to start sending from
    resendcount: seq<int>,        // packets during which requests are ignored
    remoteresend: seq<bool>,      // tics of the node are missing here
    localcmds: seq<Cmd>,          // ring of the own commands
    netcmds: seq<seq<Cmd>>,       // ring of the commands of each player
    consist: seq<seq<int>>,       // ring of the samples of each player
    rebound: Option<Packet>,      // the one-packet channel to itself
    fault: Fault,
    issued: seq<Cmd>,             // every own command so far
    ran: seq<seq<Cmd>>,           // every executed row of commands so far
    asked: seq<bool>)             // resendto comes from a retransmit request
  {
    /** The tic being run, before duplication. */
    function Div(c: Config): nat
      requires c.Valid()
    {
      gametic / c.ticdup
    }

    predicate Shape(c: Config) {
      && self < c.nodes
      && |nettics| == |resendto| == |resendcount| == |remoteresend| == |netcmds| == |consist| == |asked| == c.nodes
      && |localcmds| == BACKUPTICS
      && (forall b :: 0 <= b < c.nodes ==> |netcmds[b]| == BACKUPTICS)
      && (forall b :: 0 <= b < c.nodes ==> |consist[b]| == BACKUPTICS)
    }
  }

  function Replicate<T>(n: nat, x: T): (s: seq<T>)
    ensures |s| == n && forall i :: 0 <= i < n ==> s[i] == x
  {
    seq(n, i => x)
  }

  /** A node as D_CheckNetGame leaves it. */
  function Fresh(c: Config, a: nat): (n: Node)
    requires c.Valid() && a < c.nodes
    ensures n.Shape(c)
  {
    Node(a, 0, 0, 0,
         Replicate(c.nodes, 0), Replicate(c.nodes, 0), Replicate(c.nodes, 0), Replicate(c.nodes, false),
         Replicate(BACKUPTICS, BLANK), Replicate(c.nodes, Replicate(BACKUPTICS, BLANK)),
         Replicate(c.nodes, Replicate(BACKUPTICS, 0)),
         None, Fine, [], [], Replicate(c.nodes, false))
  }

  // ----- NetUpdate: building commands

  /** The clock ticks left for building once skiptics has taken its share. */
  function NewTics(skiptics: nat, elapsed: nat): nat {
    if skiptics <= elapsed then elapsed - skiptics else 0
  }

  function SkipLeft(skiptics: nat, elapsed: nat): nat {
    if skiptics <= elapsed then 0 else skiptics - elapsed
  }

  predicate CanBuild(c: Config, n: Node)
    requires c.Valid()
  {
    n.maketic - n.Div(c) < BACKUPTICS / 2 - 1
  }

  /** One command: the input stamped with the sample in the slot it will occupy. */
  function BuildOne(c: Config, n: Node, input: Cmd): (r: Node)
    requires c.Valid() && n.Shape(c)
    ensures r.Shape(c)
  {
    var slot := n.maketic % BACKUPTICS;
    var cmd := input.(consistancy := n.consist[n.self][slot]);
    n.(localcmds := n.localcmds[slot := cmd], maketic := n.maketic + 1, issued := n.issued + [cmd])
  }

  /** The build loop of NetUpdate: stops when the ring can hold no more. */
  function BuildTics(c: Config, n: Node, inputs: seq<Cmd>): (r: Node)
    requires c.Valid() && n.Shape(c)
    ensures r.Shape(c)
    decreases |inputs|
  {
    if inputs == [] || !CanBuild(c, n) then n
    else BuildTics(c, BuildOne(c, n, inputs[0]), inputs[1..])
  }

  // ----- NetUpdate: sending

  /** The byte numtics of the packet to node i. */
  function NumTics(n: Node, i: nat): nat
    requires i < |n.resendto|
  {
    (n.maketic - n.resendto[i]) % 256
  }

  function PacketFor(c: Config, n: Node, i: nat): Packet
    requires c.Valid() && n.Shape(c) && i < c.nodes
  {
    Packet(n.self, n.resendto[i] % 256,
           n.remoteresend[i], if n.remoteresend[i] then n.nettics[i] % 256 else 0,
           seq(NumTics(n, i), j requires 0 <= j => n.localcmds[(n.resendto[i] + j) % BACKUPTICS]))
  }

  /** The nodes from i on that get a packet before an overlong one stops the send loop. */
  function SendCount(c: Config, n: Node, i: nat): (k: nat)
    requires c.Valid() && n.Shape(c) && i <= c.nodes
    ensures i <= k <= c.nodes
    ensures forall j :: i <= j < k ==> NumTics(n, j) <= BACKUPTICS
    ensures k < c.nodes ==> NumTics(n, k) > BACKUPTICS
    decreases c.nodes - i
  {
    if i == c.nodes || NumTics(n, i) > BACKUPTICS then i else SendCount(c, n, i + 1)
  }

  /** The node once it has sent its packets to the first k nodes. */
  function SentTo(c: Config, n: Node, k: nat): (r: Node)
    requires c.Valid() && n.Shape(c) && k <= c.nodes
    ensures r.Shape(c)
  {
    n.(resendto := seq(c.nodes, i requires 0 <= i < c.nodes => if i < k then n.maketic - c.extratics else n.resendto[i]),
       asked := seq(c.nodes, i requires 0 <= i < c.nodes => i >= k && n.asked[i]),
       rebound := if n.self < k then Some(PacketFor(c, n, n.self)) else n.rebound)
  }

  /** The node after the send loop, and the packets it put out in order of destination. */
  datatype Sending = Sending(node: Node, out: seq<Packet>)

  function SendAll(c: Config, n: Node): (s: Sending)
    requires c.Valid() && n.Shape(c)
    ensures s.node.Shape(c) && |s.out| <= c.nodes
  {
    var k := SendCount(c, n, 0);
    var m := SentTo(c, n, k);
    Sending(if k < c.nodes then m.(fault := TooManyTics) else m,
            seq(k, i requires 0 <= i < c.nodes => PacketFor(c, n, i)))
  }

  /** NetUpdate up to the point where it listens, `elapsed` clock ticks after the last. */
  function Update(c: Config, n: Node, elapsed: nat, inputs: seq<Cmd>): (s: Sending)
    requires c.Valid() && n.Shape(c) && |inputs| >= elapsed
    ensures s.node.Shape(c)
  {
    SendAll(c, Built(c, n, elapsed, inputs))
  }

  function Ticked(n: Node, elapsed: nat): Node {
    n.(skiptics := SkipLeft(n.skiptics, elapsed))
  }

  function Built(c: Config, n: Node, elapsed: nat, inputs: seq<Cmd>): (r: Node)
    requires c.Valid() && n.Shape(c) && |inputs| >= elapsed
    ensures r.Shape(c)
  {
    BuildTics(c, Ticked(n, elapsed), inputs[..NewTics(n.skiptics, elapsed)])
  }

  // ----- GetPackets

  /** The copy loop of GetPackets: consecutive commands into consecutive slots. */
  function Store(ring: seq<Cmd>, tic: nat, cmds: seq<Cmd>): (r: seq<Cmd>)
    requires |ring| == BACKUPTICS
    ensures |r| == BACKUPTICS
    decreases |cmds|
  {
    if cmds == [] then ring
    else Store(ring[tic % BACKUPTICS := cmds[0]], tic + 1, cmds[1..])
  }

  /** The retransmit part of a packet from node b. */
  function HearRequest(c: Config, n: Node, b: nat, p: Packet): (r: Node)
    requires c.Valid() && n.Shape(c) && b < c.nodes
    ensures r.Shape(c)
  {
    if n.resendcount[b] <= 0 && p.retransmit then
      n.(resendto := n.resendto[b := ExpandTics(n.maketic, p.retransmitfrom)],
         resendcount := n.resendcount[b := RESENDCOUNT],
         asked := n.asked[b := true])
    else
      n.(resendcount := n.resendcount[b := n.resendcount[b] - 1])
  }

  /** The command part of a packet from node b. */
  function TakeCommands(c: Config, n: Node, b: nat, p: Packet): (r: Node)
    requires c.Valid() && n.Shape(c) && b < c.nodes && p.player < c.nodes
    ensures r.Shape(c)
  {
    var realstart := ExpandTics(n.maketic, p.starttic);
    var realend := realstart + |p.cmds|;
    if realend <= n.nettics[b] then n
    else if realstart > n.nettics[b] then n.(remoteresend := n.remoteresend[b := true])
    else
      n.(remoteresend := n.remoteresend[b := false],
         netcmds := n.netcmds[p.player :=
                      Store(n.netcmds[p.player], n.nettics[b], p.cmds[n.nettics[b] - realstart..])],
         nettics := n.nettics[b := realend])
  }

  /** One round of the loop of GetPackets, for a packet from node b. */
  function Receive(c: Config, n: Node, b: nat, p: Packet): (r: Node)
    requires c.Valid() && n.Shape(c) && b < c.nodes && p.player < c.nodes
    ensures r.Shape(c)
  {
    TakeCommands(c, HearRequest(c, n, b, p), b, p)
  }

  // ----- G_Ticker and the tail of TryRunTics

  function Row(c: Config, n: Node): (row: seq<Cmd>)
    requires c.Valid() && n.Shape(c)
    ensures |row| == c.nodes
  {
    var buf := n.Div(c) % BACKUPTICS;
    seq(c.nodes, p requires 0 <= p < c.nodes => n.netcmds[p][buf])
  }

  predicate StartsTic(c: Config, n: Node)
    requires c.Valid()
  {
    n.gametic % c.ticdup == 0
  }

  /** The comparison of G_Ticker fails for player p. */
  predicate Alarm(c: Config, n: Node, p: nat)
    requires c.Valid() && n.Shape(c) && p < c.nodes
  {
    && StartsTic(c, n) && n.gametic > BACKUPTICS
    && n.consist[p][n.Div(c) % BACKUPTICS] != Row(c, n)[p].consistancy
  }

  function Sampled(c: Config, n: Node): (s: seq<seq<int>>)
    requires c.Valid() && n.Shape(c)
    ensures |s| == c.nodes && forall p :: 0 <= p < c.nodes ==> |s[p]| == BACKUPTICS
  {
    if StartsTic(c, n) then
      var buf := n.Div(c) % BACKUPTICS;
      seq(c.nodes, p requires 0 <= p < c.nodes => n.consist[p][buf := c.sample(n.ran, p)])
    else n.consist
  }

  /** The rings after a tic: the commands of a tic that runs again lose chat and specials. */
  function Blanked(c: Config, n: Node): (r: seq<seq<Cmd>>)
    requires c.Valid() && n.Shape(c)
    ensures |r| == c.nodes && forall p :: 0 <= p < c.nodes ==> |r[p]| == BACKUPTICS
  {
    if (n.gametic + 1) % c.ticdup == 0 then n.netcmds
    else
      var slot := (n.gametic + 1) / c.ticdup % BACKUPTICS;
      seq(c.nodes, p requires 0 <= p < c.nodes => n.netcmds[p][slot := Repeated(n.netcmds[p][slot])])
  }

  /** One gametic: fetch the commands, compare and renew the samples, advance. */
  function RunTic(c: Config, n: Node): (r: Node)
    requires c.Valid() && n.Shape(c)
    ensures r.Shape(c)
  {
    if exists p: nat :: p < c.nodes && Alarm(c, n, p) then n.(fault := ConsistencyFailure)
    else n.(gametic := n.gametic + 1, ran := n.ran + [Row(c, n)],
            consist := Sampled(c, n), netcmds := Blanked(c, n))
  }

  // ----- what the loops amount to

  /** The build loop touches maketic, the local ring and the history only. */
  lemma {:induction false} BuildTicsKeeps(c: Config, n: Node, inputs: seq<Cmd>)
    requires c.Valid() && n.Shape(c)
    ensures var r := BuildTics(c, n, inputs);
            r == n.(maketic := r.maketic, localcmds := r.localcmds, issued := r.issued)
    decreases |inputs|
  {
    if inputs != [] && CanBuild(c, n) {
      BuildTicsKeeps(c, BuildOne(c, n, inputs[0]), inputs[1..]);
    }
  }
}
