/** What the players enter is what all machines execute (NetUpdate and TryRunTics of doom/d_net.c, G_BuildTiccmd of
    doom/g_game.c). */
module NetInputs {
  import opened Arith
  import opened NetTics
  import opened NetNode
  import opened NetSystem
  import opened NetInvariant
  import opened NetSteps
  import opened NetAlarm
  import opened NetTheorems

  // ----- one update

  /** The command bears the input. */
  predicate Bears(cmd: Cmd, input: Cmd) {
    && cmd.forwardmove == input.forwardmove && cmd.sidemove == input.sidemove && cmd.angleturn == input.angleturn
    && cmd.chatchar == input.chatchar && cmd.buttons == input.buttons
  }

  predicate AllBear(cmds: seq<Cmd>, inputs: seq<Cmd>) {
    |cmds| == |inputs| && forall i :: 0 <= i < |cmds| ==> Bears(cmds[i], inputs[i])
  }

  /** A node builds at most five tics ahead of the one it runs. */
  function Room(c: Config, n: Node): nat
    requires c.Valid()
  {
    var ahead := n.maketic - n.Div(c);
    if ahead >= 5 then 0 else 5 - ahead
  }

  /** The new commands are the inputs, as many as there is room for. */
  lemma {:induction false} BuildsInputs(c: Config, n: Node, inputs: seq<Cmd>) returns (r: Node, cmds: seq<Cmd>)
    requires c.Valid() && n.Shape(c)
    ensures r == BuildTics(c, n, inputs) && r.issued == n.issued + cmds
    ensures r.maketic == n.maketic + |cmds| && |cmds| == Min(|inputs|, Room(c, n)) && AllBear(cmds, inputs[..|cmds|])
    decreases |inputs|
  {
    if inputs == [] || !CanBuild(c, n) {
      r, cmds := n, [];
    } else {
      var m, cmd := BuildsOne(c, n, inputs[0]);
      var rest;
      r, rest := BuildsInputs(c, m, inputs[1..]);
      cmds := [cmd] + rest;
      assert n.issued + cmds == m.issued + rest;
      assert inputs[..|cmds|] == [inputs[0]] + inputs[1..][..|rest|];
    }
  }

  lemma BuildsOne(c: Config, n: Node, input: Cmd) returns (m: Node, cmd: Cmd)
    requires c.Valid() && n.Shape(c) && CanBuild(c, n)
    ensures m == BuildOne(c, n, input) && m.Shape(c) && m.issued == n.issued + [cmd] && Bears(cmd, input)
    ensures m.maketic == n.maketic + 1 && Room(c, m) == Room(c, n) - 1
  {
    m := BuildOne(c, n, input);
    cmd := m.issued[|n.issued|];
  }

  /** The tics that an update makes of the clock ticks that skiptics leaves it. */
  function Made(c: Config, n: Node, elapsed: nat): nat
    requires c.Valid()
  {
    Min(if elapsed <= n.skiptics then 0 else elapsed - n.skiptics, Room(c, n))
  }

  lemma UpdateBuilds(c: Config, n: Node, elapsed: nat, inputs: seq<Cmd>) returns (r: Node, cmds: seq<Cmd>)
    requires c.Valid() && n.Shape(c) && elapsed <= |inputs|
    ensures r == Built(c, n, elapsed, inputs) && r.issued == n.issued + cmds && r.maketic == n.maketic + |cmds|
    ensures |cmds| == Made(c, n, elapsed) && AllBear(cmds, inputs[..|cmds|])
    ensures r.skiptics == if elapsed <= n.skiptics then n.skiptics - elapsed else 0
  {
    var ins := inputs[..NewTics(n.skiptics, elapsed)];
    r, cmds := BuildsInputs(c, Ticked(n, elapsed), ins);
    BuildTicsKeeps(c, Ticked(n, elapsed), ins);
    assert ins[..|cmds|] == inputs[..|cmds|];
  }

  // ----- a whole run

  /** The inputs that player p enters in a step. */
  ghost function Entered(c: Config, s: System, step: Step, p: nat): seq<Cmd>
    requires c.Valid() && Enabled(c, s, step)
  {
    match step
    case Send(a, elapsed, inputs) => if a == p then inputs[..Made(c, s.nodes[p], elapsed)] else []
    case _ => []
  }

  lemma StepIssues(c: Config, s: System, step: Step, p: nat) returns (cmds: seq<Cmd>)
    requires c.Valid() && Enabled(c, s, step) && p < |s.nodes|
    ensures Apply(c, s, step).nodes[p].issued == s.nodes[p].issued + cmds && AllBear(cmds, Entered(c, s, step, p))
  {
    cmds := [];
    match step
    case Send(a, elapsed, inputs) =>
      if a == p {
        var r;
        r, cmds := UpdateBuilds(c, s.nodes[a], elapsed, inputs);
      }
    case _ =>
  }

  /** All the inputs that player p enters in a run. */
  ghost function Inputs(c: Config, s: System, steps: seq<Step>, p: nat): seq<Cmd>
    requires c.Valid()
    decreases |steps|
  {
    if steps == [] || !Enabled(c, s, steps[0]) then []
    else Entered(c, s, steps[0], p) + Inputs(c, Apply(c, s, steps[0]), steps[1..], p)
  }

  lemma AllBearCat(a: seq<Cmd>, x: seq<Cmd>, b: seq<Cmd>, y: seq<Cmd>)
    requires AllBear(a, x) && AllBear(b, y)
    ensures AllBear(a + b, x + y)
  {
  }

  lemma {:induction false} RunIssues(c: Config, s: System, steps: seq<Step>, t: System, p: nat) returns (cmds: seq<Cmd>)
    requires c.Valid() && Leads(c, s, steps, t) && p < |s.nodes|
    ensures p < |t.nodes| && t.nodes[p].issued == s.nodes[p].issued + cmds && AllBear(cmds, Inputs(c, s, steps, p))
    decreases |steps|
  {
    if steps == [] {
      cmds := [];
    } else {
      var first := StepIssues(c, s, steps[0], p);
      var rest := RunIssues(c, Apply(c, s, steps[0]), steps[1..], t, p);
      cmds := first + rest;
      AllBearCat(first, Entered(c, s, steps[0], p), rest, Inputs(c, Apply(c, s, steps[0]), steps[1..], p));
      assert t.nodes[p].issued == s.nodes[p].issued + first + rest;
    }
  }

  /** The commands that a player has issued in a run are the inputs entered, one for one and in order. */
  lemma IssuedAreInputs(c: Config, steps: seq<Step>, s: System, p: nat)
    requires c.Valid() && Leads(c, Start(c), steps, s) && p < c.nodes
    ensures p < |s.nodes| && AllBear(s.nodes[p].issued, Inputs(c, Start(c), steps, p))
  {
    var cmds := RunIssues(c, Start(c), steps, s, p);
    assert s.nodes[p].issued == [] + cmds == cmds;
  }

  /** The command is what is left of the input when a tic is run again: the moves, and the buttons unless special. */
  predicate BearsAgain(cmd: Cmd, input: Cmd) {
    && cmd.forwardmove == input.forwardmove && cmd.sidemove == input.sidemove && cmd.angleturn == input.angleturn
    && cmd.chatchar == 0 && cmd.buttons == if input.buttons / 128 % 2 == 1 then 0 else input.buttons
  }

  lemma CanonBears(c: Config, issued: seq<Cmd>, inputs: seq<Cmd>, g: nat)
    requires c.Valid() && AllBear(issued, inputs) && g / c.ticdup < |issued|
    ensures if g % c.ticdup == 0 then Bears(Canon(c, issued, g), inputs[g / c.ticdup])
            else BearsAgain(Canon(c, issued, g), inputs[g / c.ticdup])
  {
    assert Bears(issued[g / c.ticdup], inputs[g / c.ticdup]);
  }

  /** What any machine has executed for a player in gametic g is the input that this player entered for that tic. */
  lemma ExecutedAreInputs(c: Config, steps: seq<Step>, s: System, a: nat, p: nat, g: nat) returns (inputs: seq<Cmd>)
    requires c.Valid() && Leads(c, Start(c), steps, s) && a < c.nodes == |s.nodes| && p < c.nodes && g < s.nodes[a].gametic
    ensures inputs == Inputs(c, Start(c), steps, p)
    ensures g < |s.nodes[a].ran| && p < |s.nodes[a].ran[g]| && g / c.ticdup < |inputs|
    ensures if g % c.ticdup == 0 then Bears(s.nodes[a].ran[g][p], inputs[g / c.ticdup])
            else BearsAgain(s.nodes[a].ran[g][p], inputs[g / c.ticdup])
  {
    inputs := Inputs(c, Start(c), steps, p);
    IssuedAreInputs(c, steps, s, p);
    RowsIssued(c, steps, s, a, p, g);
    CanonBears(c, s.nodes[p].issued, inputs, g);
  }

  lemma RowsIssued(c: Config, steps: seq<Step>, s: System, a: nat, p: nat, g: nat)
    requires c.Valid() && Leads(c, Start(c), steps, s) && a < c.nodes == |s.nodes| && p < c.nodes && g < s.nodes[a].gametic
    ensures g < |s.nodes[a].ran| && p < |s.nodes[a].ran[g]| && g / c.ticdup < |s.nodes[p].issued|
    ensures s.nodes[a].ran[g][p] == Canon(c, s.nodes[p].issued, g)
  {
    Agreement(c, s, a, a, g);
  }
}
