/** What a net game promises in every run (doom/d_net.c, doom/g_game.c). */
module NetTheorems {
  import opened NetTics
  import opened NetNode
  import opened NetSystem
  import opened NetInvariant
  import opened NetSteps
  import opened NetAlarm

  /** Lockstep: nodes that have both run a gametic ran the same command of every player in it,
      namely the one that player issued for the tic (without chat and specials when repeated). */
  lemma Agreement(c: Config, s: System, a: nat, b: nat, g: nat)
    requires c.Valid() && Reachable(c, s) && a < c.nodes && b < c.nodes && |s.nodes| == c.nodes
    requires g < s.nodes[a].gametic && g < s.nodes[b].gametic
    ensures g < |s.nodes[a].ran| && g < |s.nodes[b].ran| && s.nodes[a].ran[g] == s.nodes[b].ran[g]
    ensures |s.nodes[a].ran[g]| == c.nodes
    ensures forall p :: 0 <= p < c.nodes ==>
              g / c.ticdup < |s.nodes[p].issued| && s.nodes[a].ran[g][p] == Canon(c, s.nodes[p].issued, g)
  {
    ReachableInv(c, s);
    var k := g + 1;
    PrefixAgrees(c, s, a, b, k);
    assert s.nodes[a].ran[..k][g] == s.nodes[b].ran[..k][g];
    forall p | 0 <= p < c.nodes
      ensures g / c.ticdup < |s.nodes[p].issued| && s.nodes[a].ran[g][p] == Canon(c, s.nodes[p].issued, g)
    {
      assert Knows(c, s.nodes[a], p, s.nodes[p].issued);
      assert Executed(c, s.nodes[a], p, s.nodes[p].issued, g);
    }
  }

  /** The windows: nobody has run past what it knows, or knows what was not made, and no
      distance that a ring of twelve must bridge exceeds ten. */
  lemma RingWindows(c: Config, s: System, a: nat, b: nat)
    requires c.Valid() && Reachable(c, s) && a < c.nodes && b < c.nodes
    ensures |s.nodes| == c.nodes && |s.nodes[a].nettics| == |s.nodes[b].nettics| == c.nodes
    ensures s.nodes[a].Div(c) <= s.nodes[a].nettics[b] <= s.nodes[b].maketic
    ensures s.nodes[a].maketic - s.nodes[b].nettics[a] <= 10
    ensures s.nodes[a].nettics[b] - s.nodes[a].Div(c) <= 10
  {
    ReachableInv(c, s);
    Windows(c, s, a, b);
  }

  /** So no ring overwrites what is still needed: a tic that a has not started yet, the next one included, is in a's
      ring as its player issued it, and the last twelve own tics are in the local ring for resending. */
  lemma NothingOverwritten(c: Config, s: System, a: nat, b: nat, t: nat)
    requires c.Valid() && Reachable(c, s) && a < c.nodes && b < c.nodes
    ensures |s.nodes| == c.nodes && s.nodes[a].Shape(c) && |s.nodes[b].issued| == s.nodes[b].maketic
    ensures s.nodes[a].Div(c) <= t < s.nodes[a].nettics[b] && (t == s.nodes[a].Div(c) ==> StartsTic(c, s.nodes[a])) ==>
              t < s.nodes[b].maketic && s.nodes[a].netcmds[b][t % BACKUPTICS] == s.nodes[b].issued[t]
    ensures s.nodes[b].Shape(c)
    ensures t < s.nodes[b].maketic <= t + BACKUPTICS ==> s.nodes[b].localcmds[t % BACKUPTICS] == s.nodes[b].issued[t]
  {
    ReachableInv(c, s);
    assert Knows(c, s.nodes[a], b, s.nodes[b].issued);
    assert Own(c, s.nodes[a]) && Own(c, s.nodes[b]);
    if s.nodes[a].Div(c) <= t < s.nodes[a].nettics[b] {
      assert s.nodes[a].netcmds[b][t % BACKUPTICS] == Shown(c, s.nodes[a], s.nodes[b].issued, t);
    }
  }
}
