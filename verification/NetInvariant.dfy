/** What every step of a net game keeps: the ring windows and the agreement of
    all nodes on the executed commands. */
module NetInvariant {
  import opened Arith
  import opened Options
  import opened NetTics
  import opened NetNode
  import opened NetSystem

  // ----- the invariant

  /** The command that player with history `issued` contributes to gametic g. */
  ghost function Canon(c: Config, issued: seq<Cmd>, g: nat): Cmd
    requires c.Valid() && g / c.ticdup < |issued|
  {
    if g % c.ticdup == 0 then issued[g / c.ticdup] else Repeated(issued[g / c.ticdup])
  }

  /** The last tics built are in the local ring, and the window is open for five. */
  ghost predicate OwnRing(c: Config, x: Node)
    requires c.Valid() && x.Shape(c)
  {
    && |x.issued| == x.maketic <= x.Div(c) + BACKUPTICS / 2 - 1
    && (forall t :: 0 <= t < x.maketic <= t + BACKUPTICS ==> x.localcmds[t % BACKUPTICS] == x.issued[t])
  }

  ghost predicate InSight(x: Node, tic: int) {
    0 <= tic <= x.maketic <= tic + 64
  }

  /** Where sending resumes, and why. */
  ghost predicate OwnResend(c: Config, x: Node)
    requires c.Valid() && x.Shape(c)
  {
    && (forall b :: 0 <= b < c.nodes ==> InSight(x, x.resendto[b]))
    && (forall b :: 0 <= b < c.nodes && !x.asked[b] ==> x.maketic <= x.resendto[b] + c.extratics)
    && (x.maketic == 0 ==> x.skiptics == 0)
  }

  /** The packet holds the commands of `src` from tic `start` on. */
  ghost predicate Carries(p: Packet, start: int, src: Node) {
    && p.player == src.self && p.starttic == start % 256
    && |p.cmds| <= BACKUPTICS
    && 0 <= start && start + |p.cmds| <= |src.issued|
    && p.cmds == src.issued[start..start + |p.cmds|]
  }

  ghost predicate OwnRebound(x: Node) {
    x.rebound.Some? ==>
      var p := x.rebound.value;
      && Carries(p, ExpandTics(x.maketic, p.starttic), x)
      && (p.retransmit ==> InSight(x, ExpandTics(x.maketic, p.retransmitfrom)))
  }

  ghost predicate Own(c: Config, x: Node)
    requires c.Valid()
  {
    && x.Shape(c) && OwnRing(c, x)
    && (x.fault.Fine? ==> OwnResend(c, x) && OwnRebound(x))
    && |x.ran| == x.gametic && (forall g :: 0 <= g < x.gametic ==> |x.ran[g]| == c.nodes)
  }

  /** The command of tic t as it stands in the ring of x. */
  ghost function Shown(c: Config, x: Node, issued: seq<Cmd>, t: nat): Cmd
    requires c.Valid() && t < |issued|
  {
    if t == x.Div(c) && !StartsTic(c, x) then Repeated(issued[t]) else issued[t]
  }

  ghost predicate Window(c: Config, x: Node, b: nat, maketic: nat)
    requires c.Valid() && x.Shape(c) && b < c.nodes
  {
    x.Div(c) <= x.nettics[b] <= maketic && (!StartsTic(c, x) ==> x.Div(c) < x.nettics[b])
  }

  ghost predicate Ring(c: Config, x: Node, b: nat, issued: seq<Cmd>)
    requires c.Valid() && x.Shape(c) && b < c.nodes && x.nettics[b] <= |issued|
  {
    forall t :: x.Div(c) <= t < x.nettics[b] ==> x.netcmds[b][t % BACKUPTICS] == Shown(c, x, issued, t)
  }

  ghost predicate Executed(c: Config, x: Node, b: nat, issued: seq<Cmd>, g: nat)
    requires c.Valid() && b < c.nodes && g < |x.ran| && |x.ran[g]| == c.nodes
  {
    g / c.ticdup < |issued| && x.ran[g][b] == Canon(c, issued, g)
  }

  /** What node x holds of player b, whose full history is `issued`. */
  ghost predicate Knows(c: Config, x: Node, b: nat, issued: seq<Cmd>)
    requires c.Valid() && Own(c, x) && b < c.nodes
  {
    && Window(c, x, b, |issued|)
    && Ring(c, x, b, issued)
    && (forall g :: 0 <= g < x.gametic ==> Executed(c, x, b, issued, g))
  }

  ghost predicate PostOk(c: Config, s: System, e: Envelope)
    requires |s.nodes| == c.nodes
  {
    && e.src < c.nodes && e.dst < c.nodes && e.src != e.dst
    && Carries(e.pkt, e.start, s.nodes[e.src])
    && (e.pkt.retransmit ==> 0 <= e.from <= s.nodes[e.dst].maketic && e.pkt.retransmitfrom == e.from % 256)
  }

  ghost predicate Inv(c: Config, s: System)
    requires c.Valid()
  {
    && |s.nodes| == c.nodes
    && (forall a :: 0 <= a < c.nodes ==> Own(c, s.nodes[a]) && s.nodes[a].self == a)
    && (forall a, b :: 0 <= a < c.nodes && 0 <= b < c.nodes ==> Knows(c, s.nodes[a], b, s.nodes[b].issued))
    && (forall e :: e in s.net ==> PostOk(c, s, e))
  }

  // ----- windows

  /** No node is more than ten tics ahead of what another has run. */
  lemma Windows(c: Config, s: System, a: nat, b: nat)
    requires c.Valid() && Inv(c, s) && a < c.nodes && b < c.nodes
    ensures s.nodes[b].maketic <= s.nodes[a].Div(c) + BACKUPTICS - 2
    ensures s.nodes[a].nettics[b] - s.nodes[a].Div(c) <= BACKUPTICS - 2
    ensures s.nodes[a].maketic - s.nodes[b].nettics[a] <= BACKUPTICS - 2
    ensures s.nodes[a].Div(c) <= s.nodes[a].nettics[b] <= s.nodes[b].maketic
  {
    assert Knows(c, s.nodes[a], b, s.nodes[b].issued);
    assert Knows(c, s.nodes[b], a, s.nodes[a].issued);
    assert Own(c, s.nodes[a]) && Own(c, s.nodes[b]);
  }

  // ----- replacing one node

  ghost predicate Grows(x: Node, y: Node) {
    x.self == y.self && x.issued <= y.issued && x.maketic <= y.maketic
  }

  lemma KnowsMore(c: Config, x: Node, b: nat, issued: seq<Cmd>, more: seq<Cmd>)
    requires c.Valid() && Own(c, x) && b < c.nodes
    requires Knows(c, x, b, issued) && issued <= more
    ensures Knows(c, x, b, more)
  {
    forall g | 0 <= g < x.gametic ensures Executed(c, x, b, more, g) {
      assert Executed(c, x, b, issued, g);
      CanonMore(c, issued, more, g);
    }
    RingMore(c, x, b, issued, more);
  }

  lemma CanonMore(c: Config, issued: seq<Cmd>, more: seq<Cmd>, g: nat)
    requires c.Valid() && issued <= more && g / c.ticdup < |issued|
    ensures Canon(c, more, g) == Canon(c, issued, g)
  {
  }

  lemma RingMore(c: Config, x: Node, b: nat, issued: seq<Cmd>, more: seq<Cmd>)
    requires c.Valid() && x.Shape(c) && b < c.nodes && x.nettics[b] <= |issued| && issued <= more && Ring(c, x, b, issued)
    ensures Ring(c, x, b, more)
  {
    forall t | x.Div(c) <= t < x.nettics[b] ensures x.netcmds[b][t % BACKUPTICS] == Shown(c, x, more, t) {
      assert x.netcmds[b][t % BACKUPTICS] == Shown(c, x, issued, t);
    }
  }

  /** Replacing node a by a grown node, and adding packets, keeps the invariant. */
  lemma Replace(c: Config, s: System, a: nat, y: Node, posts: set<Envelope>)
    requires c.Valid() && Inv(c, s) && a < c.nodes
    requires Grows(s.nodes[a], y) && Own(c, y)
    requires forall b :: 0 <= b < c.nodes ==> Knows(c, y, b, if b == a then y.issued else s.nodes[b].issued)
    requires forall e :: e in posts ==> PostOk(c, System(s.nodes[a := y], s.net), e)
    ensures Inv(c, System(s.nodes[a := y], s.net + posts))
  {
    var r := System(s.nodes[a := y], s.net + posts);
    forall i, j | 0 <= i < c.nodes && 0 <= j < c.nodes ensures Knows(c, r.nodes[i], j, r.nodes[j].issued) {
      if i != a {
        KnowsMore(c, s.nodes[i], j, s.nodes[j].issued, r.nodes[j].issued);
      }
    }
    forall e | e in r.net ensures PostOk(c, r, e) {
      if e in s.net {
        PostStays(c, s, a, y, e);
      }
    }
  }

  lemma PostStays(c: Config, s: System, a: nat, y: Node, e: Envelope)
    requires |s.nodes| == c.nodes && a < c.nodes && Grows(s.nodes[a], y) && PostOk(c, s, e)
    ensures PostOk(c, System(s.nodes[a := y], s.net), e)
  {
  }

  // ----- Start

  lemma StartInv(c: Config)
    requires c.Valid()
    ensures Inv(c, Start(c))
  {
    DivIs(0, c.ticdup, 0, 0);
  }
}
