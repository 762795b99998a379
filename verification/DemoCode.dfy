/** Recording and playing back as doom/g_game.c does it: a pointer that walks through a byte buffer. */
module DemoCode {
  import opened Arith
  import opened Options
  import opened Demo

  /** How many commands fit into a buffer of that size. */
  function Capacity(size: nat): nat { if size < 29 then 0 else (size - 29) / 4 + 1 }

  /** The commands that end up in the demo. */
  function Kept(cmds: seq<Ticcmd>, size: nat): (r: seq<Ticcmd>)
    ensures r <= Unmarked(cmds)
    ensures |r| == |Unmarked(cmds)| || |r| == Capacity(size)
  {
    var u := Unmarked(cmds);
    if |u| <= Capacity(size) then u else u[..Capacity(size)]
  }

  /** A demo with these commands. */
  function File(h: Header, cmds: seq<Ticcmd>): (s: seq<int>)
    requires h.Valid()
    ensures IsBytes(s) && |s| == HEADERSIZE + 4 * |cmds| + 1
  {
    EncodeHeader(h) + Stream(cmds) + [DEMOMARKER]
  }

  lemma Fits(size: nat, i: nat)
    ensures HEADERSIZE + 4 * i + 16 <= size <==> i < Capacity(size)
  {
  }

  /** Where the recording stops. */
  lemma KeptIs(cmds: seq<Ticcmd>, size: nat, i: nat)
    requires i <= |cmds| && i <= Capacity(size) && forall k :: 0 <= k < i ==> !IsMarked(cmds[k])
    requires i == |cmds| || i == Capacity(size) || IsMarked(cmds[i])
    ensures Kept(cmds, size) == cmds[..i]
  {
    var u := Unmarked(cmds);
    assert |u| >= i;
    assert u[..i] == cmds[..i];
  }

  /** Nothing is lost exactly when everything fits and no command reads like the end. */
  lemma KeptAll(cmds: seq<Ticcmd>, size: nat)
    ensures Kept(cmds, size) == cmds <==>
            |cmds| <= Capacity(size) && forall i :: 0 <= i < |cmds| ==> !IsMarked(cmds[i])
  {
    if |cmds| <= Capacity(size) && forall i :: 0 <= i < |cmds| ==> !IsMarked(cmds[i]) {
      KeptIs(cmds, size, |cmds|);
    }
  }

  /** Recording a playback gives the same demo again. */
  lemma ReRecording(h: Header, cmds: seq<Ticcmd>, size: nat)
    requires h.Valid() && AllValid(cmds)
    ensures var kept := Kept(cmds, size);
            Kept(AllApplied(kept), size) == AllApplied(kept) && File(h, AllApplied(kept)) == File(h, kept)
  {
    var kept := Kept(cmds, size);
    StreamApplied(kept);
    KeptAll(AllApplied(kept), size);
  }

  lemma OneMore(cmds: seq<Ticcmd>, i: nat)
    requires i < |cmds|
    ensures Stream(cmds[..i + 1]) == Stream(cmds[..i]) + Encode(cmds[i])
    ensures AllApplied(cmds[..i + 1]) == AllApplied(cmds[..i]) + [Applied(cmds[i])]
  {
    assert cmds[..i + 1][..i] == cmds[..i];
  }

  class Recorder {
    const buffer: array<int>
    var p: nat
    var recording: bool

    ghost predicate Valid()
      reads this
    {
      recording && p + 4 <= buffer.Length
    }

    /** G_RecordDemo. */
    constructor (size: nat)
      requires size >= HEADERSIZE + 4
      ensures recording && buffer.Length == size && fresh(buffer)
    {
      buffer := new int[size];
      recording := true;
      p := 0;
    }

    method Put(b: int)
      requires p < buffer.Length
      modifies this`p, buffer
      ensures p == old(p) + 1 && buffer[..p] == old(buffer[..p]) + [Byte(b)]
      ensures forall i :: p <= i < buffer.Length ==> buffer[i] == old(buffer[i])
    {
      buffer[p] := Byte(b);
      p := p + 1;
    }

    method PutGame(h: Header)
      requires p + 4 <= buffer.Length
      modifies this`p, buffer
      ensures p == old(p) + 4
      ensures buffer[..p] == old(buffer[..p]) + [VERSION, Byte(h.skill), Byte(h.episode), Byte(h.level)]
    {
      Put(VERSION);
      Put(h.skill);
      Put(h.episode);
      Put(h.level);
    }

    method PutRules(h: Header)
      requires p + 5 <= buffer.Length
      modifies this`p, buffer
      ensures p == old(p) + 5
      ensures buffer[..p] == old(buffer[..p]) + [Byte(h.deathmatch), Byte(h.respawn), Byte(h.fast),
                                                 Byte(h.nomonsters), Byte(h.console)]
    {
      Put(h.deathmatch);
      Put(h.respawn);
      Put(h.fast);
      Put(h.nomonsters);
      Put(h.console);
    }

    /** G_BeginRecording. */
    method BeginRecording(h: Header)
      requires recording && h.Valid() && buffer.Length >= HEADERSIZE + 4
      modifies this`p, buffer
      ensures Valid() && p == HEADERSIZE && buffer[..p] == EncodeHeader(h)
    {
      p := 0;
      PutGame(h);
      PutRules(h);
      ghost var header := EncodeHeader(h);
      assert buffer[..9] == header[..9];
      var i := 0;
      while i < MAXPLAYERS
        invariant 0 <= i <= MAXPLAYERS && p == 9 + i && buffer[..p] == header[..p]
      {
        Put(h.ingame[i]);
        assert header[9 + i] == Byte(h.ingame[i]);
        i := i + 1;
      }
    }

    /** G_CheckDemoStatus while recording: the demo is closed and the program ends. */
    method CheckDemoStatus()
      requires recording && p < buffer.Length
      modifies this, buffer
      ensures !recording && p == old(p) + 1 && buffer[..p] == old(buffer[..p]) + [DEMOMARKER]
    {
      Put(DEMOMARKER);
      recording := false;
    }

    /** G_WriteDemoTiccmd: the command is written and read back, unless the demo ends here: on the quit key,
        for lack of space, or because the command reads like the end. */
    method WriteTiccmd(c: Ticcmd, quit: bool) returns (r: Ticcmd)
      requires Valid() && c.Valid()
      modifies this, buffer
      ensures recording <==> !quit && old(p) + 16 <= buffer.Length && !IsMarked(c)
      ensures recording ==> Valid() && p == old(p) + 4 && buffer[..p] == old(buffer[..p]) + Encode(c) && r == Applied(c)
      ensures !recording ==> r == c && p == old(p) + 1 && buffer[..p] == old(buffer[..p]) + [DEMOMARKER]
    {
      r := c;
      if quit {
        CheckDemoStatus();
        return;
      }
      Put(c.forward);
      Put(c.side);
      Put((c.angle + 128) / 256);
      Put(c.buttons);
      p := p - 4;
      assert buffer[..p] == old(buffer[..p]) && buffer[p..p + 4] == Encode(c);
      if p + 16 > buffer.Length {
        CheckDemoStatus();
        return;
      }
      r := ReadBack(c);
    }

    /** G_ReadDemoTiccmd while recording. */
    method ReadBack(c: Ticcmd) returns (r: Ticcmd)
      requires Valid() && p + 16 <= buffer.Length && c.Valid() && buffer[p..p + 4] == Encode(c)
      modifies this, buffer
      ensures recording <==> !IsMarked(c)
      ensures recording ==> Valid() && p == old(p) + 4 && buffer[..p] == old(buffer[..p]) + Encode(c) && r == Applied(c)
      ensures !recording ==> r == c && p == old(p) + 1 && buffer[..p] == old(buffer[..p]) + [DEMOMARKER]
    {
      ByteBack(c.forward);
      DecodeEncode(c, c);
      ghost var four := buffer[p..p + 4];
      assert buffer[p] == four[0] && buffer[p + 1] == four[1] && buffer[p + 2] == four[2] && buffer[p + 3] == four[3];
      if buffer[p] == DEMOMARKER {
        CheckDemoStatus();
        return c;
      }
      r := c.(forward := Int8(buffer[p]), side := Int8(buffer[p + 1]), angle := Int16(buffer[p + 2] * 256),
              buttons := buffer[p + 3]);
      p := p + 4;
      assert buffer[..p] == buffer[..p - 4] + four;
    }

    /** A whole recording: commands come in until the demo ends, at the latest by the quit key. What is kept is
        everything before the first command that reads like the end, as far as there is space. */
    method RecordDemo(h: Header, cmds: seq<Ticcmd>, last: Ticcmd) returns (applied: seq<Ticcmd>)
      requires recording && h.Valid() && buffer.Length >= HEADERSIZE + 4 && AllValid(cmds) && last.Valid()
      modifies this, buffer
      ensures !recording && p <= buffer.Length && buffer[..p] == File(h, Kept(cmds, buffer.Length))
      ensures applied == AllApplied(Kept(cmds, buffer.Length))
    {
      BeginRecording(h);
      applied := [];
      var i := 0;
      while i < |cmds|
        invariant 0 <= i <= |cmds| && Valid() && p == HEADERSIZE + 4 * i && i <= Capacity(buffer.Length)
        invariant forall k :: 0 <= k < i ==> !IsMarked(cmds[k])
        invariant buffer[..p] == EncodeHeader(h) + Stream(cmds[..i]) && applied == AllApplied(cmds[..i])
      {
        Fits(buffer.Length, i);
        OneMore(cmds, i);
        var r := WriteTiccmd(cmds[i], false);
        if !recording {
          KeptIs(cmds, buffer.Length, i);
          return;
        }
        applied := applied + [r];
        i := i + 1;
      }
      KeptIs(cmds, buffer.Length, i);
      var _ := WriteTiccmd(last, true);
    }
  }

  /** The moves of one command in another. */
  function WithMoves(net: Ticcmd, c: Ticcmd): Ticcmd { c.(consistancy := net.consistancy, chat := net.chat) }

  /** What playback makes of the net commands. */
  function Replayed(net: seq<Ticcmd>, cmds: seq<Ticcmd>): seq<Ticcmd>
    requires |net| >= |cmds|
  {
    seq(|cmds|, i requires 0 <= i < |cmds| => WithMoves(net[i], Applied(cmds[i])))
  }

  /** What a player does in one tic. */
  datatype Input = Input(forward: int, side: int, angle: int, buttons: int)

  /** The commands of inputs at default speed. */
  function Commands(inputs: seq<Input>): (cmds: seq<Ticcmd>)
    ensures |cmds| == |inputs|
  {
    seq(|inputs|, i requires 0 <= i < |inputs| =>
      BuildTiccmd(inputs[i].forward, inputs[i].side, inputs[i].angle, inputs[i].buttons, MaxMove(100)))
  }

  predicate SameMoves(a: Ticcmd, b: Ticcmd) {
    a.forward == b.forward && a.side == b.side && a.angle == b.angle && a.buttons == b.buttons
  }

  /** Whatever is played at default speed is recorded up to the last command that fits, and the replay makes the
      moves, turns and buttons that were applied while recording, whatever the net commands hold. */
  lemma DefaultReplays(inputs: seq<Input>, size: nat, net: seq<Ticcmd>, i: nat)
    requires |net| >= |inputs|
    ensures var cmds := Commands(inputs);
            var kept := Kept(cmds, size);
            && AllValid(cmds) && kept == cmds[..Min(|cmds|, Capacity(size))]
            && (i < |kept| ==> SameMoves(Replayed(net, kept)[i], AllApplied(kept)[i])
                               && AllApplied(kept)[i] == Applied(cmds[i])
                               && cmds[i].forward == Clamp(inputs[i].forward, 0x32) && cmds[i].side == Clamp(inputs[i].side, 0x32)
                               && (-0x8000 <= inputs[i].angle < 0x8000 ==> cmds[i].angle == inputs[i].angle)
                               && (0 <= inputs[i].buttons < 256 ==> cmds[i].buttons == inputs[i].buttons))
  {
    var cmds := Commands(inputs);
    forall k | 0 <= k < |cmds| ensures !IsMarked(cmds[k]) {
      DefaultIsUnmarked(inputs[k].forward, inputs[k].side, inputs[k].angle, inputs[k].buttons);
    }
    KeptIs(cmds, size, Min(|cmds|, Capacity(size)));
  }

  class Playback {
    const lump: array<int>
    var p: nat
    var playing: bool

    constructor (lump: array<int>)
      ensures this.lump == lump
    {
      this.lump := lump;
      p, playing := 0, false;
    }

    /** The header part of G_DoPlayDemo. */
    method DoPlayDemo() returns (h: Option<Header>)
      requires lump.Length >= HEADERSIZE
      modifies this
      ensures h == DecodeHeader(lump[..]) && playing == h.Some? && (h.Some? ==> p == HEADERSIZE)
    {
      p := 0;
      var version := lump[p];
      p := p + 1;
      if version != VERSION {
        playing := false;
        return None;
      }
      var game := lump[1..9];
      p := p + 8;
      var ingame := [];
      var i := 0;
      while i < MAXPLAYERS
        invariant 0 <= i <= MAXPLAYERS && p == 9 + i && ingame == lump[9..9 + i]
      {
        ingame := ingame + [lump[p]];
        p := p + 1;
        i := i + 1;
      }
      playing := true;
      return Some(Header(game[0], game[1], game[2], game[3], game[4], game[5], game[6], game[7], ingame));
    }

    /** G_ReadDemoTiccmd during playback. */
    method ReadTiccmd(c: Ticcmd) returns (r: Ticcmd)
      requires playing && p < lump.Length && (lump[p] != DEMOMARKER ==> p + 4 <= lump.Length)
      modifies this
      ensures playing == (lump[old(p)] != DEMOMARKER)
      ensures playing ==> p == old(p) + 4 <= lump.Length && r == Decode(lump[old(p)..p], c)
      ensures !playing ==> r == c
    {
      if lump[p] == DEMOMARKER {
        playing := false;
        return c;
      }
      r := c.(forward := Int8(lump[p]), side := Int8(lump[p + 1]), angle := Int16(lump[p + 2] * 256),
              buttons := lump[p + 3]);
      p := p + 4;
    }

    /** A whole playback of a recorded demo: the game and every command as they were recorded, and the end just
        after the last. */
    method PlayDemo(net: seq<Ticcmd>, ghost h: Header, ghost cmds: seq<Ticcmd>) returns (game: Header, out: seq<Ticcmd>)
      requires InBytes(h) && AllValid(cmds) && (forall i :: 0 <= i < |cmds| ==> !IsMarked(cmds[i]))
      requires lump[..] == File(h, cmds) && |net| > |cmds|
      modifies this
      ensures game == h && out == Replayed(net, cmds) && !playing
    {
      HeaderBack(h, Stream(cmds) + [DEMOMARKER]);
      assert File(h, cmds) == EncodeHeader(h) + (Stream(cmds) + [DEMOMARKER]);
      var start := DoPlayDemo();
      game := start.value;
      out := [];
      var i := 0;
      while playing
        invariant 0 <= i <= |cmds| && (playing ==> p == HEADERSIZE + 4 * i && out == Replayed(net, cmds)[..i])
        invariant !playing ==> out == Replayed(net, cmds)
        decreases playing, |cmds| - i
      {
        ReadsAt(h, cmds, i, net[i]);
        var r := ReadTiccmd(net[i]);
        if playing {
          out := out + [r];
          i := i + 1;
        }
      }
    }
  }

  /** What is read at command i, or behind the last. */
  lemma ReadsAt(h: Header, cmds: seq<Ticcmd>, i: nat, net: Ticcmd)
    requires h.Valid() && i <= |cmds| && AllValid(cmds) && forall k :: 0 <= k < |cmds| ==> !IsMarked(cmds[k])
    ensures var at := HEADERSIZE + 4 * i;
            if i < |cmds| then File(h, cmds)[at] != DEMOMARKER && Decode(File(h, cmds)[at..at + 4], net) == WithMoves(net, Applied(cmds[i]))
            else File(h, cmds)[at] == DEMOMARKER
  {
    FileAt(h, cmds, i);
    if i < |cmds| {
      DecodeEncode(cmds[i], net);
      ByteBack(cmds[i].forward);
    }
  }

  /** The bytes at command i, or the end. */
  lemma FileAt(h: Header, cmds: seq<Ticcmd>, i: nat)
    requires h.Valid() && i <= |cmds|
    ensures var at := HEADERSIZE + 4 * i;
            if i < |cmds| then File(h, cmds)[at..at + 4] == Encode(cmds[i]) && File(h, cmds)[at] == Byte(cmds[i].forward)
            else File(h, cmds)[at] == DEMOMARKER
  {
    if i < |cmds| {
      StreamAt(cmds, i);
      var at := HEADERSIZE + 4 * i;
      assert File(h, cmds)[at..at + 4] == Stream(cmds)[4 * i..4 * i + 4];
      assert File(h, cmds)[at] == File(h, cmds)[at..at + 4][0];
    }
  }
}
