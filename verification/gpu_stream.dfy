/** What a stream of words written to the GPU's ports does as a whole. */
module GpuStream {
  import opened Words
  import opened Outcomes
  import opened RendererModel
  import opened GpuModel

  /** The words of `ws` written to GP0 one after the other. */
  function Stream(g: GpuState, ws: seq<Word>): (r: Outcome<GpuState>)
    requires g.Valid()
    ensures r.Running? ==> r.value.Valid()
    ensures r.Stopped? ==> r.why.Panic?
    decreases |ws|
  {
    if ws == [] then Running(g)
    else
      match g.Gp0(ws[0])
      case Stopped(why) => Stopped(why)
      case Running(g') => Stream(g', ws[1..])
  }

  lemma {:induction false} StreamSplit(g: GpuState, a: seq<Word>, b: seq<Word>)
    requires g.Valid()
    ensures Stream(g, a + b) ==
            if Stream(g, a).Stopped? then Stream(g, a) else Stream(Stream(g, a).value, b)
    decreases |a|
  {
    if a == [] {
      assert a + b == b;
    } else {
      assert (a + b)[1..] == a[1..] + b;
      if g.Gp0(a[0]).Running? {
        StreamSplit(g.Gp0(a[0]).value, a[1..], b);
      }
    }
  }

  /** Writing one more word of a longer stream. */
  lemma StreamNext(g: GpuState, ws: seq<Word>, done: nat, g': GpuState)
    requires g.Valid() && done < |ws| && Stream(g, ws[..done]) == Running(g')
    ensures Stream(g, ws[..done + 1]) == g'.Gp0(ws[done])
    ensures g'.Gp0(ws[done]).Stopped? ==> Stream(g, ws) == g'.Gp0(ws[done])
  {
    hide Stream, GpuState.Gp0, GpuState.Valid;
    assert ws[..done + 1] == ws[..done] + [ws[done]];
    assert ws == ws[..done + 1] + ws[done + 1..];
    StreamSplit(g, ws[..done], [ws[done]]);
    StreamSplit(g, ws[..done + 1], ws[done + 1..]);
    StreamOne(g', ws[done]);
  }

  lemma StreamOne(g: GpuState, w: Word)
    requires g.Valid()
    ensures Stream(g, [w]) == g.Gp0(w)
  {
    hide GpuState.Gp0, GpuState.Valid;
    assert g.Gp0(w).Running? ==> Stream(g.Gp0(w).value, [w][1..]) == g.Gp0(w);
  }

  // ---- The batch reading of a stream ----

  /** Reads a stream the way a programmer writes it: whole commands, cut off by their length,
      each run at once, with an image load followed by its payload. */
  function Batch(g: GpuState, ws: seq<Word>): Outcome<GpuState>
    requires g.Valid() && g.AtBoundary()
    decreases |ws|, 1
  {
    if ws == [] then Running(g)
    else
      match HandlerOf(ws[0] / 0x100_0000)
      case None => Stopped(Panic)
      case Some(h) =>
        var n := h.Length();
        if |ws| < n then
          Running(g.(handler := h, cmd := ws, remaining := n - |ws|))
        else
          match g.(handler := h, cmd := ws[..n]).Execute()
          case Stopped(why) => Stopped(why)
          case Running(g') => if h.LoadImage? then ImagePayload(g', ws[n..]) else Batch(g', ws[n..])
  }

  /** Drops the words of an image. An image without pixels has no payload, but the mode only
      changes back when a payload word arrives: so the words of the next command are dropped
      in their place, its opcode serving for nothing but its length. */
  function ImagePayload(g: GpuState, ws: seq<Word>): Outcome<GpuState>
    requires g.Valid() && g.mode.ImageLoad?
    decreases |ws|, if g.remaining == 0 then 1 else 0
  {
    if ws == [] then Running(g)
    else if g.remaining == 0 then
      match HandlerOf(ws[0] / 0x100_0000)
      case None => Stopped(Panic)
      case Some(h) => ImagePayload(g.(handler := h, cmd := [], remaining := h.Length()), ws)
    else if |ws| < g.remaining then
      Running(g.(remaining := g.remaining - |ws|))
    else
      Batch(g.(remaining := 0, mode := Command), ws[g.remaining..])
  }

  /** Words that do not complete the current command are just buffered; the one that does
      runs it. */
  lemma {:induction false} CollectWords(g: GpuState, ws: seq<Word>)
    requires g.Valid() && g.mode.Command? && 0 < |ws| <= g.remaining
    ensures var g' := g.(cmd := g.cmd + ws, remaining := g.remaining - |ws|);
            Stream(g, ws) == if |ws| < g.remaining then Running(g') else g'.Execute()
    decreases |ws|
  {
    var g1 := g.(cmd := g.cmd + [ws[0]], remaining := g.remaining - 1);
    if |ws| == 1 {
      assert ws == [ws[0]];
      assert g.Gp0(ws[0]).Running? ==> Stream(g.Gp0(ws[0]).value, ws[1..]) == g.Gp0(ws[0]);
    } else {
      CollectWords(g1, ws[1..]);
      assert g1.cmd + ws[1..] == g.cmd + ws;
    }
  }

  /** Payload words change nothing but the count, until the last one. */
  lemma {:induction false} SkipWords(g: GpuState, ws: seq<Word>)
    requires g.Valid() && g.mode.ImageLoad? && 0 < |ws| <= g.remaining
    ensures Stream(g, ws) == Running(g.(
              remaining := g.remaining - |ws|,
              mode := if |ws| < g.remaining then ImageLoad else Command))
    decreases |ws|
  {
    if |ws| > 1 {
      SkipWords(g.(remaining := g.remaining - 1), ws[1..]);
    }
  }

  /** Feeding GP0 one word at a time gives, on every stream, the state of the batch reading:
      the same registers, the same triangles, and the same half-read command at the end. */
  lemma {:induction false} StreamIsBatch(g: GpuState, ws: seq<Word>)
    requires g.Valid() && g.AtBoundary()
    ensures Stream(g, ws) == Batch(g, ws)
    decreases |ws|, 1
  {
    if ws != [] && HandlerOf(ws[0] / 0x100_0000).Some? {
      var h := HandlerOf(ws[0] / 0x100_0000).value;
      var n := h.Length();
      var g0 := g.(remaining := n, handler := h, cmd := []);
      assert g.Gp0(ws[0]) == g0.Gp0(ws[0]);
      assert Stream(g, ws) == Stream(g0, ws);
      if |ws| < n {
        CollectWords(g0, ws);
        assert g0.cmd + ws == ws;
      } else {
        var g1 := g.(handler := h, cmd := ws[..n]);
        WholeCommand(g0, g1, ws, n);
        hide GpuState.Execute, GpuState.Gp0, GpuState.Valid;
        if g1.Execute().Running? {
          if h.LoadImage? {
            StreamIsImagePayload(g1.Execute().value, ws[n..]);
          } else {
            StreamIsBatch(g1.Execute().value, ws[n..]);
          }
        }
      }
    }
  }

  /** The words of one whole command run it and leave the rest of the stream. */
  lemma WholeCommand(g0: GpuState, g1: GpuState, ws: seq<Word>, n: nat)
    requires g0.Valid() && g0.mode.Command? && 0 < n == g0.remaining <= |ws| && g0.cmd == []
    requires g1 == g0.(cmd := ws[..n], remaining := 0)
    ensures g1.regs.Valid() && g1.renderer.Valid() && |g1.cmd| == g1.handler.Length()
    ensures Stream(g0, ws) == if g1.Execute().Stopped? then g1.Execute() else Stream(g1.Execute().value, ws[n..])
  {
    hide GpuState.Execute, GpuState.Gp0, Stream;
    CollectWords(g0, ws[..n]);
    assert g0.cmd + ws[..n] == ws[..n];
    assert ws == ws[..n] + ws[n..];
    StreamSplit(g0, ws[..n], ws[n..]);
  }

  lemma {:induction false} StreamIsImagePayload(g: GpuState, ws: seq<Word>)
    requires g.Valid() && g.mode.ImageLoad?
    ensures Stream(g, ws) == ImagePayload(g, ws)
    decreases |ws|, if g.remaining == 0 then 1 else 0
  {
    if ws == [] {
    } else if g.remaining == 0 {
      if HandlerOf(ws[0] / 0x100_0000).Some? {
        var h := HandlerOf(ws[0] / 0x100_0000).value;
        var g0 := g.(handler := h, cmd := [], remaining := h.Length());
        assert g.Gp0(ws[0]) == g0.Gp0(ws[0]);
        StreamIsImagePayload(g0, ws);
      }
    } else if |ws| < g.remaining {
      SkipWords(g, ws);
    } else {
      var n := g.remaining;
      SkipWords(g, ws[..n]);
      assert ws == ws[..n] + ws[n..];
      StreamSplit(g, ws[..n], ws[n..]);
      StreamIsBatch(g.(remaining := 0, mode := Command), ws[n..]);
    }
  }

  /** An image load and its payload leave the parser ready for the next command exactly when
      the image has pixels. */
  lemma ImageLoadReturns(g: GpuState, command: seq<Word>, payload: seq<Word>)
    requires g.Valid() && g.AtBoundary()
    requires |command| == 3 && command[0] / 0x100_0000 == 0xa0
    requires |payload| == ImageWords(command[2])
    ensures var r := Stream(g, command + payload);
            && r.Running?
            && (r.value.AtBoundary() <==> command[2] % 0x1_0000 != 0 && command[2] / 0x1_0000 != 0)
            && (r.value.mode.ImageLoad? <==> !r.value.AtBoundary()) && r.value.remaining == 0
            && r.value.regs == g.regs && r.value.renderer == g.renderer
  {
    var g0 := g.(remaining := 3, handler := LoadImage, cmd := []);
    var g1 := g.(handler := LoadImage, cmd := command).Execute().value;
    assert Stream(g, command) == Running(g1) by {
      assert g.Gp0(command[0]) == g0.Gp0(command[0]);
      CollectWords(g0, command);
      assert g0.cmd + command == command;
    }
    StreamSplit(g, command, payload);
    if payload != [] {
      SkipWords(g1, payload);
    }
  }

  // ---- Any mixture of the two ports ----

  datatype PortOp = ToGp0(val: Word) | ToGp1(val: Word)

  function PortStep(g: GpuState, op: PortOp): (r: Outcome<GpuState>)
    requires g.Valid()
    ensures r.Running? ==> r.value.Valid()
  {
    match op
    case ToGp0(val) => g.Gp0(val)
    case ToGp1(val) => g.Gp1(val)
  }

  /** Any mixture of writes keeps the parser invariant: never more than nine of the twelve
      buffer slots in use, and the words of a command being collected always add up. */
  function Ports(g: GpuState, ops: seq<PortOp>): (r: Outcome<GpuState>)
    requires g.Valid()
    ensures r.Running? ==> r.value.Valid()
    decreases |ops|
  {
    if ops == [] then Running(g)
    else
      match PortStep(g, ops[0])
      case Stopped(why) => Stopped(why)
      case Running(g') => Ports(g', ops[1..])
  }

  // ---- What is drawn ----

  /** The vertices a complete command asks for: two triangles for a quad. */
  function Vertices(h: Handler, c: seq<Word>): seq<Vertex>
    requires |c| == h.Length()
  {
    match h
    case QuadMonoOpaque =>
      var color := ColorFromPacked(c[0]);
      QuadOf(At(c[1], color), At(c[2], color), At(c[3], color), At(c[4], color))
    case QuadTextureBlendOpaque =>
      var red := Color(255, 0, 0);
      QuadOf(At(c[1], red), At(c[3], red), At(c[5], red), At(c[7], red))
    case TriangleShadedOpaque =>
      [At(c[1], ColorFromPacked(c[0])), At(c[3], ColorFromPacked(c[2])), At(c[5], ColorFromPacked(c[4]))]
    case QuadShadedOpaque =>
      QuadOf(At(c[1], ColorFromPacked(c[0])), At(c[3], ColorFromPacked(c[2])),
             At(c[5], ColorFromPacked(c[4])), At(c[7], ColorFromPacked(c[6])))
    case _ => []
  }

  function At(packed: Word, color: Color): Vertex { Vertex(PositionFromPacked(packed), color) }

  function QuadOf(v1: Vertex, v2: Vertex, v3: Vertex, v4: Vertex): seq<Vertex>
  {
    [v1, v2, v3, v2, v3, v4]
  }

  lemma ExecuteShows(g: GpuState)
    requires g.regs.Valid() && g.renderer.Valid()
    requires |g.cmd| == g.handler.Length() && g.mode.Command? && g.remaining == 0
    ensures g.Execute().Running? ==>
            g.Execute().value.renderer.Shown() == g.renderer.Shown() + Vertices(g.handler, g.cmd)
  {
    match g.handler
    case QuadMonoOpaque =>
      var color := ColorFromPacked(g.cmd[0]);
      OpKeeps(g.renderer, Quad(g.VertexAt(1, color), g.VertexAt(2, color), g.VertexAt(3, color), g.VertexAt(4, color)));
    case QuadTextureBlendOpaque =>
      var red := Color(255, 0, 0);
      OpKeeps(g.renderer, Quad(g.VertexAt(1, red), g.VertexAt(3, red), g.VertexAt(5, red), g.VertexAt(7, red)));
    case TriangleShadedOpaque =>
      TriangleKeeps(g.renderer, g.VertexAt(1, ColorFromPacked(g.cmd[0])),
        g.VertexAt(3, ColorFromPacked(g.cmd[2])), g.VertexAt(5, ColorFromPacked(g.cmd[4])));
    case QuadShadedOpaque =>
      OpKeeps(g.renderer, Quad(g.VertexAt(1, ColorFromPacked(g.cmd[0])), g.VertexAt(3, ColorFromPacked(g.cmd[2])),
        g.VertexAt(5, ColorFromPacked(g.cmd[4])), g.VertexAt(7, ColorFromPacked(g.cmd[6]))));
    case DrawingOffset =>
      DrawShows(g.renderer);
      assert g.renderer.Shown() + [] == g.renderer.Shown();
    case _ =>
      assert g.renderer.Shown() + [] == g.renderer.Shown();
  }

  /** The vertices a stream of commands asks for, read off its words alone. */
  function Drawn(ws: seq<Word>): seq<Vertex>
    decreases |ws|, 1
  {
    if ws == [] || HandlerOf(ws[0] / 0x100_0000).None? then []
    else
      var h := HandlerOf(ws[0] / 0x100_0000).value;
      if |ws| < h.Length() then []
      else
        Vertices(h, ws[..h.Length()])
        + if h.LoadImage? then DrawnAfterImage(ImageWords(ws[2]), ws[3..]) else Drawn(ws[h.Length()..])
  }

  /** The same when the next `left` words belong to an image; an image without words swallows
      a command. */
  function DrawnAfterImage(left: nat, ws: seq<Word>): seq<Vertex>
    decreases |ws|, if left == 0 then 1 else 0
  {
    if ws == [] then []
    else if left == 0 then
      match HandlerOf(ws[0] / 0x100_0000)
      case None => []
      case Some(h) => DrawnAfterImage(h.Length(), ws)
    else if |ws| < left then []
    else Drawn(ws[left..])
  }

  lemma {:induction false} BatchShows(g: GpuState, ws: seq<Word>)
    requires g.Valid() && g.AtBoundary()
    ensures Batch(g, ws).Running? ==> Batch(g, ws).value.renderer.Shown() == g.renderer.Shown() + Drawn(ws)
    decreases |ws|, 1
  {
    hide GpuState.Valid, GpuState.Execute, RenderState.Shown, RenderState.Valid, Regs.Valid, ImageWords, HandlerOf,
         Vertices, Handler.Length;
    ShownPlusNothing(g.renderer);
    if ws != [] && HandlerOf(ws[0] / 0x100_0000).Some? {
      var h := HandlerOf(ws[0] / 0x100_0000).value;
      if |ws| >= h.Length() {
        var g1 := g.(handler := h, cmd := ws[..h.Length()]);
        CommandShows(g, g1, h, ws);
        if g1.Execute().Running? {
          var g2, rest := g1.Execute().value, ws[h.Length()..];
          if h.LoadImage? {
            ImagePayloadShows(g2, rest);
            Joined(g.renderer.Shown(), Vertices(h, g1.cmd), DrawnAfterImage(g2.remaining, rest));
          } else {
            BatchShows(g2, rest);
            Joined(g.renderer.Shown(), Vertices(h, g1.cmd), Drawn(rest));
          }
        }
      }
    }
  }

  lemma Joined(a: seq<Vertex>, b: seq<Vertex>, c: seq<Vertex>)
    ensures a + b + c == a + (b + c)
  {
  }

  /** One whole command at the head of a stream. */
  lemma CommandShows(g: GpuState, g1: GpuState, h: Handler, ws: seq<Word>)
    requires g.Valid() && g.AtBoundary() && |ws| >= h.Length()
    requires g1 == g.(handler := h, cmd := ws[..h.Length()])
    ensures g1.regs.Valid() && g1.renderer.Valid()
    ensures g1.Execute().Running? ==>
            g1.Execute().value.renderer.Shown() == g.renderer.Shown() + Vertices(h, g1.cmd)
    ensures h.LoadImage? ==>
            h.Length() == 3 && g1.Execute().Running? && g1.Execute().value.remaining == ImageWords(ws[2])
  {
    ExecuteShows(g1);
    hide Vertices, RenderState.Shown, RenderState.Valid, Regs.Valid, ImageWords;
  }

  lemma {:induction false} ImagePayloadShows(g: GpuState, ws: seq<Word>)
    requires g.Valid() && g.mode.ImageLoad?
    ensures ImagePayload(g, ws).Running? ==>
            ImagePayload(g, ws).value.renderer.Shown() == g.renderer.Shown() + DrawnAfterImage(g.remaining, ws)
    decreases |ws|, if g.remaining == 0 then 1 else 0
  {
    hide RenderState.Shown, RenderState.Valid;
    ShownPlusNothing(g.renderer);
    if ws == [] {
    } else if g.remaining == 0 {
      if HandlerOf(ws[0] / 0x100_0000).Some? {
        var h := HandlerOf(ws[0] / 0x100_0000).value;
        ImagePayloadShows(g.(handler := h, cmd := [], remaining := h.Length()), ws);
      }
    } else if |ws| >= g.remaining {
      BatchShows(g.(remaining := 0, mode := Command), ws[g.remaining..]);
    }
  }

  lemma ShownPlusNothing(r: RenderState)
    ensures r.Shown() + [] == r.Shown()
  {
  }

  /** A stream written to an idle GPU draws exactly the primitives its words ask for, in
      stream order. */
  lemma StreamDraws(g: GpuState, ws: seq<Word>)
    requires g.Valid() && g.AtBoundary()
    ensures Stream(g, ws).Running? ==> Stream(g, ws).value.renderer.Shown() == g.renderer.Shown() + Drawn(ws)
  {
    hide Stream, Batch, GpuState.Valid, RenderState.Shown, Drawn;
    StreamIsBatch(g, ws);
    BatchShows(g, ws);
  }

  // ---- Reset ----

  /** Two GPUs that no program can tell apart: they may differ in what they have drawn, and
      in the handler left over from a command that is finished. */
  predicate Twins(g: GpuState, t: GpuState)
  {
    && g.Valid() && t.Valid()
    && g.regs == t.regs && g.cmd == t.cmd && g.remaining == t.remaining && g.mode == t.mode
    && (g.mode.Command? && g.remaining > 0 ==> g.handler == t.handler)
  }

  /** From states `g` and `t`, both runs stop for the same reason, or both go on to twins
      having drawn the same new vertices. */
  ghost predicate SameFuture(g: GpuState, t: GpuState, g': Outcome<GpuState>, t': Outcome<GpuState>)
  {
    if g'.Stopped? then t' == g'
    else
      && t'.Running? && Twins(g'.value, t'.value)
      && exists drawn: seq<Vertex> ::
           && g'.value.renderer.Shown() == g.renderer.Shown() + drawn
           && t'.value.renderer.Shown() == t.renderer.Shown() + drawn
  }

  lemma SameFutureFrom(g: GpuState, t: GpuState, g': Outcome<GpuState>, t': Outcome<GpuState>, drawn: seq<Vertex>)
    requires g'.Running? && t'.Running? && Twins(g'.value, t'.value)
    requires g'.value.renderer.Shown() == g.renderer.Shown() + drawn
    requires t'.value.renderer.Shown() == t.renderer.Shown() + drawn
    ensures SameFuture(g, t, g', t')
  {
  }

  lemma TwinStep(g: GpuState, t: GpuState, op: PortOp)
    requires Twins(g, t)
    ensures SameFuture(g, t, PortStep(g, op), PortStep(t, op))
  {
    assert g.renderer.Shown() + [] == g.renderer.Shown();
    assert t.renderer.Shown() + [] == t.renderer.Shown();
    if op.ToGp0? {
      var val := op.val;
      if g.remaining > 0 {
        TwinAccept(g, t, val);
      } else if HandlerOf(val / 0x100_0000).Some? {
        var h := HandlerOf(val / 0x100_0000).value;
        TwinAccept(g.(remaining := h.Length(), handler := h, cmd := []),
                   t.(remaining := h.Length(), handler := h, cmd := []), val);
      }
    } else if g.Gp1(op.val).Running? {
      SameFutureFrom(g, t, g.Gp1(op.val), t.Gp1(op.val), []);
    }
  }

  lemma TwinAccept(g: GpuState, t: GpuState, val: Word)
    requires Twins(g, t) && g.remaining > 0
    ensures SameFuture(g, t, g.Accept(val), t.Accept(val))
  {
    assert g.renderer.Shown() + [] == g.renderer.Shown();
    assert t.renderer.Shown() + [] == t.renderer.Shown();
    if g.mode.Command? && g.remaining == 1 {
      var g1 := g.(remaining := 0, cmd := g.cmd + [val]);
      var t1 := t.(remaining := 0, cmd := t.cmd + [val]);
      ExecuteShows(g1);
      ExecuteShows(t1);
      assert Vertices(g1.handler, g1.cmd) == Vertices(t1.handler, t1.cmd);
      if g1.Execute().Running? {
        SameFutureFrom(g, t, g.Accept(val), t.Accept(val), Vertices(g1.handler, g1.cmd));
      }
    } else {
      SameFutureFrom(g, t, g.Accept(val), t.Accept(val), []);
    }
  }

  lemma SameFutureChain(g: GpuState, t: GpuState, g1: GpuState, t1: GpuState,
                        g2: Outcome<GpuState>, t2: Outcome<GpuState>)
    requires SameFuture(g, t, Running(g1), Running(t1)) && SameFuture(g1, t1, g2, t2)
    ensures SameFuture(g, t, g2, t2)
  {
    if g2.Running? {
      var d1: seq<Vertex> :|
        && g1.renderer.Shown() == g.renderer.Shown() + d1
        && t1.renderer.Shown() == t.renderer.Shown() + d1;
      var d2: seq<Vertex> :|
        && g2.value.renderer.Shown() == g1.renderer.Shown() + d2
        && t2.value.renderer.Shown() == t1.renderer.Shown() + d2;
      assert g.renderer.Shown() + d1 + d2 == g.renderer.Shown() + (d1 + d2);
      assert t.renderer.Shown() + d1 + d2 == t.renderer.Shown() + (d1 + d2);
      SameFutureFrom(g, t, g2, t2, d1 + d2);
    }
  }

  lemma {:induction false} TwinRun(g: GpuState, t: GpuState, ops: seq<PortOp>)
    requires Twins(g, t)
    ensures SameFuture(g, t, Ports(g, ops), Ports(t, ops))
    decreases |ops|
  {
    if ops == [] {
      SameFutureFrom(g, t, Running(g), Running(t), []);
    } else {
      TwinStep(g, t, ops[0]);
      var g1, t1 := PortStep(g, ops[0]), PortStep(t, ops[0]);
      if g1.Running? {
        TwinRun(g1.value, t1.value, ops[1..]);
        SameFutureChain(g, t, g1.value, t1.value, Ports(g, ops), Ports(t, ops));
      }
    }
  }

  /** A reset forgets the past: whatever two GPUs went through before, even in the middle of
      a command or an image, after a reset both read status 0x1cc02000, start a new command
      with the next word, and answer every later sequence of writes alike. */
  lemma ResetForgets(g: GpuState, t: GpuState, reset: Word, ops: seq<PortOp>)
    requires g.Valid() && t.Valid() && reset < 0x100_0000
    ensures g.Gp1(reset).Running? && t.Gp1(reset).Running?
    ensures g.Gp1(reset).value.regs.Status() == 0x1cc0_2000
    ensures g.Gp1(reset).value.AtBoundary()
    ensures g.Gp1(reset).value.renderer == g.renderer
    ensures SameFuture(g, t, Ports(g, [ToGp1(reset)] + ops), Ports(t, [ToGp1(reset)] + ops))
  {
    var g1, t1 := g.Gp1(reset).value, t.Gp1(reset).value;
    assert Twins(g1, t1);
    TwinRun(g1, t1, ops);
    assert ([ToGp1(reset)] + ops)[1..] == ops;
    assert Ports(g, [ToGp1(reset)] + ops) == Ports(g1, ops);
    assert Ports(t, [ToGp1(reset)] + ops) == Ports(t1, ops);
  }
}
