/** The vertex batcher: a fixed buffer of vertices, drawn as a list of triangles. */
module RendererModel {
  import opened Words

  const VERTEX_BUFFER_LEN: nat := 16 * 1024

  datatype Position = Position(x: int, y: int)

  /** Each component stands for that many 255ths. */
  datatype Color = Color(r: Byte, g: Byte, b: Byte)

  datatype Vertex = Vertex(pos: Position, color: Color)

  function PositionFromPacked(val: Word): Position
  {
    Position(Signed16(val % 0x1_0000), Signed16(val / 0x1_0000))
  }

  function ColorFromPacked(val: Word): Color
  {
    Color(val % 0x100, val / 0x100 % 0x100, val / 0x1_0000 % 0x100)
  }

  /** The vertices waiting in the buffer, and every batch handed to the GPU so far. */
  datatype RenderState = RenderState(pending: seq<Vertex>, batches: seq<seq<Vertex>>)
  {
    predicate Valid()
    {
      && IsBatch(pending)
      && forall i :: 0 <= i < |batches| ==> IsBatch(batches[i])
    }

    /** Everything pushed so far, in the order it reaches the screen. */
    function Shown(): seq<Vertex> { Flatten(batches) + pending }

    function Draw(): RenderState { RenderState([], batches + [pending]) }

    function PushVertex(v: Vertex): RenderState
    {
      var s := if |pending| + 1 > VERTEX_BUFFER_LEN then Draw() else this;
      s.(pending := s.pending + [v])
    }

    function PushTriangle(v1: Vertex, v2: Vertex, v3: Vertex): RenderState
    {
      var s := if |pending| + 3 > VERTEX_BUFFER_LEN then Draw() else this;
      s.PushVertex(v1).PushVertex(v2).PushVertex(v3)
    }

    function PushQuad(v1: Vertex, v2: Vertex, v3: Vertex, v4: Vertex): RenderState
    {
      var s := if |pending| + 4 > VERTEX_BUFFER_LEN then Draw() else this;
      s.PushTriangle(v1, v2, v3).PushTriangle(v2, v3, v4)
    }
  }

  /** Whole triangles, and at most 5461 of them. */
  predicate IsBatch(vs: seq<Vertex>) { |vs| % 3 == 0 && |vs| <= 16383 }

  function Flatten(bs: seq<seq<Vertex>>): seq<Vertex>
  {
    if bs == [] then [] else Flatten(bs[..|bs| - 1]) + bs[|bs| - 1]
  }

  // ---- Conservation ----

  datatype RenderOp =
    | Triangle(v1: Vertex, v2: Vertex, v3: Vertex)
    | Quad(v1: Vertex, v2: Vertex, v3: Vertex, v4: Vertex)
    | Display
  {
    function Apply(s: RenderState): RenderState
    {
      match this
      case Triangle(v1, v2, v3) => s.PushTriangle(v1, v2, v3)
      case Quad(v1, v2, v3, v4) => s.PushQuad(v1, v2, v3, v4)
      case Display => s.Draw()
    }

    /** The triangles the caller asked for. */
    function Requested(): seq<Vertex>
    {
      match this
      case Triangle(v1, v2, v3) => [v1, v2, v3]
      case Quad(v1, v2, v3, v4) => [v1, v2, v3, v2, v3, v4]
      case Display => []
    }
  }

  function ApplyAll(s: RenderState, ops: seq<RenderOp>): RenderState
    decreases |ops|
  {
    if ops == [] then s else ApplyAll(ops[0].Apply(s), ops[1..])
  }

  function RequestedAll(ops: seq<RenderOp>): seq<Vertex>
  {
    if ops == [] then [] else ops[0].Requested() + RequestedAll(ops[1..])
  }

  lemma DrawShows(s: RenderState)
    ensures s.Draw().Shown() == s.Shown()
  {
    assert s.Draw().batches[..|s.batches|] == s.batches;
  }

  lemma TriangleKeeps(s: RenderState, v1: Vertex, v2: Vertex, v3: Vertex)
    requires s.Valid()
    ensures var s' := s.PushTriangle(v1, v2, v3);
            && s'.Valid()
            && s'.Shown() == s.Shown() + [v1, v2, v3]
            && s.batches <= s'.batches
            && (|s.pending| + 3 <= VERTEX_BUFFER_LEN ==> s'.batches == s.batches)
  {
    DrawShows(s);
    var s0 := if |s.pending| + 3 > VERTEX_BUFFER_LEN then s.Draw() else s;
    assert s.PushTriangle(v1, v2, v3) == s0.(pending := s0.pending + [v1, v2, v3]) by {
      assert s0.pending + [v1] + [v2] + [v3] == s0.pending + [v1, v2, v3];
    }
  }

  lemma OpKeeps(s: RenderState, op: RenderOp)
    requires s.Valid()
    ensures op.Apply(s).Valid()
    ensures op.Apply(s).Shown() == s.Shown() + op.Requested()
    ensures s.batches <= op.Apply(s).batches
  {
    DrawShows(s);
    match op
    case Triangle(v1, v2, v3) => TriangleKeeps(s, v1, v2, v3);
    case Quad(v1, v2, v3, v4) => QuadKeeps(s, v1, v2, v3, v4);
    case Display =>
  }

  lemma QuadKeeps(s: RenderState, v1: Vertex, v2: Vertex, v3: Vertex, v4: Vertex)
    requires s.Valid()
    ensures var s' := s.PushQuad(v1, v2, v3, v4);
            s'.Valid() && s'.Shown() == s.Shown() + [v1, v2, v3, v2, v3, v4] && s.batches <= s'.batches
  {
    DrawShows(s);
    var s0 := if |s.pending| + 4 > VERTEX_BUFFER_LEN then s.Draw() else s;
    assert s0.Valid() && s0.Shown() == s.Shown() && s.batches <= s0.batches;
    hide RenderState.Valid, RenderState.Shown, RenderState.PushTriangle, RenderState.Draw;
    TriangleKeeps(s0, v1, v2, v3);
    TriangleKeeps(s0.PushTriangle(v1, v2, v3), v2, v3, v4);
    assert s.Shown() + [v1, v2, v3] + [v2, v3, v4] == s.Shown() + [v1, v2, v3, v2, v3, v4];
  }

  /** No triangle is split, lost, duplicated or reordered: the drawn batches followed by the
      buffer are exactly the requested triangles, every batch holds whole triangles, and a
      drawn batch stays drawn. */
  lemma {:induction false} Conservation(s: RenderState, ops: seq<RenderOp>)
    requires s.Valid()
    ensures var s' := ApplyAll(s, ops);
            && s'.Valid()
            && s'.Shown() == s.Shown() + RequestedAll(ops)
            && s.batches <= s'.batches
    decreases |ops|
  {
    hide RenderOp.Apply, RenderOp.Requested, RenderState.Valid, RenderState.Shown;
    if ops != [] {
      OpKeeps(s, ops[0]);
      Conservation(ops[0].Apply(s), ops[1..]);
    }
  }

  /** The quad's own guard is weaker than what it pushes: with exactly four free slots the
      two halves of one quad go to different batches, each half whole. */
  lemma QuadAcrossBatches(s: RenderState, v1: Vertex, v2: Vertex, v3: Vertex, v4: Vertex)
    requires s.Valid()
    ensures var s' := s.PushQuad(v1, v2, v3, v4);
            s'.batches == s.batches + [s.pending + [v1, v2, v3]] && s'.pending == [v2, v3, v4]
            <==> |s.pending| == 16380
  {
    var s0 := if |s.pending| + 4 > VERTEX_BUFFER_LEN then s.Draw() else s;
    var s1 := s0.PushTriangle(v1, v2, v3);
    assert s0.pending + [v1] + [v2] + [v3] == s0.pending + [v1, v2, v3];
    assert s1 == s0.(pending := s0.pending + [v1, v2, v3]);
    var t := if |s1.pending| + 3 > VERTEX_BUFFER_LEN then s1.Draw() else s1;
    assert t.pending + [v2] + [v3] + [v4] == t.pending + [v2, v3, v4];
    assert s.PushQuad(v1, v2, v3, v4) == t.(pending := t.pending + [v2, v3, v4]);
    if |s.pending| + 4 > VERTEX_BUFFER_LEN {
      assert s.PushQuad(v1, v2, v3, v4).pending == [v1, v2, v3, v2, v3, v4];
    }
  }

  // ---- The renderer object ----

  class Renderer {
    const vertexBuf: array<Vertex>
    var verticesNum: nat
    ghost var drawn: seq<seq<Vertex>>

    ghost predicate Valid()
      reads this, vertexBuf
    {
      vertexBuf.Length == VERTEX_BUFFER_LEN && verticesNum <= VERTEX_BUFFER_LEN && State().Valid()
    }

    ghost function State(): RenderState
      reads this, vertexBuf
    {
      RenderState(if verticesNum <= vertexBuf.Length then vertexBuf[..verticesNum] else [], drawn)
    }

    constructor ()
      ensures Valid() && fresh(vertexBuf)
      ensures State() == RenderState([], [])
    {
      vertexBuf := new Vertex[VERTEX_BUFFER_LEN];
      verticesNum := 0;
      drawn := [];
    }

    method PushVertex(v: Vertex)
      requires vertexBuf.Length == VERTEX_BUFFER_LEN && verticesNum <= VERTEX_BUFFER_LEN
      modifies this, vertexBuf
      ensures verticesNum <= VERTEX_BUFFER_LEN
      ensures State() == old(State()).PushVertex(v)
    {
      if verticesNum + 1 > VERTEX_BUFFER_LEN {
        Draw();
      }
      vertexBuf[verticesNum] := v;
      verticesNum := verticesNum + 1;
    }

    method PushTriangle(v1: Vertex, v2: Vertex, v3: Vertex)
      requires Valid()
      modifies this, vertexBuf
      ensures Valid()
      ensures State() == old(State()).PushTriangle(v1, v2, v3)
      ensures State().Shown() == old(State().Shown()) + [v1, v2, v3]
    {
      TriangleKeeps(State(), v1, v2, v3);
      if verticesNum + 3 > VERTEX_BUFFER_LEN {
        Draw();
      }
      PushVertex(v1);
      PushVertex(v2);
      PushVertex(v3);
    }

    method PushQuad(v1: Vertex, v2: Vertex, v3: Vertex, v4: Vertex)
      requires Valid()
      modifies this, vertexBuf
      ensures Valid()
      ensures State() == old(State()).PushQuad(v1, v2, v3, v4)
      ensures State().Shown() == old(State().Shown()) + [v1, v2, v3, v2, v3, v4]
    {
      OpKeeps(State(), Quad(v1, v2, v3, v4));
      if verticesNum + 4 > VERTEX_BUFFER_LEN {
        Draw();
      }
      PushTriangle(v1, v2, v3);
      PushTriangle(v2, v3, v4);
    }

    method Draw()
      requires verticesNum <= vertexBuf.Length
      modifies this
      ensures verticesNum == 0
      ensures State() == old(State()).Draw()
    {
      drawn := drawn + [vertexBuf[..verticesNum]];
      verticesNum := 0;
    }

    method Display()
      requires Valid()
      modifies this
      ensures Valid()
      ensures State() == old(State()).Draw()
      ensures State().Shown() == old(State().Shown())
    {
      DrawShows(State());
      Draw();
    }
  }
}
