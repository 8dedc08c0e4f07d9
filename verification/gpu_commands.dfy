/** What each GPU command does, stated from the fields its words are put together from. */
module GpuCommands {
  import opened Words
  import opened Outcomes
  import opened RendererModel
  import opened GpuModel
  import opened GpuStream

  // ---- Words from their fields ----

  /** An opcode over a 24-bit colour, red lowest. */
  function ColorWord(opcode: Byte, color: Color): Word
  {
    opcode * 0x100_0000 + color.b * 0x1_0000 + color.g * 0x100 + color.r
  }

  /** Two 16-bit coordinates in two's complement, x lowest. */
  function PosWord(p: Position): Word { p.x % 0x1_0000 + p.y % 0x1_0000 * 0x1_0000 }

  predicate OnScreen(p: Position) { -0x8000 <= p.x < 0x8000 && -0x8000 <= p.y < 0x8000 }

  lemma ColorUnpacks(opcode: Byte, color: Color)
    ensures ColorFromPacked(ColorWord(opcode, color)) == color
    ensures ColorWord(opcode, color) / 0x100_0000 == opcode
  {
    var w: int := ColorWord(opcode, color);
    ModUnique(w, 0x100_0000, opcode, color.b * 0x1_0000 + color.g * 0x100 + color.r);
    ModUnique(w, 0x1_0000, opcode * 0x100 + color.b, color.g * 0x100 + color.r);
    ModUnique(w, 0x100, opcode * 0x1_0000 + color.b * 0x100 + color.g, color.r);
    ModUnique(opcode * 0x100 + color.b, 0x100, opcode, color.b);
    ModUnique(opcode * 0x1_0000 + color.b * 0x100 + color.g, 0x100, opcode * 0x100 + color.b, color.g);
  }

  lemma PositionUnpacks(p: Position)
    requires OnScreen(p)
    ensures PositionFromPacked(PosWord(p)) == p
  {
    var x: int, y: int := p.x % 0x1_0000, p.y % 0x1_0000;
    ModUnique(PosWord(p), 0x1_0000, y, x);
    Halved(p.x);
    Halved(p.y);
    hide Signed16;
  }

  lemma Halved(x: int)
    requires -0x8000 <= x < 0x8000
    ensures Signed16(x % 0x1_0000) == x
  {
  }

  // ---- Whole commands ----

  /** An idle GPU runs a whole command as soon as its last word has arrived. */
  lemma WholeCommandRuns(g: GpuState, ws: seq<Word>, h: Handler)
    requires g.Valid() && g.AtBoundary() && |ws| == h.Length() && HandlerOf(ws[0] / 0x100_0000) == Some(h)
    ensures var g1 := g.(handler := h, cmd := ws);
            g1.regs.Valid() && g1.renderer.Valid() && Stream(g, ws) == g1.Execute()
  {
    hide HandlerOf, GpuState.Execute, Handler.Length, Stream;
    var n := h.Length();
    var g0 := g.(remaining := n, handler := h, cmd := []);
    FirstWord(g, ws, h);
    CollectWords(g0, ws);
    assert g0.cmd + ws == ws;
  }

  lemma FirstWord(g: GpuState, ws: seq<Word>, h: Handler)
    requires g.Valid() && g.AtBoundary() && |ws| == h.Length() && HandlerOf(ws[0] / 0x100_0000) == Some(h)
    ensures var g0 := g.(remaining := h.Length(), handler := h, cmd := []);
            g0.Valid() && g0.mode.Command? && g0.remaining == |ws| && Stream(g, ws) == Stream(g0, ws)
  {
    var g0 := g.(remaining := h.Length(), handler := h, cmd := []);
    hide HandlerOf, GpuState.Execute, Handler.Length, GpuState.Accept;
    assert g.Gp0(ws[0]) == g0.Gp0(ws[0]);
  }

  /** A command has run on an idle GPU: it is idle again, and has drawn exactly these vertices. */
  ghost predicate Draws(g: GpuState, ws: seq<Word>, vs: seq<Vertex>)
    requires g.Valid()
  {
    var r := Stream(g, ws);
    && r.Running? && r.value.AtBoundary() && r.value.regs == g.regs
    && r.value.renderer.Shown() == g.renderer.Shown() + vs
  }

  lemma CommandDraws(g: GpuState, ws: seq<Word>, h: Handler)
    requires g.Valid() && g.AtBoundary() && |ws| == h.Length() && HandlerOf(ws[0] / 0x100_0000) == Some(h)
    requires h in {Nop, ClearCache, StoreImage, QuadMonoOpaque, QuadTextureBlendOpaque, TriangleShadedOpaque,
                   QuadShadedOpaque}
    ensures Draws(g, ws, Vertices(h, ws))
  {
    hide HandlerOf, Handler.Length, Stream, Vertices, RenderState.Shown, RenderState.Valid, Regs.Valid;
    WholeCommandRuns(g, ws, h);
    var g1 := g.(handler := h, cmd := ws);
    ExecuteShows(g1);
    assert g1.Execute().Running? && g1.Execute().value.regs == g.regs;
  }

  /** The four drawing commands: where each takes its corners and colours from, in which order,
      and that the textured one is drawn red. The words between its corners are ignored. */
  lemma MonoQuadDraws(g: GpuState, c: Color, p: seq<Position>)
    requires g.Valid() && g.AtBoundary() && |p| == 4 && forall i :: 0 <= i < 4 ==> OnScreen(p[i])
    ensures Draws(g, [ColorWord(0x28, c), PosWord(p[0]), PosWord(p[1]), PosWord(p[2]), PosWord(p[3])],
                  [Vertex(p[0], c), Vertex(p[1], c), Vertex(p[2], c),
                   Vertex(p[1], c), Vertex(p[2], c), Vertex(p[3], c)])
  {
    hide Draws, ColorWord, PosWord, ColorFromPacked, PositionFromPacked, GpuState.Valid, OnScreen;
    ColorUnpacks(0x28, c);
    forall i | 0 <= i < 4 ensures PositionFromPacked(PosWord(p[i])) == p[i] { PositionUnpacks(p[i]); }
    CommandDraws(g, [ColorWord(0x28, c), PosWord(p[0]), PosWord(p[1]), PosWord(p[2]), PosWord(p[3])], QuadMonoOpaque);
  }

  lemma TexturedQuadDraws(g: GpuState, c: Color, p: seq<Position>, t: seq<Word>)
    requires g.Valid() && g.AtBoundary() && |p| == 4 && |t| == 4 && forall i :: 0 <= i < 4 ==> OnScreen(p[i])
    ensures var red := Color(255, 0, 0);
            Draws(g, [ColorWord(0x2c, c), PosWord(p[0]), t[0], PosWord(p[1]), t[1],
                      PosWord(p[2]), t[2], PosWord(p[3]), t[3]],
                  [Vertex(p[0], red), Vertex(p[1], red), Vertex(p[2], red),
                   Vertex(p[1], red), Vertex(p[2], red), Vertex(p[3], red)])
  {
    hide Draws, ColorWord, PosWord, ColorFromPacked, PositionFromPacked, GpuState.Valid, OnScreen;
    ColorUnpacks(0x2c, c);
    forall i | 0 <= i < 4 ensures PositionFromPacked(PosWord(p[i])) == p[i] { PositionUnpacks(p[i]); }
    CommandDraws(g, [ColorWord(0x2c, c), PosWord(p[0]), t[0], PosWord(p[1]), t[1],
                     PosWord(p[2]), t[2], PosWord(p[3]), t[3]],
                 QuadTextureBlendOpaque);
  }

  lemma ShadedTriangleDraws(g: GpuState, c: seq<Color>, p: seq<Position>, x: Byte, y: Byte)
    requires g.Valid() && g.AtBoundary() && |p| == 3 && |c| == 3 && forall i :: 0 <= i < 3 ==> OnScreen(p[i])
    ensures Draws(g, [ColorWord(0x30, c[0]), PosWord(p[0]), ColorWord(x, c[1]), PosWord(p[1]),
                      ColorWord(y, c[2]), PosWord(p[2])],
                  [Vertex(p[0], c[0]), Vertex(p[1], c[1]), Vertex(p[2], c[2])])
  {
    hide Draws, ColorWord, PosWord, ColorFromPacked, PositionFromPacked, GpuState.Valid, OnScreen;
    ColorUnpacks(0x30, c[0]);
    ColorUnpacks(x, c[1]);
    ColorUnpacks(y, c[2]);
    forall i | 0 <= i < 3 ensures PositionFromPacked(PosWord(p[i])) == p[i] { PositionUnpacks(p[i]); }
    CommandDraws(g, [ColorWord(0x30, c[0]), PosWord(p[0]), ColorWord(x, c[1]), PosWord(p[1]),
                     ColorWord(y, c[2]), PosWord(p[2])], TriangleShadedOpaque);
  }

  lemma ShadedQuadDraws(g: GpuState, c: seq<Color>, p: seq<Position>, x: Byte, y: Byte, z: Byte)
    requires g.Valid() && g.AtBoundary() && |p| == 4 && |c| == 4 && forall i :: 0 <= i < 4 ==> OnScreen(p[i])
    ensures Draws(g, [ColorWord(0x38, c[0]), PosWord(p[0]), ColorWord(x, c[1]), PosWord(p[1]),
                      ColorWord(y, c[2]), PosWord(p[2]), ColorWord(z, c[3]), PosWord(p[3])],
                  [Vertex(p[0], c[0]), Vertex(p[1], c[1]), Vertex(p[2], c[2]),
                   Vertex(p[1], c[1]), Vertex(p[2], c[2]), Vertex(p[3], c[3])])
  {
    hide Draws, ColorWord, PosWord, ColorFromPacked, PositionFromPacked, GpuState.Valid, OnScreen;
    ColorUnpacks(0x38, c[0]);
    ColorUnpacks(x, c[1]);
    ColorUnpacks(y, c[2]);
    ColorUnpacks(z, c[3]);
    forall i | 0 <= i < 4 ensures PositionFromPacked(PosWord(p[i])) == p[i] { PositionUnpacks(p[i]); }
    CommandDraws(g, [ColorWord(0x38, c[0]), PosWord(p[0]), ColorWord(x, c[1]), PosWord(p[1]),
                     ColorWord(y, c[2]), PosWord(p[2]), ColorWord(z, c[3]), PosWord(p[3])], QuadShadedOpaque);
  }

  /** Opcodes 0x00 and 0x01 take one word and do nothing; 0xc0 takes three and does nothing. */
  lemma IdleCommands(g: GpuState, w: Word, x: Word, y: Word)
    requires g.Valid() && g.AtBoundary()
    ensures w / 0x100_0000 in {0x00, 0x01} ==> Draws(g, [w], [])
    ensures w / 0x100_0000 == 0xc0 ==> Draws(g, [w, x, y], [])
  {
    hide Draws, GpuState.Valid;
    if w / 0x100_0000 == 0x00 { CommandDraws(g, [w], Nop); }
    if w / 0x100_0000 == 0x01 { CommandDraws(g, [w], ClearCache); }
    if w / 0x100_0000 == 0xc0 { CommandDraws(g, [w, x, y], StoreImage); }
  }

  /** The opcodes an idle GPU accepts, and that it panics at every other. */
  lemma OpcodesAccepted(g: GpuState, val: Word)
    requires g.Valid() && g.AtBoundary()
    ensures g.Gp0(val).Running? <==>
            || val / 0x100_0000 in {0x00, 0x01, 0x28, 0x2c, 0x30, 0x38, 0xa0, 0xc0, 0xe2, 0xe3, 0xe4, 0xe5, 0xe6}
            || (val / 0x100_0000 == 0xe1 && val / 0x80 % 4 != 3)
  {
    hide RenderState.Valid, RenderState.Draw, Regs.Valid;
    assert ([] + [val])[0] == val;
  }

  // ---- Image loads ----

  /** How long an image load keeps the parser busy: with `w` by `h` pixels, two to a word, it is
      still taking pixels after `p` words as long as these hold fewer, and it is ready for the
      next command as soon as they hold all, with at most one to spare. */
  lemma ImageTakes(g: GpuState, command: seq<Word>, payload: seq<Word>)
    requires g.Valid() && g.AtBoundary() && |command| == 3 && command[0] / 0x100_0000 == 0xa0
    ensures var pixels := (command[2] % 0x1_0000) * (command[2] / 0x1_0000);
            var r := Stream(g, command + payload);
            && (2 * |payload| < pixels ==> r.Running? && r.value.mode.ImageLoad? && r.value.remaining > 0)
            && (pixels > 0 && pixels <= 2 * |payload| <= pixels + 1 ==> r.Running? && r.value.AtBoundary())
            && (2 * |payload| <= pixels + 1 ==>
                  r.Running? && r.value.regs == g.regs && r.value.renderer == g.renderer)
  {
    hide Stream, ImageWords, GpuState.Valid, GpuState.AtBoundary;
    ImageStarts(g, command);
    StreamSplit(g, command, payload);
    var g1 := Stream(g, command).value;
    if |payload| <= g1.remaining { PayloadTaken(g1, payload); }
  }

  lemma PayloadTaken(g: GpuState, payload: seq<Word>)
    requires g.Valid() && g.mode.ImageLoad? && |payload| <= g.remaining
    ensures var r := Stream(g, payload);
            && r.Running? && r.value.regs == g.regs && r.value.renderer == g.renderer
            && (|payload| < g.remaining ==> r.value.mode.ImageLoad? && r.value.remaining > 0)
            && (|payload| == g.remaining > 0 ==> r.value.AtBoundary())
  {
    hide Stream, GpuState.Valid;
    if payload == [] { EmptyStream(g); } else { SkipWords(g, payload); }
  }

  lemma ImageStarts(g: GpuState, command: seq<Word>)
    requires g.Valid() && g.AtBoundary() && |command| == 3 && command[0] / 0x100_0000 == 0xa0
    ensures var r := Stream(g, command);
            && r.Running? && r.value.mode.ImageLoad? && r.value.remaining == ImageWords(command[2])
            && r.value.regs == g.regs && r.value.renderer == g.renderer
  {
    hide Stream, ImageWords, RenderState.Valid;
    WholeCommandRuns(g, command, LoadImage);
  }

  lemma EmptyStream(g: GpuState)
    requires g.Valid()
    ensures Stream(g, []) == Running(g)
  {
  }

  // ---- Settings ----

  function SettingWord(opcode: Byte, low: nat): Word
    requires low < 0x100_0000
  {
    opcode * 0x100_0000 + low
  }

  /** The one-word settings: each field comes from its own bits and goes to its own register. */
  lemma WindowIsSet(g: GpuState, xm: nat, ym: nat, xo: nat, yo: nat)
    requires g.Valid() && g.AtBoundary() && xm < 0x20 && ym < 0x20 && xo < 0x20 && yo < 0x20
    ensures var r := g.Gp0(SettingWord(0xe2, yo * 0x8000 + xo * 0x400 + ym * 0x20 + xm));
            r.Running? && r.value.AtBoundary() && r.value.renderer == g.renderer
            && r.value.regs == g.regs.(textureWindow := TextureWindowRegs(xm, ym, xo, yo))
  {
    var low := yo * 0x8000 + xo * 0x400 + ym * 0x20 + xm;
    var w: int := SettingWord(0xe2, low);
    ModUnique(w, 0x100_0000, 0xe2, low);
    ModUnique(w, 0x20, 0xe2 * 0x8_0000 + yo * 0x400 + xo * 0x20 + ym, xm);
    ModUnique(w, 0x400, 0xe2 * 0x4000 + yo * 0x20 + xo, ym * 0x20 + xm);
    ModUnique(w, 0x8000, 0xe2 * 0x200 + yo, xo * 0x400 + ym * 0x20 + xm);
    ModUnique(w / 0x20, 0x20, 0xe2 * 0x4000 + yo * 0x20 + xo, ym);
    ModUnique(w / 0x400, 0x20, 0xe2 * 0x200 + yo, xo);
    ModUnique(w / 0x8000, 0x20, 0xe2 * 0x10, yo);
    assert TextureWindowFrom(w) == TextureWindowRegs(xm, ym, xo, yo);
    hide TextureWindowFrom, SettingWord;
    SettingRuns(g, w, TextureWindow);
  }

  /** A setting is run on the word that carries it. */
  lemma SettingRuns(g: GpuState, val: Word, h: Handler)
    requires g.Valid() && g.AtBoundary() && HandlerOf(val / 0x100_0000) == Some(h) && h.Length() == 1
    ensures var g1 := g.(handler := h, cmd := [val]);
            g1.regs.Valid() && g1.renderer.Valid() && g.Gp0(val) == g1.Execute() && g1.cmd[0] == val
  {
    hide GpuState.Gp0, GpuState.Execute, HandlerOf, Handler.Length;
    WholeCommandRuns(g, [val], h);
    StreamOne(g, val);
  }

  /** Five one-bit fields, lowest first. */
  datatype Five = Five(a: nat, b: nat, c: nat, d: nat, e: nat)
  {
    predicate Valid() { a < 2 && b < 2 && c < 2 && d < 2 && e < 2 }

    function Bits(): nat { a + 2 * b + 4 * c + 8 * d + 16 * e }
  }

  /** The draw mode, all nine fields. Texture depth 3 is the only value that panics. */
  lemma DrawModeIsSet(g: GpuState, px: nat, py: nat, semi: nat, depth: nat, f: Five, high: nat)
    requires g.Valid() && g.AtBoundary() && px < 0x10 && py < 2 && semi < 4 && depth < 4 && f.Valid() && high < 0x400
    ensures var flags := f.Bits() + 0x20 * high;
            var r := g.Gp0(SettingWord(0xe1, flags * 0x200 + depth * 0x80 + semi * 0x20 + py * 0x10 + px));
            if depth == 3 then r == Stopped(Panic)
            else
              && r.Running? && r.value.AtBoundary() && r.value.renderer == g.renderer
              && r.value.regs == g.regs.(drawMode := DrawModeRegs(
                   px, py, semi, if depth == 0 then T4Bit else if depth == 1 then T8Bit else T15Bit,
                   f.a == 1, f.b == 1, f.c == 1, f.d == 1, f.e == 1))
  {
    var flags := f.Bits() + 0x20 * high;
    var low24 := flags * 0x200 + depth * 0x80 + semi * 0x20 + py * 0x10 + px;
    var w: int := SettingWord(0xe1, low24);
    DrawModeFields(w, 0xe1 * 0x8000 + flags, depth, semi, py, px);
    FlagFields(w, 0xe1 * 0x400 + high, f);
    ModUnique(w, 0x100_0000, 0xe1, low24);
    hide SettingWord;
    SettingRuns(g, w, DrawMode);
  }

  lemma DrawModeFields(w: Word, flags: nat, depth: nat, semi: nat, py: nat, px: nat)
    requires px < 0x10 && py < 2 && semi < 4 && depth < 4
    requires w == flags * 0x200 + depth * 0x80 + semi * 0x20 + py * 0x10 + px
    ensures w % 16 == px && w / 0x10 % 2 == py && w / 0x20 % 4 == semi && w / 0x80 % 4 == depth && w / 0x200 == flags
  {
    ModUnique(w, 0x10, flags * 0x20 + depth * 8 + semi * 2 + py, px);
    ModUnique(w / 0x10, 2, flags * 0x10 + depth * 4 + semi, py);
    ModUnique(w, 0x20, flags * 0x10 + depth * 4 + semi, py * 0x10 + px);
    ModUnique(w / 0x20, 4, flags * 4 + depth, semi);
    ModUnique(w, 0x80, flags * 4 + depth, semi * 0x20 + py * 0x10 + px);
    ModUnique(w / 0x80, 4, flags, depth);
    ModUnique(w, 0x200, flags, depth * 0x80 + semi * 0x20 + py * 0x10 + px);
  }

  lemma FlagFields(w: Word, high: nat, f: Five)
    requires f.Valid() && w / 0x200 == f.Bits() + 0x20 * high
    ensures w / 0x200 % 2 == f.a && w / 0x400 % 2 == f.b && w / 0x800 % 2 == f.c
    ensures w / 0x1000 % 2 == f.d && w / 0x2000 % 2 == f.e
  {
    var x: int := w / 0x200;
    DivDiv(w, 0x200, 2);
    DivDiv(w, 0x200, 4);
    DivDiv(w, 0x200, 8);
    DivDiv(w, 0x200, 0x10);
    ModUnique(x, 2, f.b + 2 * f.c + 4 * f.d + 8 * f.e + 0x10 * high, f.a);
    ModUnique(x, 4, f.c + 2 * f.d + 4 * f.e + 8 * high, f.a + 2 * f.b);
    ModUnique(x, 8, f.d + 2 * f.e + 4 * high, f.a + 2 * f.b + 4 * f.c);
    ModUnique(x, 0x10, f.e + 2 * high, f.a + 2 * f.b + 4 * f.c + 8 * f.d);
    ModUnique(x / 2, 2, f.c + 2 * f.d + 4 * f.e + 8 * high, f.b);
    ModUnique(x / 4, 2, f.d + 2 * f.e + 4 * high, f.c);
    ModUnique(x / 8, 2, f.e + 2 * high, f.d);
    ModUnique(x / 0x10, 2, high, f.e);
  }

  /** The two corners of the drawing area, ten bits a coordinate. */
  lemma AreaIsSet(g: GpuState, x: nat, y: nat)
    requires g.Valid() && g.AtBoundary() && x < 0x400 && y < 0x400
    ensures var r := g.Gp0(SettingWord(0xe3, y * 0x400 + x));
            r.Running? && r.value.AtBoundary() && r.value.renderer == g.renderer
            && r.value.regs == g.regs.(drawingAreaTopLeft := Corner(x, y))
    ensures var r := g.Gp0(SettingWord(0xe4, y * 0x400 + x));
            r.Running? && r.value.AtBoundary() && r.value.renderer == g.renderer
            && r.value.regs == g.regs.(drawingAreaBottomRight := Corner(x, y))
  {
    TenBits(0xe3, x, y);
    TenBits(0xe4, x, y);
    hide CornerFrom, SettingWord;
    SettingRuns(g, SettingWord(0xe3, y * 0x400 + x), DrawingAreaTopLeft);
    SettingRuns(g, SettingWord(0xe4, y * 0x400 + x), DrawingAreaBottomRight);
  }

  lemma TenBits(opcode: Byte, x: nat, y: nat)
    requires x < 0x400 && y < 0x400
    ensures var w := SettingWord(opcode, y * 0x400 + x);
            w / 0x100_0000 == opcode && CornerFrom(w) == Corner(x, y)
  {
    var w: int := SettingWord(opcode, y * 0x400 + x);
    ModUnique(w, 0x100_0000, opcode, y * 0x400 + x);
    ModUnique(w, 0x400, opcode * 0x4000 + y, x);
    ModUnique(w / 0x400, 0x400, opcode * 0x10, y);
  }

  /** The drawing offset, eleven bits of two's complement a coordinate. Setting it also draws what
      is in the buffer. */
  lemma OffsetIsSet(g: GpuState, x: int, y: int)
    requires g.Valid() && g.AtBoundary() && -0x400 <= x < 0x400 && -0x400 <= y < 0x400
    ensures var r := g.Gp0(SettingWord(0xe5, y % 0x800 * 0x800 + x % 0x800));
            && r.Running? && r.value.AtBoundary() && r.value.regs == g.regs.(drawingOffset := Offset(x, y))
            && r.value.renderer.pending == []
            && r.value.renderer.batches == g.renderer.batches + [g.renderer.pending]
  {
    ElevenBits(x, y);
    hide OffsetFrom, SettingWord;
    SettingRuns(g, SettingWord(0xe5, y % 0x800 * 0x800 + x % 0x800), DrawingOffset);
  }

  lemma ElevenBits(x: int, y: int)
    requires -0x400 <= x < 0x400 && -0x400 <= y < 0x400
    ensures var w := SettingWord(0xe5, y % 0x800 * 0x800 + x % 0x800);
            w / 0x100_0000 == 0xe5 && OffsetFrom(w) == Offset(x, y)
  {
    var u: int, v: int := x % 0x800, y % 0x800;
    var w: int := SettingWord(0xe5, v * 0x800 + u);
    ModUnique(w, 0x100_0000, 0xe5, v * 0x800 + u);
    ModUnique(w, 0x800, 0xe5 * 0x2000 + v, u);
    ModUnique(w / 0x800, 0x800, 0xe5 * 4, v);
  }

  // ---- GP1 ----

  /** The display ranges, of which the start in video memory is even across, and the interrupt
      acknowledgement. */
  lemma DisplayIsSet(g: GpuState, x: nat, y: nat)
    requires g.Valid() && x < 0x1000 && y < 0x1000
    ensures g.Gp1(SettingWord(0x02, x)) == Running(g.(regs := g.regs.(interrupt := false)))
    ensures x < 0x400 && y < 0x200 ==>
            g.Gp1(SettingWord(0x05, y * 0x400 + x))
            == Running(g.(regs := g.regs.(displayVramStart := Corner(x - x % 2, y))))
    ensures g.Gp1(SettingWord(0x06, y * 0x1000 + x)) == Running(g.(regs := g.regs.(displayHoriz := Span(x, y))))
    ensures x < 0x400 && y < 0x400 ==>
            g.Gp1(SettingWord(0x07, y * 0x400 + x)) == Running(g.(regs := g.regs.(displayLine := Span(x, y))))
  {
    RangeFields(x, y);
    ModUnique(SettingWord(0x02, x), 0x100_0000, 0x02, x);
    hide SettingWord, RenderState.Valid, Regs.Valid;
  }

  lemma RangeFields(x: nat, y: nat)
    requires x < 0x1000 && y < 0x1000
    ensures var w := SettingWord(0x06, y * 0x1000 + x);
            w / 0x100_0000 == 0x06 && w % 0x1000 == x && w / 0x1000 % 0x1000 == y
    ensures x < 0x400 && y < 0x400 ==>
            var w := SettingWord(0x07, y * 0x400 + x);
            w / 0x100_0000 == 0x07 && w % 0x400 == x && w / 0x400 % 0x400 == y
    ensures x < 0x400 && y < 0x200 ==>
            var w := SettingWord(0x05, y * 0x400 + x);
            w / 0x100_0000 == 0x05 && w % 0x400 / 2 * 2 == x - x % 2 && w / 0x400 % 0x200 == y
  {
    var w6: int := SettingWord(0x06, y * 0x1000 + x);
    ModUnique(w6, 0x100_0000, 0x06, y * 0x1000 + x);
    ModUnique(w6, 0x1000, 0x06 * 0x1000 + y, x);
    ModUnique(w6 / 0x1000, 0x1000, 0x06, y);
    if x < 0x400 && y < 0x400 {
      var w7: int := SettingWord(0x07, y * 0x400 + x);
      ModUnique(w7, 0x100_0000, 0x07, y * 0x400 + x);
      ModUnique(w7, 0x400, 0x07 * 0x4000 + y, x);
      ModUnique(w7 / 0x400, 0x400, 0x07 * 0x10, y);
    }
    if x < 0x400 && y < 0x200 {
      var w5: int := SettingWord(0x05, y * 0x400 + x);
      ModUnique(w5, 0x100_0000, 0x05, y * 0x400 + x);
      ModUnique(w5, 0x400, 0x05 * 0x4000 + y, x);
      ModUnique(w5 / 0x400, 0x200, 0x05 * 0x20, y);
    }
  }

  /** GP1 panics at an opcode above 8 and at a display mode with bit 7 set, and at nothing else.
      Opcode 1 forgets a half-read command or image and changes no register. */
  lemma Gp1Accepts(g: GpuState, val: Word)
    requires g.Valid()
    ensures g.Gp1(val).Running? <==>
            val / 0x100_0000 <= 7 || (val / 0x100_0000 == 8 && val / 0x80 % 2 == 0)
    ensures val / 0x100_0000 == 1 ==>
            g.Gp1(val).value.AtBoundary() && g.Gp1(val).value.regs == g.regs && g.Gp1(val).value.renderer == g.renderer
  {
    hide RenderState.Valid, Regs.Valid, Regs.Reset;
  }

  /** The values that a reset gives the registers. */
  lemma ResetValues(g: GpuState, val: Word)
    requires g.Valid() && val / 0x100_0000 == 0
    ensures var r := g.Gp1(val).value.regs;
            && r.textureWindow == TextureWindowRegs(0, 0, 0, 0) && r.drawingOffset == Offset(0, 0)
            && r.drawingAreaTopLeft == Corner(0, 0) == r.drawingAreaBottomRight && r.displayVramStart == Corner(0, 0)
            && r.displayHoriz == Span(0x200, 0xc00) && r.displayLine == Span(0x10, 0x100)
            && r.drawMode.rectangleTextureXFlip == r.drawMode.rectangleTextureYFlip == false
            && r.displayMode.vres.Y240Lines? && r.displayDisabled && !r.interrupt && r.dmaDirection.Off?
  {
    hide RenderState.Valid, Regs.Valid;
  }
}
