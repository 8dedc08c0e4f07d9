/** The GPU's command ports: GP0 collects words into drawing commands, GP1 controls the
    display and resets the parser. */
module GpuModel {
  import opened Words
  import opened Outcomes
  import opened RendererModel

  datatype Mode = Command | ImageLoad

  datatype TextureDepth = T4Bit | T8Bit | T15Bit
  datatype Field = Bottom | Top
  datatype VerticalRes = Y240Lines | Y480Lines
  datatype VMode = Ntsc | Pal
  datatype DisplayDepth = D15Bits | D24Bits
  datatype DmaDirection = Off | Fifo | CpuToGp0 | VRamToCpu

  /** The command handlers GP0 can select. */
  datatype Handler =
    | Nop | ClearCache | QuadMonoOpaque | QuadTextureBlendOpaque | TriangleShadedOpaque
    | QuadShadedOpaque | LoadImage | StoreImage | DrawMode | TextureWindow
    | DrawingAreaTopLeft | DrawingAreaBottomRight | DrawingOffset | MaskBitSetting
  {
    /** Words in the command, its opcode word included. */
    function Length(): (n: nat)
      ensures 1 <= n <= 9
    {
      match this
      case QuadMonoOpaque => 5
      case QuadTextureBlendOpaque => 9
      case TriangleShadedOpaque => 6
      case QuadShadedOpaque => 8
      case LoadImage | StoreImage => 3
      case _ => 1
    }
  }

  function HandlerOf(opcode: Word): Option<Handler>
  {
    match opcode
    case 0x00 => Some(Nop)
    case 0x01 => Some(ClearCache)
    case 0x28 => Some(QuadMonoOpaque)
    case 0x2c => Some(QuadTextureBlendOpaque)
    case 0x30 => Some(TriangleShadedOpaque)
    case 0x38 => Some(QuadShadedOpaque)
    case 0xa0 => Some(LoadImage)
    case 0xc0 => Some(StoreImage)
    case 0xe1 => Some(DrawMode)
    case 0xe2 => Some(TextureWindow)
    case 0xe3 => Some(DrawingAreaTopLeft)
    case 0xe4 => Some(DrawingAreaBottomRight)
    case 0xe5 => Some(DrawingOffset)
    case 0xe6 => Some(MaskBitSetting)
    case _ => None
  }

  /** Payload words that follow an image load: two pixels a word, rounded up. */
  function ImageWords(res: Word): (n: Word)
    ensures n == 0 <==> res % 0x1_0000 == 0 || res / 0x1_0000 == 0
    ensures var pixels := (res % 0x1_0000) * (res / 0x1_0000); 2 * n == pixels || 2 * n == pixels + 1
  {
    PixelCount(res % 0x1_0000, res / 0x1_0000);
    ((res % 0x1_0000) * (res / 0x1_0000) + 1) / 2
  }

  lemma PixelCount(width: int, height: int)
    requires 0 <= width < 0x1_0000 && 0 <= height < 0x1_0000
    ensures 0 <= width * height <= 0xfffe_0001
    ensures width * height == 0 <==> width == 0 || height == 0
  {
    Product(width, height, 0xffff, 0xffff);
  }

  // ---- The drawing and display registers ----

  /** What a draw-mode command sets, all at once. */
  datatype DrawModeRegs = DrawModeRegs(
    pageBaseX: nat, pageBaseY: nat, semiTransparency: nat, textureDepth: TextureDepth,
    dithering: bool, drawToDisplay: bool, textureDisable: bool,
    rectangleTextureXFlip: bool, rectangleTextureYFlip: bool)
  {
    predicate Valid() { pageBaseX < 16 && pageBaseY < 2 && semiTransparency < 4 }

    /** The draw-mode bits of the status register. */
    function Status(): (r: nat)
      requires Valid()
      ensures r < 0x800 || 0x8000 <= r < 0x8800
    {
      pageBaseX + pageBaseY * 0x10 + semiTransparency * 0x20
      + Flag(textureDepth.T8Bit?, 0x80)
      + Flag(textureDepth.T15Bit?, 0x100)
      + Flag(dithering, 0x200)
      + Flag(drawToDisplay, 0x400)
      + Flag(textureDisable, 0x8000)
    }
  }

  function DrawModeFrom(val: Word): (r: Outcome<DrawModeRegs>)
    ensures r.Running? ==> r.value.Valid()
    ensures r.Stopped? ==> r.why.Panic?
  {
    var depth := val / 0x80 % 4;
    if depth == 3 then Stopped(Panic)
    else Running(DrawModeRegs(
      val % 16, val / 0x10 % 2, val / 0x20 % 4,
      if depth == 0 then T4Bit else if depth == 1 then T8Bit else T15Bit,
      val / 0x200 % 2 == 1, val / 0x400 % 2 == 1, val / 0x800 % 2 == 1,
      val / 0x1000 % 2 == 1, val / 0x2000 % 2 == 1))
  }

  datatype TextureWindowRegs = TextureWindowRegs(xMask: nat, yMask: nat, xOffset: nat, yOffset: nat)

  function TextureWindowFrom(val: Word): TextureWindowRegs
  {
    TextureWindowRegs(val % 0x20, val / 0x20 % 0x20, val / 0x400 % 0x20, val / 0x8000 % 0x20)
  }

  /** A pair of 10-bit coordinates: a corner of the drawing area. */
  datatype Corner = Corner(x: nat, y: nat)

  function CornerFrom(val: Word): Corner { Corner(val % 0x400, val / 0x400 % 0x400) }

  datatype Offset = Offset(x: int, y: int)

  function OffsetFrom(val: Word): Offset
  {
    Offset(SignExtend11(val % 0x800), SignExtend11(val / 0x800 % 0x800))
  }

  /** Shifting an 11-bit field up to the sign bit and arithmetically back down. */
  function SignExtend11(x: nat): (r: int)
    requires x < 0x800
    ensures r == if x < 0x400 then x else x - 0x800
  {
    Signed16(x * 32) / 32
  }

  datatype MaskRegs = MaskRegs(forceSetMaskBit: bool, preserveMaskedPixels: bool)

  /** What a display-mode command sets, all at once. */
  datatype DisplayModeRegs = DisplayModeRegs(
    hres: nat, vres: VerticalRes, vmode: VMode, displayDepth: DisplayDepth, interlaced: bool)

  /** Each of the four mode tests reads bit 0 of the word, since `!=` binds tighter than `&`. */
  function DisplayModeFrom(val: Word): (r: Outcome<DisplayModeRegs>)
    ensures r.Running? ==> r.value.hres < 8
    ensures r.Stopped? ==> r.why.Panic?
  {
    var low := val % 2 == 1;
    if val / 0x80 % 2 == 1 then Stopped(Panic)
    else Running(DisplayModeRegs(
      val / 0x40 % 2 + val % 4 * 2,
      if low then Y480Lines else Y240Lines,
      if low then Pal else Ntsc,
      if low then D15Bits else D24Bits,
      low))
  }

  datatype Span = Span(start: nat, end: nat)

  function DmaDirectionFrom(val: Word): DmaDirection
  {
    if val % 4 == 0 then Off else if val % 4 == 1 then Fifo else if val % 4 == 2 then CpuToGp0 else VRamToCpu
  }

  datatype Regs = Regs(
    drawMode: DrawModeRegs, textureWindow: TextureWindowRegs,
    drawingAreaTopLeft: Corner, drawingAreaBottomRight: Corner, drawingOffset: Offset, mask: MaskRegs,
    field: Field, displayMode: DisplayModeRegs, displayDisabled: bool,
    displayVramStart: Corner, displayHoriz: Span, displayLine: Span,
    interrupt: bool, dmaDirection: DmaDirection)
  {
    /** Field widths; and nothing ever selects the bottom field. */
    predicate Valid() { drawMode.Valid() && displayMode.hres < 8 && field.Top? }

    function Status(): Word
      requires Valid()
    {
      LowStatus() + displayMode.hres * 0x1_0000
      + Flag(displayMode.vmode.Pal?, 0x10_0000)
      + Flag(displayMode.displayDepth.D24Bits?, 0x20_0000)
      + Flag(displayMode.interlaced, 0x40_0000)
      + Flag(displayDisabled, 0x80_0000)
      + Flag(interrupt, 0x100_0000)
      + Flag(!dmaDirection.Off?, 0x200_0000)
      + 0x1c00_0000
      + Flag(dmaDirection.Fifo? || dmaDirection.VRamToCpu?, 0x2000_0000)
      + Flag(dmaDirection.CpuToGp0? || dmaDirection.VRamToCpu?, 0x4000_0000)
    }

    function LowStatus(): (r: nat)
      requires Valid()
      ensures r < 0x1_0000
    {
      drawMode.Status()
      + Flag(mask.forceSetMaskBit, 0x800)
      + Flag(mask.preserveMaskedPixels, 0x1000)
      + Flag(field.Top?, 0x2000)
    }

    /** Every register but the displayed field returns to a fixed value. */
    function Reset(): (r: Regs)
      requires Valid()
      ensures r.Valid()
    {
      POWER_ON_REGS.(field := field, displayMode := POWER_ON_REGS.displayMode.(interlaced := true))
    }
  }

  function Flag(b: bool, weight: nat): nat { if b then weight else 0 }

  const POWER_ON_REGS := Regs(
    DrawModeRegs(0, 0, 0, T4Bit, false, false, false, false, false),
    TextureWindowRegs(0, 0, 0, 0),
    Corner(0, 0), Corner(0, 0), Offset(0, 0), MaskRegs(false, false),
    Top, DisplayModeRegs(0, Y240Lines, Ntsc, D15Bits, false), true,
    Corner(0, 0), Span(0x200, 0xc00), Span(0x10, 0x100), false, Off)

  /** The GP1 commands that only set registers. */
  function Gp1Setting(regs: Regs, val: Word): (r: Outcome<Regs>)
    requires regs.Valid()
    ensures r.Running? ==> r.value.Valid()
    ensures r.Stopped? ==> r.why.Panic?
  {
    match val / 0x100_0000
    case 2 => Running(regs.(interrupt := false))
    case 3 => Running(regs.(displayDisabled := val % 2 == 1))
    case 4 => Running(regs.(dmaDirection := DmaDirectionFrom(val)))
    case 5 => Running(regs.(displayVramStart := Corner(val % 0x400 / 2 * 2, val / 0x400 % 0x200)))
    case 6 => Running(regs.(displayHoriz := Span(val % 0x1000, val / 0x1000 % 0x1000)))
    case 7 => Running(regs.(displayLine := Span(val % 0x400, val / 0x400 % 0x400)))
    case 8 =>
      var made := DisplayModeFrom(val);
      if made.Stopped? then Stopped(made.why) else Running(regs.(displayMode := made.value))
    case _ => Stopped(Panic)
  }

  datatype GpuState = GpuState(
    regs: Regs, cmd: seq<Word>, remaining: Word, handler: Handler, mode: Mode, renderer: RenderState)
  {
    /** The parser invariant: a command being collected has all its words either buffered or
        still to come, and the buffer never holds more than nine of its twelve slots. */
    predicate Valid()
    {
      && regs.Valid() && renderer.Valid()
      && |cmd| <= 9
      && (mode.Command? && remaining > 0 ==> |cmd| + remaining == handler.Length())
    }

    /** Between commands: the next word starts a new one. */
    predicate AtBoundary() { mode.Command? && remaining == 0 }

    /** The effect of a command all of whose words have arrived. */
    function Execute(): (r: Outcome<GpuState>)
      requires regs.Valid() && renderer.Valid()
      requires |cmd| == handler.Length() && mode.Command? && remaining == 0
      ensures r.Running? ==> r.value.Valid() && r.value.cmd == cmd && r.value.handler == handler
      ensures r.Running? ==> r.value.mode == (if handler.LoadImage? then ImageLoad else Command)
      ensures r.Running? && !handler.LoadImage? ==> r.value.remaining == 0
      ensures r.Stopped? ==> r.why.Panic?
    {
      match handler
      case Nop | ClearCache | StoreImage => Running(this)
      case QuadMonoOpaque =>
        var color := ColorFromPacked(cmd[0]);
        Quad(VertexAt(1, color), VertexAt(2, color), VertexAt(3, color), VertexAt(4, color))
      case QuadTextureBlendOpaque =>
        var color := Color(255, 0, 0);
        Quad(VertexAt(1, color), VertexAt(3, color), VertexAt(5, color), VertexAt(7, color))
      case TriangleShadedOpaque =>
        var v1, v2, v3 := VertexAt(1, ColorFromPacked(cmd[0])),
          VertexAt(3, ColorFromPacked(cmd[2])), VertexAt(5, ColorFromPacked(cmd[4]));
        TriangleKeeps(renderer, v1, v2, v3);
        Running(this.(renderer := renderer.PushTriangle(v1, v2, v3)))
      case QuadShadedOpaque =>
        Quad(VertexAt(1, ColorFromPacked(cmd[0])), VertexAt(3, ColorFromPacked(cmd[2])),
             VertexAt(5, ColorFromPacked(cmd[4])), VertexAt(7, ColorFromPacked(cmd[6])))
      case LoadImage => Running(this.(remaining := ImageWords(cmd[2]), mode := ImageLoad))
      case DrawMode =>
        var made := DrawModeFrom(cmd[0]);
        if made.Stopped? then Stopped(made.why) else Running(this.(regs := regs.(drawMode := made.value)))
      case TextureWindow => Running(this.(regs := regs.(textureWindow := TextureWindowFrom(cmd[0]))))
      case DrawingAreaTopLeft => Running(this.(regs := regs.(drawingAreaTopLeft := CornerFrom(cmd[0]))))
      case DrawingAreaBottomRight => Running(this.(regs := regs.(drawingAreaBottomRight := CornerFrom(cmd[0]))))
      case DrawingOffset =>
        Running(this.(regs := regs.(drawingOffset := OffsetFrom(cmd[0])), renderer := renderer.Draw()))
      case MaskBitSetting =>
        Running(this.(regs := regs.(mask := MaskRegs(cmd[0] % 2 == 1, cmd[0] / 2 % 2 == 1))))
    }

    function VertexAt(i: nat, color: Color): Vertex
      requires i < |cmd|
    {
      Vertex(PositionFromPacked(cmd[i]), color)
    }

    function Quad(v1: Vertex, v2: Vertex, v3: Vertex, v4: Vertex): (r: Outcome<GpuState>)
      requires regs.Valid() && renderer.Valid() && |cmd| <= 9 && remaining == 0
      ensures r.Running? && r.value.Valid()
      ensures r.value == this.(renderer := renderer.PushQuad(v1, v2, v3, v4))
    {
      OpKeeps(renderer, RenderOp.Quad(v1, v2, v3, v4));
      Running(this.(renderer := renderer.PushQuad(v1, v2, v3, v4)))
    }

    /** One word written to GP0. */
    function Gp0(val: Word): (r: Outcome<GpuState>)
      requires Valid()
      ensures r.Running? ==> r.value.Valid()
      ensures r.Stopped? ==> r.why.Panic?
    {
      if remaining == 0 then
        match HandlerOf(val / 0x100_0000)
        case None => Stopped(Panic)
        case Some(h) => this.(remaining := h.Length(), handler := h, cmd := []).Accept(val)
      else
        Accept(val)
    }

    /** The second half of `Gp0`: the word is counted, and kept if it belongs to a command. */
    function Accept(val: Word): (r: Outcome<GpuState>)
      requires Valid() && remaining > 0
      ensures r.Running? ==> r.value.Valid()
      ensures r.Stopped? ==> r.why.Panic?
    {
      var left := remaining - 1;
      if mode.Command? then
        var g := this.(remaining := left, cmd := cmd + [val]);
        if left == 0 then g.Execute() else Running(g)
      else
        Running(this.(remaining := left, mode := if left == 0 then Command else ImageLoad))
    }

    /** One word written to GP1. */
    function Gp1(val: Word): (r: Outcome<GpuState>)
      requires Valid()
      ensures r.Running? ==> r.value.Valid()
      ensures r.Stopped? ==> r.why.Panic?
    {
      match val / 0x100_0000
      case 0 => Running(this.(regs := regs.Reset()).ResetCommandBuffer())
      case 1 => Running(ResetCommandBuffer())
      case _ =>
        var made := Gp1Setting(regs, val);
        if made.Stopped? then Stopped(made.why) else Running(this.(regs := made.value))
    }

    function ResetCommandBuffer(): GpuState { this.(cmd := [], remaining := 0, mode := Command) }
  }

  const POWER_ON := GpuState(POWER_ON_REGS, [], 0, Nop, Command, RenderState([], []))

  // ---- The objects ----

  class CommandBuffer {
    const buffer: array<Word>
    var len: nat

    ghost predicate Valid()
      reads this
    {
      buffer.Length == 12 && len <= 12
    }

    ghost function Words(): seq<Word>
      reads this, buffer
    {
      if len <= buffer.Length then buffer[..len] else []
    }

    constructor ()
      ensures Valid() && Words() == [] && fresh(buffer)
    {
      buffer := new Word[12](_ => 0);
      len := 0;
    }

    method Clear()
      requires Valid()
      modifies this
      ensures Valid() && Words() == []
    {
      len := 0;
    }

    method PushWord(word: Word)
      requires Valid() && len < 12
      modifies this, buffer
      ensures Valid() && Words() == old(Words()) + [word]
    {
      buffer[len] := word;
      len := len + 1;
    }
  }

  class Gpu {
    const renderer: Renderer
    const gp0Command: CommandBuffer
    var regs: Regs
    var gp0WordsRemaining: Word
    var gp0CommandMethod: Handler
    var gp0Mode: Mode

    ghost function Repr(): set<object>
    {
      {this, renderer, renderer.vertexBuf, gp0Command, gp0Command.buffer}
    }

    ghost predicate Valid()
      reads Repr()
      ensures Valid() ==> State().Valid()
    {
      renderer.Valid() && gp0Command.Valid() && State().Valid()
    }

    ghost function State(): GpuState
      reads Repr()
    {
      GpuState(regs, gp0Command.Words(), gp0WordsRemaining, gp0CommandMethod, gp0Mode, renderer.State())
    }

    constructor ()
      ensures Valid() && State() == POWER_ON
      ensures fresh(Repr())
    {
      renderer := new Renderer();
      gp0Command := new CommandBuffer();
      regs := POWER_ON_REGS;
      gp0WordsRemaining, gp0CommandMethod, gp0Mode := 0, Nop, Command;
    }

    method ReadStatus() returns (r: Word)
      requires Valid()
      ensures r == State().regs.Status()
    {
      r := regs.Status();
    }

    method Gp0(val: Word) returns (ok: bool)
      requires Valid()
      modifies Repr()
      ensures ok == old(State()).Gp0(val).Running?
      ensures ok ==> Valid() && State() == old(State()).Gp0(val).value
    {
      if gp0WordsRemaining == 0 {
        var opcode := val / 0x100_0000;
        var found := HandlerOf(opcode);
        if found.None? {
          return false;
        }
        gp0WordsRemaining := found.value.Length();
        gp0CommandMethod := found.value;
        gp0Command.Clear();
      }

      ghost var started := State();
      gp0WordsRemaining := gp0WordsRemaining - 1;

      match gp0Mode
      case Command =>
        gp0Command.PushWord(val);
        if gp0WordsRemaining == 0 {
          assert State() == started.(remaining := 0, cmd := started.cmd + [val]);
          ok := RunCommand();
        } else {
          ok := true;
        }
      case ImageLoad =>
        if gp0WordsRemaining == 0 {
          gp0Mode := Command;
        }
        ok := true;
    }

    /** The buffered word at `index`; only words that have been received are asked for. */
    method Arg(index: nat) returns (w: Word)
      requires gp0Command.Valid() && index < gp0Command.len
      ensures w == gp0Command.Words()[index]
    {
      w := gp0Command.buffer[index];
    }

    method ArgVertex(index: nat, color: Color) returns (v: Vertex)
      requires renderer.Valid() && gp0Command.Valid() && index < gp0Command.len
      ensures v == State().VertexAt(index, color)
    {
      var packed := Arg(index);
      v := Vertex(PositionFromPacked(packed), color);
    }

    method ArgColor(index: nat) returns (c: Color)
      requires gp0Command.Valid() && index < gp0Command.len
      ensures c == ColorFromPacked(gp0Command.Words()[index])
    {
      var packed := Arg(index);
      c := ColorFromPacked(packed);
    }

    /** The last word of a command has just been buffered. */
    ghost predicate ReadyToRun()
      reads Repr()
    {
      && renderer.Valid() && gp0Command.Valid() && regs.Valid()
      && gp0Command.len == gp0CommandMethod.Length() && gp0Mode.Command? && gp0WordsRemaining == 0
    }

    /** Calls the handler of the collected command. */
    method RunCommand() returns (ok: bool)
      requires ReadyToRun()
      modifies Repr()
      ensures ok == old(State()).Execute().Running?
      ensures ok ==> Valid() && State() == old(State()).Execute().value
    {
      ok := true;
      match gp0CommandMethod
      case Nop | ClearCache | StoreImage =>
      case QuadMonoOpaque | QuadTextureBlendOpaque | TriangleShadedOpaque | QuadShadedOpaque =>
        RunDrawing();
      case LoadImage =>
        var res := Arg(2);
        gp0WordsRemaining := ImageWords(res);
        gp0Mode := ImageLoad;
      case DrawMode | TextureWindow | DrawingAreaTopLeft | DrawingAreaBottomRight | DrawingOffset | MaskBitSetting =>
        ok := RunSetting();
    }

    /** The handlers that push a triangle or a quad. */
    method RunDrawing()
      requires ReadyToRun()
      requires gp0CommandMethod in {QuadMonoOpaque, QuadTextureBlendOpaque, TriangleShadedOpaque, QuadShadedOpaque}
      modifies renderer, renderer.vertexBuf
      ensures Valid() && old(State()).Execute() == Running(State())
    {
      hide ColorFromPacked, PositionFromPacked, Regs.Valid, RenderState.Shown;
      if gp0CommandMethod.TriangleShadedOpaque? {
        var c1 := ArgColor(0);
        var v1 := ArgVertex(1, c1);
        var c2 := ArgColor(2);
        var v2 := ArgVertex(3, c2);
        var c3 := ArgColor(4);
        var v3 := ArgVertex(5, c3);
        renderer.PushTriangle(v1, v2, v3);
      } else {
        var v1, v2, v3, v4 := QuadVertices();
        renderer.PushQuad(v1, v2, v3, v4);
      }
    }

    method QuadVertices() returns (v1: Vertex, v2: Vertex, v3: Vertex, v4: Vertex)
      requires ReadyToRun()
      requires gp0CommandMethod in {QuadMonoOpaque, QuadTextureBlendOpaque, QuadShadedOpaque}
      ensures State().Execute() == State().Quad(v1, v2, v3, v4)
    {
      if gp0CommandMethod.QuadMonoOpaque? {
        var color := ArgColor(0);
        v1 := ArgVertex(1, color);
        v2 := ArgVertex(2, color);
        v3 := ArgVertex(3, color);
        v4 := ArgVertex(4, color);
      } else if gp0CommandMethod.QuadTextureBlendOpaque? {
        var color := Color(255, 0, 0);
        v1 := ArgVertex(1, color);
        v2 := ArgVertex(3, color);
        v3 := ArgVertex(5, color);
        v4 := ArgVertex(7, color);
      } else {
        var c1 := ArgColor(0);
        v1 := ArgVertex(1, c1);
        var c2 := ArgColor(2);
        v2 := ArgVertex(3, c2);
        var c3 := ArgColor(4);
        v3 := ArgVertex(5, c3);
        var c4 := ArgColor(6);
        v4 := ArgVertex(7, c4);
      }
    }

    /** The handlers that update registers from the command's only word. */
    method RunSetting() returns (ok: bool)
      requires ReadyToRun()
      requires gp0CommandMethod in {DrawMode, TextureWindow, DrawingAreaTopLeft, DrawingAreaBottomRight,
                                    DrawingOffset, MaskBitSetting}
      modifies this, renderer
      ensures ok == old(State()).Execute().Running?
      ensures ok ==> Valid() && old(State()).Execute() == Running(State())
    {
      hide DrawModeFrom, TextureWindowFrom, CornerFrom, OffsetFrom, RenderState.Shown;
      ok := true;
      var val := Arg(0);
      match gp0CommandMethod
      case DrawMode =>
        var r := DrawModeFrom(val);
        if r.Running? { regs := regs.(drawMode := r.value); } else { ok := false; }
      case TextureWindow => regs := regs.(textureWindow := TextureWindowFrom(val));
      case DrawingAreaTopLeft => regs := regs.(drawingAreaTopLeft := CornerFrom(val));
      case DrawingAreaBottomRight => regs := regs.(drawingAreaBottomRight := CornerFrom(val));
      case DrawingOffset =>
        regs := regs.(drawingOffset := OffsetFrom(val));
        renderer.Display();
      case MaskBitSetting =>
        regs := regs.(mask := MaskRegs(val % 2 != 0, val / 2 % 2 != 0));
    }

    method Gp1(val: Word) returns (ok: bool)
      requires Valid()
      modifies this, gp0Command
      ensures ok == old(State()).Gp1(val).Running?
      ensures ok ==> Valid() && State() == old(State()).Gp1(val).value
    {
      hide DisplayModeFrom, DmaDirectionFrom, Regs.Reset, RenderState.Valid;
      ok := true;
      match val / 0x100_0000
      case 0 =>
        regs := regs.Reset();
        ResetCommandBuffer();
      case 1 => ResetCommandBuffer();
      case 2 => regs := regs.(interrupt := false);
      case 3 => regs := regs.(displayDisabled := val % 2 != 0);
      case 4 => regs := regs.(dmaDirection := DmaDirectionFrom(val));
      case 5 => regs := regs.(displayVramStart := Corner(val % 0x400 / 2 * 2, val / 0x400 % 0x200));
      case 6 => regs := regs.(displayHoriz := Span(val % 0x1000, val / 0x1000 % 0x1000));
      case 7 => regs := regs.(displayLine := Span(val % 0x400, val / 0x400 % 0x400));
      case 8 =>
        var r := DisplayModeFrom(val);
        if r.Running? { regs := regs.(displayMode := r.value); } else { ok := false; }
      case _ => ok := false;
    }

    method ResetCommandBuffer()
      requires renderer.Valid() && gp0Command.Valid()
      modifies this, gp0Command
      ensures gp0Command.Valid() && State() == old(State()).ResetCommandBuffer()
    {
      gp0Command.Clear();
      gp0WordsRemaining := 0;
      gp0Mode := Command;
    }
  }
}
