/**
 * The GPU's operations (gpu/src/gpu_op.rs) and the opcode each is issued
 * with. Only the opcode table is modelled; the operations' payloads are
 * kept where they are integers, booleans or the GPU's own enums, and left
 * out where they are floating point (coordinates, sizes, radii) or of a
 * type the table does not declare (`BufferType`).
 */
module GpuOps {
  import opened Bytes
  import opened Wrappers
  import PainterStyles
  import BlendModes
  import FilterQualities
  import HintingLevels
  import PointModes

  /** `struct Pixel` (gpu/src/pixel.rs): a colour as four bytes. */
  datatype Pixel = Pixel(r: byte, g: byte, b: byte, a: byte)

  /** `enum GpuOp`, in declaration order. */
  datatype GpuOp =
    | Init(width: u64, height: u64)
    | GetPixel
    | SetPainterColor(pixel: Pixel)
    | GetPainterColor
    | SetPainterStyle(style: PainterStyles.PainterStyle)
    | GetPainterStyle
    | SetPainterBlendMode(mode: BlendModes.BlendMode)
    | GetPainterBlendMode
    | SetPainterFilterQuality(quality: FilterQualities.FilterQuality)
    | GetPainterFilterQuality
    | SetPainterHintingLevel(level: HintingLevels.HintingLevel)
    | GetPainterHintingLevel
    | SetPainterAutohinting(state: bool)
    | GetPainterAutohinting
    | SetPainterAntialiasing(state: bool)
    | GetPainterAntialiasing
    | SetPainterDithering(state: bool)
    | GetPainterDithering
    | CreateBuffer(address: usize, size: usize, length: usize)
    | DeleteBuffer(id: u64)
    | DeleteAllBuffers
    | DrawPixel
    | DrawLine
    | DrawRect
    | DrawRoundRect
    | DrawCircle
    | DrawOval
    | DrawPoints(bufferId: u64, pointMode: PointModes.PointMode)
  {
    /** `id()`: the opcode written to the CALL_OP register. */
    function Id(): u32 {
      match this
      case Init(_, _) => 0x0
      case GetPixel => 0x10
      case SetPainterColor(_) => 0x100
      case GetPainterColor => 0x101
      case SetPainterStyle(_) => 0x102
      case GetPainterStyle => 0x103
      case SetPainterBlendMode(_) => 0x104
      case GetPainterBlendMode => 0x105
      case SetPainterFilterQuality(_) => 0x106
      case GetPainterFilterQuality => 0x107
      case SetPainterHintingLevel(_) => 0x108
      case GetPainterHintingLevel => 0x109
      case SetPainterAutohinting(_) => 0x10A
      case GetPainterAutohinting => 0x10B
      case SetPainterAntialiasing(_) => 0x10C
      case GetPainterAntialiasing => 0x10D
      case SetPainterDithering(_) => 0x10E
      case GetPainterDithering => 0x10F
      case CreateBuffer(_, _, _) => 0x500
      case DeleteBuffer(_) => 0x501
      case DeleteAllBuffers => 0x502
      case DrawPixel => 0x1000
      case DrawLine => 0x1001
      case DrawRect => 0x1002
      case DrawRoundRect => 0x1003
      case DrawCircle => 0x1004
      case DrawOval => 0x1005
      case DrawPoints(_, _) => 0x1006
    }

    /** The same variant with every payload field at its zero value: what is left once the payload is forgotten. */
    function Erased(): GpuOp {
      match this
      case Init(_, _) => Init(0, 0)
      case SetPainterColor(_) => SetPainterColor(Pixel(0, 0, 0, 0))
      case SetPainterStyle(_) => SetPainterStyle(PainterStyles.Fill)
      case SetPainterBlendMode(_) => SetPainterBlendMode(BlendModes.Clear)
      case SetPainterFilterQuality(_) => SetPainterFilterQuality(FilterQualities.None)
      case SetPainterHintingLevel(_) => SetPainterHintingLevel(HintingLevels.NoHinting)
      case SetPainterAutohinting(_) => SetPainterAutohinting(false)
      case SetPainterAntialiasing(_) => SetPainterAntialiasing(false)
      case SetPainterDithering(_) => SetPainterDithering(false)
      case CreateBuffer(_, _, _) => CreateBuffer(0, 0, 0)
      case DeleteBuffer(_) => DeleteBuffer(0)
      case DrawPoints(_, _) => DrawPoints(0, PointModes.Points)
      case _ => this
    }

    /** One of the painter's setters. */
    predicate PainterSetter() {
      || SetPainterColor? || SetPainterStyle? || SetPainterBlendMode? || SetPainterFilterQuality?
      || SetPainterHintingLevel? || SetPainterAutohinting? || SetPainterAntialiasing? || SetPainterDithering?
    }

    /** The getter that reads back what a painter setter sets. */
    function Getter(): GpuOp
      requires PainterSetter()
    {
      match this
      case SetPainterColor(_) => GetPainterColor
      case SetPainterStyle(_) => GetPainterStyle
      case SetPainterBlendMode(_) => GetPainterBlendMode
      case SetPainterFilterQuality(_) => GetPainterFilterQuality
      case SetPainterHintingLevel(_) => GetPainterHintingLevel
      case SetPainterAutohinting(_) => GetPainterAutohinting
      case SetPainterAntialiasing(_) => GetPainterAntialiasing
      case SetPainterDithering(_) => GetPainterDithering
    }
  }

  /**
   * The variant an opcode names, with its payload erased; none for a number
   * that is not an opcode. This inverts the opcode table.
   */
  function Named(id: u32): Option<GpuOp>
  {
    match id
    case 0x0 => Some(Init(0, 0))
    case 0x10 => Some(GetPixel)
    case 0x100 => Some(SetPainterColor(Pixel(0, 0, 0, 0)))
    case 0x101 => Some(GetPainterColor)
    case 0x102 => Some(SetPainterStyle(PainterStyles.Fill))
    case 0x103 => Some(GetPainterStyle)
    case 0x104 => Some(SetPainterBlendMode(BlendModes.Clear))
    case 0x105 => Some(GetPainterBlendMode)
    case 0x106 => Some(SetPainterFilterQuality(FilterQualities.None))
    case 0x107 => Some(GetPainterFilterQuality)
    case 0x108 => Some(SetPainterHintingLevel(HintingLevels.NoHinting))
    case 0x109 => Some(GetPainterHintingLevel)
    case 0x10A => Some(SetPainterAutohinting(false))
    case 0x10B => Some(GetPainterAutohinting)
    case 0x10C => Some(SetPainterAntialiasing(false))
    case 0x10D => Some(GetPainterAntialiasing)
    case 0x10E => Some(SetPainterDithering(false))
    case 0x10F => Some(GetPainterDithering)
    case 0x500 => Some(CreateBuffer(0, 0, 0))
    case 0x501 => Some(DeleteBuffer(0))
    case 0x502 => Some(DeleteAllBuffers)
    case 0x1000 => Some(DrawPixel)
    case 0x1001 => Some(DrawLine)
    case 0x1002 => Some(DrawRect)
    case 0x1003 => Some(DrawRoundRect)
    case 0x1004 => Some(DrawCircle)
    case 0x1005 => Some(DrawOval)
    case 0x1006 => Some(DrawPoints(0, PointModes.Points))
    case _ => None
  }

  /** Looking up an operation's opcode gives the operation back, payload erased. */
  lemma NamedInvertsId(op: GpuOp)
    ensures Named(op.Id()) == Some(op.Erased())
    ensures op.Erased().Id() == op.Id()
  {
  }

  /**
   * The opcode names the variant and nothing more: two operations share an
   * opcode exactly when they are the same variant, whatever their payloads.
   */
  lemma IdNamesVariant(a: GpuOp, b: GpuOp)
    ensures a.Id() == b.Id() <==> a.Erased() == b.Erased()
  {
    NamedInvertsId(a);
    NamedInvertsId(b);
  }

  /** Every opcode is 0x0, 0x10, or in one of the ranges 0x100-0x10F, 0x500-0x502 and 0x1000-0x1006. */
  lemma IdRanges(op: GpuOp)
    ensures || op.Id() == 0x0 || op.Id() == 0x10
            || 0x100 <= op.Id() <= 0x10F
            || 0x500 <= op.Id() <= 0x502
            || 0x1000 <= op.Id() <= 0x1006
  {
  }

  /** Painter setters have even opcodes in 0x100-0x10F, and the matching getter the next, odd, opcode. */
  lemma PainterPairs(op: GpuOp)
    requires op.PainterSetter()
    ensures 0x100 <= op.Id() <= 0x10E && op.Id() % 2 == 0
    ensures op.Getter().Id() == op.Id() + 1
  {
  }
}
