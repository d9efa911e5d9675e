/** The CH1115 controller's single-byte opcodes (src/instructions.rs). */
module Instructions {

  import opened Wrappers

  /** A byte on the bus; bit-vector so that the driver's |, &, << and >> are exact. */
  type byte = bv8

  datatype Instruction =
    | SetEntireDisplayResume
    | SetEntireDisplayOn
    | SetDisplayNormal
    | SetDisplayInverse
    | SetDisplayOff
    | SetDisplayOn
    | ReadModifyWrite
    | End
    | Nop
    | SetBreathingLight
    | AddHorizontalScrollSetup
    | HorizontalScrollSetup
    | SetScrollMode
    | SetHorizontalScroll
    | SetContrastControl
    | SetIrefResistor
    | SetDcDcControl
    | SetSegPadsHardwareConfig
    | SetMultiplexRatio
    | SetDisplayOffset
    | SetDisplayClockDivide
    | SetPreChargePeriod
    | SetVcomDeselectLevel
    | SetRowNonOverlap
    | SetLowerColumnAddress
    | SetHigherColumnAddress
    | SetPumpVoltage
    | SetDisplayStartLine
    | SetPageAddress
    | SetSegmentRemap
    | SetCommonOutputScanDir
    | SetAdaptivePowerSave

  /** The declared discriminant of each instruction: the conversion into a bus byte. */
  function Opcode(i: Instruction): byte
  {
    match i
    case SetEntireDisplayResume => 0xA4
    case SetEntireDisplayOn => 0xA5
    case SetDisplayNormal => 0xA6
    case SetDisplayInverse => 0xA7
    case SetDisplayOff => 0xAE
    case SetDisplayOn => 0xAF
    case ReadModifyWrite => 0xE0
    case End => 0xEE
    case Nop => 0xE3
    case SetBreathingLight => 0x23
    case AddHorizontalScrollSetup => 0x24
    case HorizontalScrollSetup => 0x26
    case SetScrollMode => 0x28
    case SetHorizontalScroll => 0x2E
    case SetContrastControl => 0x81
    case SetIrefResistor => 0x82
    case SetDcDcControl => 0xAD
    case SetSegPadsHardwareConfig => 0xA2
    case SetMultiplexRatio => 0xA8
    case SetDisplayOffset => 0xD3
    case SetDisplayClockDivide => 0xD5
    case SetPreChargePeriod => 0xD9
    case SetVcomDeselectLevel => 0xDB
    case SetRowNonOverlap => 0xDC
    case SetLowerColumnAddress => 0x00
    case SetHigherColumnAddress => 0x10
    case SetPumpVoltage => 0x30
    case SetDisplayStartLine => 0x40
    case SetPageAddress => 0xB0
    case SetSegmentRemap => 0xA0
    case SetCommonOutputScanDir => 0xC0
    case SetAdaptivePowerSave => 0xD6
  }

  /** Reads a bus byte back as the instruction whose opcode it is, if any. */
  function Decode(b: byte): (r: Option<Instruction>)
  {
    if b == 0xA4 then Some(SetEntireDisplayResume)
    else if b == 0xA5 then Some(SetEntireDisplayOn)
    else if b == 0xA6 then Some(SetDisplayNormal)
    else if b == 0xA7 then Some(SetDisplayInverse)
    else if b == 0xAE then Some(SetDisplayOff)
    else if b == 0xAF then Some(SetDisplayOn)
    else if b == 0xE0 then Some(ReadModifyWrite)
    else if b == 0xEE then Some(End)
    else if b == 0xE3 then Some(Nop)
    else if b == 0x23 then Some(SetBreathingLight)
    else if b == 0x24 then Some(AddHorizontalScrollSetup)
    else if b == 0x26 then Some(HorizontalScrollSetup)
    else if b == 0x28 then Some(SetScrollMode)
    else if b == 0x2E then Some(SetHorizontalScroll)
    else if b == 0x81 then Some(SetContrastControl)
    else if b == 0x82 then Some(SetIrefResistor)
    else if b == 0xAD then Some(SetDcDcControl)
    else if b == 0xA2 then Some(SetSegPadsHardwareConfig)
    else if b == 0xA8 then Some(SetMultiplexRatio)
    else if b == 0xD3 then Some(SetDisplayOffset)
    else if b == 0xD5 then Some(SetDisplayClockDivide)
    else if b == 0xD9 then Some(SetPreChargePeriod)
    else if b == 0xDB then Some(SetVcomDeselectLevel)
    else if b == 0xDC then Some(SetRowNonOverlap)
    else if b == 0x00 then Some(SetLowerColumnAddress)
    else if b == 0x10 then Some(SetHigherColumnAddress)
    else if b == 0x30 then Some(SetPumpVoltage)
    else if b == 0x40 then Some(SetDisplayStartLine)
    else if b == 0xB0 then Some(SetPageAddress)
    else if b == 0xA0 then Some(SetSegmentRemap)
    else if b == 0xC0 then Some(SetCommonOutputScanDir)
    else if b == 0xD6 then Some(SetAdaptivePowerSave)
    else None
  }

  /** Decoding inverts the opcode table: every instruction's opcode decodes back to it. */
  lemma DecodeOpcode(i: Instruction)
    ensures Decode(Opcode(i)) == Some(i)
  {
  }

  /** ... and every byte that decodes at all is the opcode of what it decodes to. */
  lemma OpcodeDecode(b: byte)
    ensures Decode(b).Some? ==> Opcode(Decode(b).value) == b
  {
    if Decode(b).Some? {
      match Decode(b).value
      case SetEntireDisplayResume =>
      case SetEntireDisplayOn =>
      case SetDisplayNormal =>
      case SetDisplayInverse =>
      case SetDisplayOff =>
      case SetDisplayOn =>
      case ReadModifyWrite =>
      case End =>
      case Nop =>
      case SetBreathingLight =>
      case AddHorizontalScrollSetup =>
      case HorizontalScrollSetup =>
      case SetScrollMode =>
      case SetHorizontalScroll =>
      case SetContrastControl =>
      case SetIrefResistor =>
      case SetDcDcControl =>
      case SetSegPadsHardwareConfig =>
      case SetMultiplexRatio =>
      case SetDisplayOffset =>
      case SetDisplayClockDivide =>
      case SetPreChargePeriod =>
      case SetVcomDeselectLevel =>
      case SetRowNonOverlap =>
      case SetLowerColumnAddress =>
      case SetHigherColumnAddress =>
      case SetPumpVoltage =>
      case SetDisplayStartLine =>
      case SetPageAddress =>
      case SetSegmentRemap =>
      case SetCommonOutputScanDir =>
      case SetAdaptivePowerSave =>
    }
  }

  /** No two instructions share a discriminant, so the conversion into bytes is injective. */
  lemma OpcodeInjective(i: Instruction, j: Instruction)
    ensures Opcode(i) == Opcode(j) ==> i == j
  {
    DecodeOpcode(i);
    DecodeOpcode(j);
  }

  /** The two column-address opcodes have a zero low nibble: OR-ing in a nibble lands in
      0x00..0x0F and 0x10..0x1F respectively, keeps the nibble readable, and the ranges are disjoint. */
  lemma ColumnOpcodeRanges(n: byte, m: byte)
    requires n < 16 && m < 16
    ensures Opcode(SetLowerColumnAddress) | n == n
    ensures 0x10 <= Opcode(SetHigherColumnAddress) | m <= 0x1F
    ensures (Opcode(SetHigherColumnAddress) | m) & 0x0F == m
    ensures Opcode(SetLowerColumnAddress) | n != Opcode(SetHigherColumnAddress) | m
  {
  }

  /** The page-address opcode has a zero low nibble, so OR-ing a page 0..7 gives 0xB0..0xB7 and the
      page can be read back from the low bits. */
  lemma PageOpcodeRange(p: byte)
    requires p <= 7
    ensures 0xB0 <= Opcode(SetPageAddress) | p <= 0xB7
    ensures (Opcode(SetPageAddress) | p) & 0x07 == p
  {
  }

  /** The opcodes the initialisation sequence OR-combines with an argument. */
  lemma InitCombinedOpcodes()
    ensures Opcode(SetDisplayStartLine) | 0x00 == 0x40
    ensures Opcode(SetPumpVoltage) | 0x02 == 0x32
    ensures Opcode(SetSegmentRemap) | 0x01 == 0xA1
    ensures Opcode(SetCommonOutputScanDir) | 0x08 == 0xC8
  {
  }
}
