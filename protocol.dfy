/** What the sequencer puts on the bus (src/lib.rs): the argument encodings of the page, column and
    breathing-light commands, and the step list of each operation, against which the methods of
    the driver class are proved. */
module Protocol {

  import opened Wrappers
  import opened Instructions
  import opened Geometry
  import opened Trace

  // ---------------------------------------------------------------- column address

  /** The column the controller assembles from a (lower, higher) nibble command pair. */
  function ColumnOf(lower: byte, higher: byte): nat
  {
    (lower & 0x0F) as nat + 16 * (higher & 0x0F) as nat
  }

  /** The command bytes set_column_address writes: nothing above column 127, otherwise the
      lower-nibble command and then the higher-nibble command. */
  function ColumnAddressCommands(column: byte): (bs: seq<byte>)
    ensures |bs| == if column > 127 then 0 else 2
  {
    if column > 127 then []
    else
      var lowerNibble := column & 0x0F;
      var higherNibble := (column >> 4) & 0x0F;
      [Opcode(SetLowerColumnAddress) | lowerNibble, Opcode(SetHigherColumnAddress) | higherNibble]
  }

  /** The two command bytes, as set_column_address computes them from the column. */
  lemma ColumnAddressIs(column: byte, lower: byte, higher: byte)
    requires column <= 127
    requires lower == Opcode(SetLowerColumnAddress) | (column & 0x0F)
    requires higher == Opcode(SetHigherColumnAddress) | ((column >> 4) & 0x0F)
    ensures ColumnAddressCommands(column) == [lower, higher]
  {
  }

  /** For an addressable column the first byte is a lower-column command and the second a
      higher-column command, and the controller reassembles exactly that column from them. */
  lemma ColumnAddressRoundTrip(column: byte)
    requires column <= 127
    ensures var bs := ColumnAddressCommands(column);
            && bs[0] & 0xF0 == Opcode(SetLowerColumnAddress)
            && bs[1] & 0xF0 == Opcode(SetHigherColumnAddress)
            && ColumnOf(bs[0], bs[1]) == column as nat
  {
  }

  // ---------------------------------------------------------------- page address

  /** The command bytes set_page writes: nothing above page 7, otherwise one page-address
      command. */
  function PageCommands(page: byte): (bs: seq<byte>)
    ensures |bs| == if page > 7 then 0 else 1
  {
    if page > 7 then [] else [Opcode(SetPageAddress) | page]
  }

  /** For a page 0..7 the command is a page-address command whose low three bits are the page. */
  lemma PageCommandRoundTrip(page: byte)
    requires page <= 7
    ensures PageCommands(page)[0] & 0xF8 == Opcode(SetPageAddress)
    ensures PageCommands(page)[0] & 0x07 == page
  {
  }

  // ---------------------------------------------------------------- breathing light

  /** The brightness range of the breathing effect, with its two-bit selector. */
  datatype MaxBrightness = Max256 | Max128 | Max64 | Max32
  {
    function Code(): (c: byte)
      ensures c <= 3
    {
      match this
      case Max256 => 0x00
      case Max128 => 0x01
      case Max64 => 0x02
      case Max32 => 0x03
    }
  }

  /** The parameter byte of the breathing-light command: bit 7 the enable flag, bits 4..3 the
      brightness selector, bits 2..0 the number of frames less one; bits 6..5 stay clear. */
  function BreathingParameter(on: bool, maxBrightness: MaxBrightness, frames: byte): (b: byte)
    requires 1 <= frames <= 8
    ensures (b & 0x80 != 0) == on
    ensures (b >> 3) & 0x0F == maxBrightness.Code()
    ensures b & 0x07 == frames - 1
  {
    var instruction: byte := if on then 1 << 7 else 0;
    var instruction := instruction | (maxBrightness.Code() << 3);
    instruction | (frames - 1)
  }

  /** Reads a breathing-light parameter byte back as (enable, brightness, frames). */
  function DecodeBreathing(b: byte): (bool, MaxBrightness, byte)
  {
    var sel := (b >> 3) & 0x03;
    var mb := if sel == 0 then Max256 else if sel == 1 then Max128 else if sel == 2 then Max64 else Max32;
    (b & 0x80 != 0, mb, (b & 0x07) + 1)
  }

  /** The parameter byte decodes back to the arguments it was built from. */
  lemma BreathingRoundTrip(on: bool, maxBrightness: MaxBrightness, frames: byte)
    requires 1 <= frames <= 8
    ensures DecodeBreathing(BreathingParameter(on, maxBrightness, frames)) == (on, maxBrightness, frames)
  {
    var b := BreathingParameter(on, maxBrightness, frames);
    assert (b >> 3) & 0x03 == maxBrightness.Code();
  }

  /** Enabled, 64-step brightness range, 4 frames: the parameter byte 0b1001_0011. */
  lemma BreathingExample()
    ensures BreathingParameter(true, Max64, 4) == 0x93
  {
  }

  /** The command bytes set_breathing_effect writes: nothing for 0 or more than 8 frames,
      otherwise the breathing-light opcode followed by the parameter byte. */
  function BreathingCommands(on: bool, maxBrightness: MaxBrightness, frames: byte): (bs: seq<byte>)
    ensures frames == 0 || frames > 8 ==> bs == []
    ensures 1 <= frames <= 8 ==> |bs| == 2 && Decode(bs[0]) == Some(SetBreathingLight)
                                 && DecodeBreathing(bs[1]) == (on, maxBrightness, frames)
  {
    if frames == 0 || frames > 8 then []
    else
      BreathingRoundTrip(on, maxBrightness, frames);
      DecodeOpcode(SetBreathingLight);
      [Opcode(SetBreathingLight), BreathingParameter(on, maxBrightness, frames)]
  }

  // ---------------------------------------------------------------- hard reset

  /** The reset pulse: line high, 1 ms, low, 50 us, high, 1 ms. */
  function HardResetSteps(): seq<Event>
  {
    [PinHigh, DelayMs(1), PinLow, DelayUs(50), PinHigh, DelayMs(1)]
  }

  /** The pulse drives the line high, then low, then high again; it is held low for at least
      10 us and ends high after at least 1 ms. */
  lemma HardResetPulse()
    ensures |HardResetSteps()| == 6
    ensures [HardResetSteps()[0], HardResetSteps()[2], HardResetSteps()[4]] == [PinHigh, PinLow, PinHigh]
    ensures forall i :: 0 <= i < 6 && i % 2 == 1 ==> HardResetSteps()[i].DelayMs? || HardResetSteps()[i].DelayUs?
    ensures HardResetSteps()[1].DelayMs? && HardResetSteps()[1].ms >= 1
    ensures HardResetSteps()[3].DelayUs? && HardResetSteps()[3].us >= 10
    ensures HardResetSteps()[5].DelayMs? && HardResetSteps()[5].ms >= 1
  {
  }

  /** The reset only drives the pin and waits, so it fails only when driving the pin fails, with
      that pin's own error, and with the no-reset-pin stand-in it cannot fail at all. */
  lemma HardResetErrors<E>(env: Env<E>, history: seq<Event>)
    ensures var o := Run(env, history, HardResetSteps());
            o.result.Err? ==>
              && |history| <= |o.trace| < |history| + |HardResetSteps()|
              && var ev := HardResetSteps()[|o.trace| - |history|];
                 && (ev.PinHigh? || ev.PinLow?)
                 && env.pinFault(o.trace, ev).Some?
                 && o.result.error == Pin(env.pinFault(o.trace, ev).value)
  {
    var steps := HardResetSteps();
    RunEmitsPrefix(env, history, steps);
    assert forall i :: 0 <= i < |steps| ==> !steps[i].Cmd? && !steps[i].Data?;
  }

  /** With the no-reset-pin stand-in the reset cannot fail: it emits all of its steps. */
  lemma HardResetWithoutPin<E>(env: Env<E>, history: seq<Event>)
    ensures Run(env.(pinFault := NoResetPin()), history, HardResetSteps()) == Outcome(history + HardResetSteps(), Ok)
  {
    var steps := HardResetSteps();
    var quiet := env.(pinFault := NoResetPin());
    RunEmitsPrefix(quiet, history, steps);
    assert forall h, i :: 0 <= i < |steps| ==> Fault(quiet, h, steps[i]).None?;
    var q := Run(quiet, history, steps);
    assert q.result.Ok?;
    assert steps[..6] == steps;
  }

  // ---------------------------------------------------------------- flush

  /** Where page `page` of the framebuffer starts. */
  function PageStart(size: DisplaySize, page: nat): (start: nat)
    requires page < size.Pages()
    ensures start + size.Width() <= size.BufferSize()
  {
    page * size.Width()
  }

  /** The steps flush takes for one page: address the page, address the column at the panel's
      offset, then send the page's bytes as one burst. */
  function PageGroup(size: DisplaySize, buffer: seq<byte>, page: nat): seq<Event>
    requires |buffer| == size.BufferSize() && page < size.Pages()
  {
    Cmds(PageCommands(page as byte)) + Cmds(ColumnAddressCommands(size.OffsetX()))
      + [Data(buffer[PageStart(size, page)..PageStart(size, page) + size.Width()])]
  }

  /** The steps flush takes from page `page` to the last. */
  function FlushFrom(size: DisplaySize, buffer: seq<byte>, page: nat): seq<Event>
    requires |buffer| == size.BufferSize() && page <= size.Pages()
    decreases size.Pages() - page
  {
    if page == size.Pages() then [] else PageGroup(size, buffer, page) + FlushFrom(size, buffer, page + 1)
  }

  /** The steps flush takes. */
  function FlushSteps(size: DisplaySize, buffer: seq<byte>): seq<Event>
    requires |buffer| == size.BufferSize()
  {
    FlushFrom(size, buffer, 0)
  }

  /** Unfolding one page: flush from `page` is that page's three parts, then the pages after it. */
  lemma FlushFromUnfold(size: DisplaySize, buffer: seq<byte>, page: nat)
    requires |buffer| == size.BufferSize() && page < size.Pages()
    ensures FlushFrom(size, buffer, page)
            == Cmds(PageCommands(page as byte)) + Cmds(ColumnAddressCommands(size.OffsetX()))
               + [Data(buffer[PageStart(size, page)..PageStart(size, page) + size.Width()])]
               + FlushFrom(size, buffer, page + 1)
  {
  }

  /** The i-th step of a flush, described directly: every page is four steps, the page-address
      command, the two column-address commands for the offset, and the page's data burst. */
  function FlushEvent(size: DisplaySize, buffer: seq<byte>, i: nat): Event
    requires |buffer| == size.BufferSize() && i < 4 * size.Pages()
  {
    var page := i / 4;
    var columns := ColumnAddressCommands(size.OffsetX());
    if i % 4 == 0 then Cmd(Opcode(SetPageAddress) | page as byte)
    else if i % 4 == 1 then Cmd(columns[0])
    else if i % 4 == 2 then Cmd(columns[1])
    else Data(buffer[PageStart(size, page)..PageStart(size, page) + size.Width()])
  }

  /** A page group is four steps: the page-address command, the two column-address commands
      for the offset, and the page's burst. */
  lemma PageGroupShape(size: DisplaySize, buffer: seq<byte>, page: nat)
    requires |buffer| == size.BufferSize() && page < size.Pages()
    ensures var g, columns := PageGroup(size, buffer, page), ColumnAddressCommands(size.OffsetX());
            && |g| == 4
            && g[0] == Cmd(Opcode(SetPageAddress) | page as byte)
            && g[1] == Cmd(columns[0])
            && g[2] == Cmd(columns[1])
            && g[3] == Data(buffer[PageStart(size, page)..PageStart(size, page) + size.Width()])
  {
  }

  /** Step i % 4 of page i / 4's group is step i of the direct description. */
  lemma PageGroupAt(size: DisplaySize, buffer: seq<byte>, i: nat)
    requires |buffer| == size.BufferSize() && i < 4 * size.Pages()
    ensures |PageGroup(size, buffer, i / 4)| == 4
    ensures PageGroup(size, buffer, i / 4)[i % 4] == FlushEvent(size, buffer, i)
  {
    PageGroupShape(size, buffer, i / 4);
  }

  lemma {:induction false} FlushFromLength(size: DisplaySize, buffer: seq<byte>, page: nat)
    requires |buffer| == size.BufferSize() && page <= size.Pages()
    ensures |FlushFrom(size, buffer, page)| == 4 * (size.Pages() - page)
    decreases size.Pages() - page
  {
    if page < size.Pages() {
      PageGroupShape(size, buffer, page);
      FlushFromLength(size, buffer, page + 1);
    }
  }

  /** Step k of the q-th group after `page` is step k of page `page + q`'s group. */
  lemma {:induction false} FlushFromAt(size: DisplaySize, buffer: seq<byte>, page: nat, q: nat, k: nat)
    requires |buffer| == size.BufferSize() && page + q < size.Pages() && k < 4
    ensures |FlushFrom(size, buffer, page)| == 4 * (size.Pages() - page)
    ensures FlushFrom(size, buffer, page)[4 * q + k] == PageGroup(size, buffer, page + q)[k]
    decreases q
  {
    FlushFromLength(size, buffer, page);
    var g, rest := PageGroup(size, buffer, page), FlushFrom(size, buffer, page + 1);
    assert |g| == 4 by {
      PageGroupShape(size, buffer, page);
    }
    if q == 0 {
      assert (g + rest)[k] == g[k];
    } else {
      FlushFromAt(size, buffer, page + 1, q - 1, k);
      assert (g + rest)[4 * q + k] == rest[4 * (q - 1) + k];
    }
  }

  /** Step i of a flush is step i % 4 of page i / 4's group. */
  lemma FlushStepAt(size: DisplaySize, buffer: seq<byte>, i: nat)
    requires |buffer| == size.BufferSize() && i < 4 * size.Pages()
    ensures |FlushSteps(size, buffer)| == 4 * size.Pages()
    ensures FlushSteps(size, buffer)[i] == FlushEvent(size, buffer, i)
  {
    var page, k := i / 4, i % 4;
    assert i == 4 * page + k && page < size.Pages();
    FlushFromAt(size, buffer, 0, page, k);
    PageGroupAt(size, buffer, i);
  }

  /** The fourth step of page `page`'s group is the burst of that page's bytes. */
  lemma FlushBurst(size: DisplaySize, buffer: seq<byte>, page: nat)
    requires |buffer| == size.BufferSize() && page < size.Pages()
    ensures |FlushSteps(size, buffer)| == 4 * size.Pages()
    ensures FlushSteps(size, buffer)[4 * page + 3]
            == Data(buffer[PageStart(size, page)..PageStart(size, page) + size.Width()])
  {
    FlushFromAt(size, buffer, 0, page, 3);
    PageGroupShape(size, buffer, page);
  }

  /** Flush emits exactly one four-step group per page, in increasing page order from 0: page
      address, the column pair for the offset, and one burst of the page's `Width()` bytes. */
  lemma FlushShape(size: DisplaySize, buffer: seq<byte>)
    requires |buffer| == size.BufferSize()
    ensures |FlushSteps(size, buffer)| == 4 * size.Pages()
    ensures forall i :: 0 <= i < |FlushSteps(size, buffer)| ==> FlushSteps(size, buffer)[i] == FlushEvent(size, buffer, i)
  {
    FlushFromLength(size, buffer, 0);
    forall i | 0 <= i < |FlushSteps(size, buffer)|
      ensures FlushSteps(size, buffer)[i] == FlushEvent(size, buffer, i)
    {
      FlushStepAt(size, buffer, i);
    }
  }

  /** All data bursts of a trace, concatenated in order. */
  function DataOf(events: seq<Event>): seq<byte>
  {
    if events == [] then []
    else (if events[0].Data? then events[0].bytes else []) + DataOf(events[1..])
  }

  lemma {:induction false} DataOfAppend(a: seq<Event>, b: seq<Event>)
    ensures DataOf(a + b) == DataOf(a) + DataOf(b)
  {
    if a == [] {
      assert a + b == b;
    } else {
      assert (a + b)[1..] == a[1..] + b;
      DataOfAppend(a[1..], b);
    }
  }

  lemma {:induction false} DataOfCmds(bs: seq<byte>)
    ensures DataOf(Cmds(bs)) == []
  {
    if bs != [] {
      assert Cmds(bs)[1..] == Cmds(bs[1..]);
      DataOfCmds(bs[1..]);
    }
  }

  /** The only data in a page group is the page's burst. */
  lemma PageGroupData(size: DisplaySize, buffer: seq<byte>, page: nat)
    requires |buffer| == size.BufferSize() && page < size.Pages()
    ensures DataOf(PageGroup(size, buffer, page)) == buffer[PageStart(size, page)..PageStart(size, page) + size.Width()]
  {
    var start, w := PageStart(size, page), size.Width();
    var pageCmds, columnCmds := Cmds(PageCommands(page as byte)), Cmds(ColumnAddressCommands(size.OffsetX()));
    var burst := [Data(buffer[start..start + w])];
    assert DataOf(pageCmds + columnCmds) == [] by {
      DataOfCmds(PageCommands(page as byte));
      DataOfCmds(ColumnAddressCommands(size.OffsetX()));
      DataOfAppend(pageCmds, columnCmds);
    }
    assert DataOf(burst) == buffer[start..start + w] by {
      assert burst[1..] == [];
    }
    DataOfAppend(pageCmds + columnCmds, burst);
  }

  lemma SlicesJoin(s: seq<byte>, a: nat, b: nat)
    requires a <= b <= |s|
    ensures s[a..b] + s[b..] == s[a..]
  {
    assert s[a..] == s[a..b] + s[b..];
  }

  /** The next page starts right after this one's Width() bytes. */
  lemma NextPageStart(size: DisplaySize, page: nat)
    requires page < size.Pages()
    ensures (page + 1) * size.Width() == PageStart(size, page) + size.Width()
  {
  }

  lemma {:induction false} FlushFromData(size: DisplaySize, buffer: seq<byte>, page: nat)
    requires |buffer| == size.BufferSize() && page <= size.Pages()
    ensures DataOf(FlushFrom(size, buffer, page)) == buffer[page * size.Width()..]
    decreases size.Pages() - page
  {
    if page == size.Pages() {
      BufferSizeIsArea(size);
    } else {
      var start, w := PageStart(size, page), size.Width();
      var group, rest := PageGroup(size, buffer, page), FlushFrom(size, buffer, page + 1);
      calc {
        DataOf(FlushFrom(size, buffer, page));
        DataOf(group + rest);
        { DataOfAppend(group, rest); }
        DataOf(group) + DataOf(rest);
        { PageGroupData(size, buffer, page); FlushFromData(size, buffer, page + 1); NextPageStart(size, page); }
        buffer[start..start + w] + buffer[start + w..];
        { SlicesJoin(buffer, start, start + w); }
        buffer[start..];
      }
    }
  }

  /** The data bursts of a flush are the whole framebuffer, in order. */
  lemma FlushDataIsBuffer(size: DisplaySize, buffer: seq<byte>)
    requires |buffer| == size.BufferSize()
    ensures DataOf(FlushSteps(size, buffer)) == buffer
  {
    FlushFromData(size, buffer, 0);
  }

  // ---------------------------------------------------------------- clear and init

  /** clear sends the flush of an all-zero framebuffer. */
  function ClearSteps(size: DisplaySize): seq<Event>
  {
    FlushSteps(size, Zeros(size.BufferSize()))
  }

  /** The multiplex-ratio argument init sends: the panel height less one, as a byte. */
  function MultiplexArgument(size: DisplaySize): (m: byte)
    ensures m as int == size.Height() - 1
  {
    match size
    case Size128x64 => 63
    case Size88x48 => 47
  }

  /** The one-time configuration init writes after the reset, built from the instruction table. */
  function InitConfig(size: DisplaySize): seq<byte>
  {
    [ Opcode(SetDisplayOff)
    , Opcode(SetDisplayClockDivide), 0x80
    , Opcode(SetMultiplexRatio), MultiplexArgument(size)
    , Opcode(SetDisplayOffset), 0x00
    , Opcode(SetDisplayStartLine) | 0x00
    , Opcode(SetDcDcControl), 0x8B
    , Opcode(SetPumpVoltage) | 0x02
    , Opcode(SetSegmentRemap) | 0x01
    , Opcode(SetCommonOutputScanDir) | 0x08
    , Opcode(SetSegPadsHardwareConfig)
    , Opcode(SetContrastControl), 0x80
    , Opcode(SetPreChargePeriod), 0x22
    , Opcode(SetVcomDeselectLevel), 0x35
    ]
  }

  /** What init writes last: resume from RAM, normal display, display on. */
  function DisplayOnCommands(): seq<byte>
  {
    [Opcode(SetEntireDisplayResume), Opcode(SetDisplayNormal), Opcode(SetDisplayOn)]
  }

  /** The steps of init up to (not including) the clear. */
  function InitPrelude(size: DisplaySize): seq<Event>
  {
    HardResetSteps() + Cmds(InitConfig(size))
  }

  /** The steps init takes. */
  function InitSteps(size: DisplaySize): seq<Event>
  {
    InitPrelude(size) + ClearSteps(size) + Cmds(DisplayOnCommands())
  }

  /** The configuration bytes, read off the instruction table. */
  lemma InitConfigBytes(size: DisplaySize)
    ensures InitConfig(size)
            == [0xAE, 0xD5, 0x80, 0xA8, MultiplexArgument(size), 0xD3, 0x00, 0x40, 0xAD, 0x8B,
                0x32, 0xA1, 0xC8, 0xA2, 0x81, 0x80, 0xD9, 0x22, 0xDB, 0x35]
  {
    InitCombinedOpcodes();
    assert Opcode(SetDisplayOff) == 0xAE && Opcode(SetDisplayClockDivide) == 0xD5 && Opcode(SetMultiplexRatio) == 0xA8
        && Opcode(SetDisplayOffset) == 0xD3 && Opcode(SetDcDcControl) == 0xAD && Opcode(SetSegPadsHardwareConfig) == 0xA2
        && Opcode(SetContrastControl) == 0x81 && Opcode(SetPreChargePeriod) == 0xD9 && Opcode(SetVcomDeselectLevel) == 0xDB;
  }

  /** The init trace spelled out in bytes: the reset pulse, the twenty configuration bytes (the
      multiplex ratio being the panel height less one), the blank flush, then 0xA4, 0xA6, 0xAF. */
  lemma InitStepsBytes(size: DisplaySize)
    ensures InitSteps(size)
            == HardResetSteps()
               + Cmds([0xAE, 0xD5, 0x80, 0xA8, MultiplexArgument(size), 0xD3, 0x00, 0x40, 0xAD, 0x8B,
                       0x32, 0xA1, 0xC8, 0xA2, 0x81, 0x80, 0xD9, 0x22, 0xDB, 0x35])
               + ClearSteps(size)
               + Cmds([0xA4, 0xA6, 0xAF])
  {
    InitConfigBytes(size);
    assert DisplayOnCommands() == [0xA4, 0xA6, 0xAF];
  }

  /** No step of a flush is the display-on command. */
  lemma FlushEventNotDisplayOn(size: DisplaySize, buffer: seq<byte>, i: nat)
    requires |buffer| == size.BufferSize() && i < 4 * size.Pages()
    ensures FlushEvent(size, buffer, i) != Cmd(0xAF)
  {
    if i % 4 == 0 {
      PageOpcodeRange((i / 4) as byte);
    }
  }

  lemma ClearNotDisplayOn(size: DisplaySize)
    ensures Cmd(0xAF) !in ClearSteps(size)
  {
    var zeros := Zeros(size.BufferSize());
    FlushShape(size, zeros);
    forall i | 0 <= i < |ClearSteps(size)|
      ensures ClearSteps(size)[i] != Cmd(0xAF)
    {
      FlushEventNotDisplayOn(size, zeros, i);
    }
  }

  lemma PreludeNotDisplayOn(size: DisplaySize)
    ensures Cmd(0xAF) !in InitPrelude(size)
  {
    InitConfigBytes(size);
    var cfg := InitConfig(size);
    assert 0xAF !in cfg;
    assert Cmd(0xAF) !in Cmds(cfg);
  }

  /** Of the three final commands only the last is display-on. */
  lemma DisplayOnCommandsLast()
    ensures var on := Cmds(DisplayOnCommands());
            |on| == 3 && on[2] == Cmd(0xAF) && Cmd(0xAF) !in on[..2]
  {
    var on := Cmds(DisplayOnCommands());
    assert on[..2] == [Cmd(0xA4), Cmd(0xA6)];
  }

  /** The last element of a + b is b's last, and what comes before it is a followed by the rest of b. */
  lemma AllButLast(a: seq<Event>, b: seq<Event>)
    requires |b| > 0
    ensures (a + b)[|a + b| - 1] == b[|b| - 1]
    ensures (a + b)[..|a + b| - 1] == a + b[..|b| - 1]
  {
    assert (a + b)[..|a + b| - 1] == a + b[..|b| - 1];
  }

  /** Display-on is the last step of init and occurs nowhere before it: in particular it comes
      after every data burst. */
  lemma DisplayOnLast(size: DisplaySize)
    ensures |InitSteps(size)| > 0 && InitSteps(size)[|InitSteps(size)| - 1] == Cmd(0xAF)
    ensures Cmd(0xAF) !in InitSteps(size)[..|InitSteps(size)| - 1]
  {
    var pre, clr, on := InitPrelude(size), ClearSteps(size), Cmds(DisplayOnCommands());
    PreludeNotDisplayOn(size);
    ClearNotDisplayOn(size);
    DisplayOnCommandsLast();
    AllButLast(pre + clr, on);
  }

  /** Whatever the oracle does, the display is switched on only by an init that succeeded. */
  lemma DisplayOnOnlyAfterSuccess<E>(env: Env<E>, history: seq<Event>, size: DisplaySize)
    ensures var o := Run(env, history, InitSteps(size));
            Cmd(0xAF) in o.trace[|history|..] ==> o.result.Ok?
  {
    DisplayOnLast(size);
    LastStepOnlyAfterSuccess(env, history, InitSteps(size), Cmd(0xAF));
  }
}
