/** The driver object (src/lib.rs `Ch1115`, with its drawing-surface side from src/graphics.rs):
    a framebuffer it updates in place and the trace of what it has done on the bus and the reset
    line. Every operation is proved to perform exactly its step list from the Protocol module. */
module Driver {

  import opened Wrappers
  import opened Instructions
  import opened Geometry
  import opened Trace
  import opened Protocol
  import opened Graphics

  class Ch1115<E> {
    /** The panel variant, fixing width, height, column offset and buffer length. */
    const size: DisplaySize
    /** How the display interface and the reset pin respond to each step. */
    const env: Env<E>
    /** The framebuffer: one bit per pixel, page by page. */
    const buffer: array<byte>
    /** Everything emitted so far, in order. */
    var trace: seq<Event>

    ghost predicate Valid()
    {
      buffer.Length == size.BufferSize()
    }

    /** new: the variant's zeroed buffer, nothing emitted yet. */
    constructor (size: DisplaySize, env: Env<E>)
      ensures Valid() && this.size == size && this.env == env
      ensures fresh(buffer) && buffer[..] == CreateBuffer(size)
      ensures trace == []
    {
      this.size := size;
      this.env := env;
      var zeroed := new byte[size.BufferSize()](_ => 0);
      assert zeroed[..] == CreateBuffer(size);
      buffer := zeroed;
      trace := [];
    }

    /** OriginDimensions::size: the panel's width and height, i.e. the extent of the points that
        are drawn. */
    function Size(): (d: Dimensions)
      ensures forall p: Point :: InBounds(size, p) <==> 0 <= p.x < d.width && 0 <= p.y < d.height
    {
      Dimensions(size.Width(), size.Height())
    }

    // ------------------------------------------------------------ collaborators

    /** write_command: one command byte on the bus; any bus failure becomes DisplayError. */
    method WriteCommand(command: byte) returns (r: Result<E>)
      modifies this
      ensures Outcome(trace, r) == Step(env, old(trace), Cmd(command))
    {
      if env.busFails(trace, Cmd(command)) {
        r := Err(DisplayError);
      } else {
        trace := trace + [Cmd(command)];
        r := Ok;
      }
    }

    /** One data burst on the bus, as flush sends each page. */
    method SendData(bytes: seq<byte>) returns (r: Result<E>)
      modifies this
      ensures Outcome(trace, r) == Step(env, old(trace), Data(bytes))
    {
      if env.busFails(trace, Data(bytes)) {
        r := Err(DisplayError);
      } else {
        trace := trace + [Data(bytes)];
        r := Ok;
      }
    }

    /** Drives the reset line high or low; a pin error is wrapped in Pin. */
    method SetResetPin(high: bool) returns (r: Result<E>)
      modifies this
      ensures Outcome(trace, r) == Step(env, old(trace), if high then PinHigh else PinLow)
    {
      var ev := if high then PinHigh else PinLow;
      match env.pinFault(trace, ev)
      case Some(e) =>
        r := Err(Pin(e));
      case None =>
        trace := trace + [ev];
        r := Ok;
    }

    method WaitMs(ms: nat)
      modifies this
      ensures trace == old(trace) + [DelayMs(ms)]
    {
      trace := trace + [DelayMs(ms)];
    }

    method WaitUs(us: nat)
      modifies this
      ensures trace == old(trace) + [DelayUs(us)]
    {
      trace := trace + [DelayUs(us)];
    }

    // ------------------------------------------------------------ addressing and effects

    /** set_column_address: nothing above column 127, otherwise the two nibble commands. */
    method SetColumnAddress(column: byte) returns (r: Result<E>)
      modifies this
      ensures Outcome(trace, r) == Run(env, old(trace), Cmds(ColumnAddressCommands(column)))
    {
      if column > 127 {
        assert ColumnAddressCommands(column) == [];
        return Ok;
      }
      var lowerNibble := column & 0x0F;
      var higherNibble := (column >> 4) & 0x0F;
      var lower, higher := Opcode(SetLowerColumnAddress) | lowerNibble, Opcode(SetHigherColumnAddress) | higherNibble;
      ColumnAddressIs(column, lower, higher);
      RunTwoCmds(env, trace, lower, higher);
      :- WriteCommand(lower);
      :- WriteCommand(higher);
      r := Ok;
    }

    /** set_breathing_effect: nothing for 0 or more than 8 frames, otherwise the opcode and the
        parameter byte. */
    method SetBreathingEffect(on: bool, maxBrightness: MaxBrightness, frames: byte) returns (r: Result<E>)
      modifies this
      ensures Outcome(trace, r) == Run(env, old(trace), Cmds(BreathingCommands(on, maxBrightness, frames)))
    {
      if frames == 0 || frames > 8 {
        return Ok;
      }
      var instruction := BreathingParameter(on, maxBrightness, frames);
      RunTwoCmds(env, trace, Opcode(SetBreathingLight), instruction);
      :- WriteCommand(Opcode(SetBreathingLight));
      :- WriteCommand(instruction);
      r := Ok;
    }

    /** set_page: nothing above page 7, otherwise one page-address command. */
    method SetPage(page: byte) returns (r: Result<E>)
      modifies this
      ensures Outcome(trace, r) == Run(env, old(trace), Cmds(PageCommands(page)))
    {
      if page > 7 {
        return Ok;
      }
      RunOneCmd(env, trace, Opcode(SetPageAddress) | page);
      r := WriteCommand(Opcode(SetPageAddress) | page);
    }

    // ------------------------------------------------------------ sequences

    /** hard_reset: the reset pulse; it stops at the first pin step that fails. */
    method HardReset() returns (r: Result<E>)
      modifies this
      ensures Outcome(trace, r) == Run(env, old(trace), HardResetSteps())
    {
      assert HardResetSteps() == [PinHigh] + ([DelayMs(1)] + ([PinLow] + ([DelayUs(50)] + ([PinHigh] + [DelayMs(1)]))));
      RunCons(env, trace, PinHigh, [DelayMs(1)] + ([PinLow] + ([DelayUs(50)] + ([PinHigh] + [DelayMs(1)]))));
      :- SetResetPin(true);
      RunCons(env, trace, DelayMs(1), [PinLow] + ([DelayUs(50)] + ([PinHigh] + [DelayMs(1)])));
      WaitMs(1);
      RunCons(env, trace, PinLow, [DelayUs(50)] + ([PinHigh] + [DelayMs(1)]));
      :- SetResetPin(false);
      RunCons(env, trace, DelayUs(50), [PinHigh] + [DelayMs(1)]);
      WaitUs(50);
      RunCons(env, trace, PinHigh, [DelayMs(1)]);
      :- SetResetPin(true);
      RunCons(env, trace, DelayMs(1), []);
      WaitMs(1);
      r := Ok;
    }

    /** flush: page by page, the page command, the column pair for the panel's offset and the
        page's bytes; it stops at the first failing write and never changes the buffer. */
    method Flush() returns (r: Result<E>)
      requires Valid()
      modifies this
      ensures buffer[..] == old(buffer[..])
      ensures Outcome(trace, r) == Run(env, old(trace), FlushSteps(size, buffer[..]))
    {
      var pages := size.Height() / 8;
      var width := size.Width();
      for page := 0 to pages
        invariant Run(env, old(trace), FlushSteps(size, buffer[..])) == Run(env, trace, FlushFrom(size, buffer[..], page))
      {
        var start := page * width;
        var end := start + width;
        assert start == PageStart(size, page);
        FlushFromUnfold(size, buffer[..], page);
        RunThenThenStep(env, trace, Cmds(PageCommands(page as byte)), Cmds(ColumnAddressCommands(size.OffsetX())),
                        Data(buffer[start..end]), FlushFrom(size, buffer[..], page + 1));
        :- SetPage(page as byte);
        :- SetColumnAddress(size.OffsetX());
        :- SendData(buffer[start..end]);
      }
      r := Ok;
    }

    /** clear: zero the buffer, then flush it. */
    method Clear() returns (r: Result<E>)
      requires Valid()
      modifies this, buffer
      ensures buffer[..] == Zeros(size.BufferSize())
      ensures Outcome(trace, r) == Run(env, old(trace), ClearSteps(size))
    {
      forall i | 0 <= i < buffer.Length {
        buffer[i] := 0;
      }
      assert buffer[..] == Zeros(size.BufferSize());
      :- Flush();
      r := Ok;
    }

    /** A run of write_command calls, each behind a `?`: the commands in order, stopping at the
        first one the bus rejects. */
    method WriteCommands(commands: seq<byte>) returns (r: Result<E>)
      modifies this
      ensures Outcome(trace, r) == Run(env, old(trace), Cmds(commands))
      decreases |commands|
    {
      if commands == [] {
        return Ok;
      }
      RunCmdsAt(env, trace, commands, 0);
      :- WriteCommand(commands[0]);
      r := WriteCommands(commands[1..]);
    }

    /** init: reset, the twenty configuration writes (InitConfig lists them in the order init
        makes them), clear, then resume, normal and display on. The buffer is zeroed exactly when
        the steps before the clear all succeed. */
    method Init() returns (r: Result<E>)
      requires Valid()
      modifies this, buffer
      ensures Outcome(trace, r) == Run(env, old(trace), InitSteps(size))
      ensures Run(env, old(trace), InitPrelude(size)).result.Ok? ==> buffer[..] == Zeros(size.BufferSize())
      ensures Run(env, old(trace), InitPrelude(size)).result.Err? ==> buffer[..] == old(buffer[..])
    {
      assert InitSteps(size) == InitPrelude(size) + (ClearSteps(size) + Cmds(DisplayOnCommands()));
      RunAppend(env, trace, InitPrelude(size), ClearSteps(size) + Cmds(DisplayOnCommands()));
      RunAppend(env, trace, HardResetSteps(), Cmds(InitConfig(size)));
      :- HardReset();
      :- WriteCommands(InitConfig(size));
      RunAppend(env, trace, ClearSteps(size), Cmds(DisplayOnCommands()));
      :- Clear();
      r := WriteCommands(DisplayOnCommands());
    }

    // ------------------------------------------------------------ drawing

    /** draw_iter: the pixels in order, each on the panel setting or clearing its bit, each off
        it skipped. Its error type is uninhabited, so it has no failing outcome.
        The guard at src/graphics.rs:47-49 reads `continue` when the point is inside the panel
        (and names `coord` where `point` is meant); taken literally it would draw nothing on the
        panel and index outside the buffer for points off it (Graphics.DrawPixelAsWritten). The
        intended guard, skipping the points off the panel, is what is modelled here. */
    method DrawIter(pixels: seq<Pixel>)
      requires Valid()
      modifies buffer
      ensures buffer[..] == DrawAll(size, old(buffer[..]), pixels)
    {
      var width := size.Width();
      var height := size.Height();
      for n := 0 to |pixels|
        invariant buffer[..] == DrawAll(size, old(buffer[..]), pixels[..n])
      {
        assert pixels[..n + 1][..n] == pixels[..n];
        var Pixel(point, color) := pixels[n];
        if !(point.x >= 0 && point.x < width && point.y >= 0 && point.y < height) {
          continue;
        }
        var x, y := point.x, point.y;
        var page := y / 8;
        var bitOffset := y % 8;
        var byteIndex := x + page * width;
        assert byteIndex == ByteIndex(size, point) && bitOffset == BitIndex(point);
        ghost var before := buffer[..];
        match color
        case On =>
          buffer[byteIndex] := buffer[byteIndex] | (1 << bitOffset);
        case Off =>
          buffer[byteIndex] := buffer[byteIndex] & !(1 << bitOffset);
        assert buffer[..] == before[byteIndex := WriteBit(before[byteIndex], bitOffset, color)];
      }
      assert pixels[..|pixels|] == pixels;
    }
  }

  /** Drawing only the top-left pixel on a blank panel sets bit 0 of byte 0 and nothing else. */
  lemma TopLeftPixelDrawn(size: DisplaySize)
    ensures DrawAll(size, CreateBuffer(size), [Pixel(Point(0, 0), On)]) == Zeros(size.BufferSize())[0 := 0x01]
  {
    var pixels := [Pixel(Point(0, 0), On)];
    assert pixels[..0] == [];
    assert WriteBit(0x00, 0, On) == 0x01;
  }

  /** Flushing that buffer (a blank panel with only the top-left pixel on): the first burst is
      page 0, starting with 0x01, and every other byte sent is 0x00. */
  lemma TopLeftPixelFlush(size: DisplaySize)
    ensures var drawn := Zeros(size.BufferSize())[0 := 0x01];
            && |FlushSteps(size, drawn)| > 3
            && FlushSteps(size, drawn)[3] == Data(drawn[..size.Width()])
            && DataOf(FlushSteps(size, drawn)) == drawn
            && drawn[0] == 0x01
            && forall i :: 1 <= i < |drawn| ==> drawn[i] == 0x00
  {
    var drawn := Zeros(size.BufferSize())[0 := 0x01];
    FlushBurst(size, drawn, 0);
    FlushDataIsBuffer(size, drawn);
  }
}
