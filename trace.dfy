/** The driver's collaborators (the command/data bus, the reset pin and the delay source) seen
    as an append-only trace of the steps they performed, with an oracle that decides which bus
    or pin step fails (src/lib.rs). */
module Trace {

  import opened Wrappers
  import opened Instructions

  /** One observable step: a single command byte, one data burst, a reset-pin level or a delay. */
  datatype Event =
    | Cmd(command: byte)
    | Data(bytes: seq<byte>)
    | PinHigh
    | PinLow
    | DelayMs(ms: nat)
    | DelayUs(us: nat)

  /** The driver's two error kinds: any bus failure collapses into DisplayError, while a pin
      failure carries the pin's own error value. */
  datatype Error<E> = DisplayError | Pin(pinError: E)

  /** The outcome of a sequencer operation; failure-compatible, so `:-` plays the part of `?`. */
  datatype Result<E> = Ok | Err(error: Error<E>)
  {
    predicate IsFailure()
    {
      Err?
    }

    function PropagateFailure(): Result<E>
      requires Err?
    {
      this
    }
  }

  /** The failure oracle: given what was already emitted and the step being attempted, whether
      the bus rejects it, and whether (and with which error) the reset pin rejects it. */
  datatype Env<E> = Env(busFails: (seq<Event>, Event) -> bool, pinFault: (seq<Event>, Event) -> Option<E>)

  /** The reset-pin stand-in for boards without a reset line: it never fails. */
  function NoResetPin<E>(): (seq<Event>, Event) -> Option<E>
  {
    (history: seq<Event>, ev: Event) => None
  }

  /** The trace after an operation, with what the operation returned. */
  datatype Outcome<E> = Outcome(trace: seq<Event>, result: Result<E>)

  /** How one attempted step fails, if it does: bus steps with DisplayError, pin steps with the
      pin's error wrapped in Pin; delays never fail. */
  function Fault<E>(env: Env<E>, history: seq<Event>, ev: Event): (f: Option<Error<E>>)
    ensures f.Some? && (ev.Cmd? || ev.Data?) ==> f.value == DisplayError
    ensures f.Some? ==> !ev.DelayMs? && !ev.DelayUs?
    ensures f.Some? && (ev.PinHigh? || ev.PinLow?) ==>
              env.pinFault(history, ev).Some? && f.value == Pin(env.pinFault(history, ev).value)
  {
    match ev
    case Cmd(_) => if env.busFails(history, ev) then Some(DisplayError) else None
    case Data(_) => if env.busFails(history, ev) then Some(DisplayError) else None
    case PinHigh => if env.pinFault(history, ev).Some? then Some(Pin(env.pinFault(history, ev).value)) else None
    case PinLow => if env.pinFault(history, ev).Some? then Some(Pin(env.pinFault(history, ev).value)) else None
    case DelayMs(_) => None
    case DelayUs(_) => None
  }

  /** Attempts one step: on success it is appended to the trace, on failure nothing is. */
  function Step<E>(env: Env<E>, history: seq<Event>, ev: Event): (o: Outcome<E>)
    ensures o.result.Ok? <==> Fault(env, history, ev).None?
    ensures o.result.Ok? ==> o.trace == history + [ev]
    ensures o.result.Err? ==> o.trace == history && o.result.error == Fault(env, history, ev).value
  {
    match Fault(env, history, ev)
    case None => Outcome(history + [ev], Ok)
    case Some(e) => Outcome(history, Err(e))
  }

  /** Performs the steps in order and stops at the first one that fails, as every `?` in the
      driver does. */
  function Run<E>(env: Env<E>, history: seq<Event>, steps: seq<Event>): (o: Outcome<E>)
    ensures |history| <= |o.trace|
    decreases |steps|
  {
    if steps == [] then Outcome(history, Ok)
    else
      var first := Step(env, history, steps[0]);
      if first.result.Err? then first else Run(env, first.trace, steps[1..])
  }

  /** What a run emits is always a prefix of its steps, each of which passed the oracle; it
      succeeds exactly when all of them were emitted, and otherwise it fails with the error of the
      first step left out: the run stops at the first failure. */
  lemma {:induction false} RunEmitsPrefix<E>(env: Env<E>, history: seq<Event>, steps: seq<Event>)
    ensures var o := Run(env, history, steps);
            && |o.trace| <= |history| + |steps|
            && o.trace == history + steps[..|o.trace| - |history|]
            && (forall j :: 0 <= j < |o.trace| - |history| ==> Fault(env, history + steps[..j], steps[j]).None?)
            && (o.result.Ok? <==> |o.trace| == |history| + |steps|)
            && (o.result.Err? ==> Fault(env, o.trace, steps[|o.trace| - |history|]) == Some(o.result.error))
    decreases |steps|
  {
    if steps != [] {
      var first := Step(env, history, steps[0]);
      if first.result.Ok? {
        RunEmitsPrefix(env, first.trace, steps[1..]);
        var o := Run(env, first.trace, steps[1..]);
        var n := |o.trace| - |first.trace|;
        assert steps[..n + 1] == [steps[0]] + steps[1..][..n];
        if o.result.Err? {
          assert steps[n + 1] == steps[1..][n];
        }
        forall j | 0 <= j < n + 1
          ensures Fault(env, history + steps[..j], steps[j]).None?
        {
          if j == 0 {
            assert history + steps[..0] == history;
          } else {
            PassedStepShift(history, steps, j);
          }
        }
      } else {
        assert steps[..0] == [];
      }
    } else {
      assert steps[..0] == [];
    }
  }

  /** Step j of `steps` is step j - 1 of its tail, taken after the first step was emitted. */
  lemma PassedStepShift(history: seq<Event>, steps: seq<Event>, j: nat)
    requires 0 < j < |steps|
    ensures (history + [steps[0]]) + steps[1..][..j - 1] == history + steps[..j]
    ensures steps[1..][j - 1] == steps[j]
  {
    assert steps[..j] == [steps[0]] + steps[1..][..j - 1];
  }

  /** Running two step lists back to back is running their concatenation: the second starts
      from the trace the first left, and only if the first succeeded. */
  lemma {:induction false} RunAppend<E>(env: Env<E>, history: seq<Event>, a: seq<Event>, b: seq<Event>)
    ensures Run(env, history, a + b)
            == var first := Run(env, history, a);
               if first.result.Ok? then Run(env, first.trace, b) else first
    decreases |a|
  {
    if a == [] {
      assert a + b == b;
    } else {
      assert (a + b)[0] == a[0];
      assert (a + b)[1..] == a[1..] + b;
      var s := Step(env, history, a[0]);
      if s.result.Ok? {
        RunAppend(env, s.trace, a[1..], b);
      }
    }
  }

  /** A step list that only talks to the bus, or only waits, can fail with DisplayError alone. */
  lemma BusOnlyErrors<E>(env: Env<E>, history: seq<Event>, steps: seq<Event>)
    requires forall i :: 0 <= i < |steps| ==> !steps[i].PinHigh? && !steps[i].PinLow?
    ensures Run(env, history, steps).result.Err? ==> Run(env, history, steps).result.error == DisplayError
  {
    RunEmitsPrefix(env, history, steps);
  }

  /** Running a list that starts with `ev` is attempting `ev`, then running the rest if it succeeded. */
  lemma RunCons<E>(env: Env<E>, history: seq<Event>, ev: Event, rest: seq<Event>)
    ensures Run(env, history, [ev] + rest)
            == var first := Step(env, history, ev);
               if first.result.Ok? then Run(env, first.trace, rest) else first
  {
    assert ([ev] + rest)[0] == ev;
    assert ([ev] + rest)[1..] == rest;
  }

  /** An event that occurs only as the last step is emitted only by a run that succeeded. */
  lemma LastStepOnlyAfterSuccess<E>(env: Env<E>, history: seq<Event>, steps: seq<Event>, ev: Event)
    requires |steps| > 0 && ev !in steps[..|steps| - 1]
    ensures var o := Run(env, history, steps);
            ev in o.trace[|history|..] ==> o.result.Ok?
  {
    var o := Run(env, history, steps);
    RunEmitsPrefix(env, history, steps);
    if o.result.Err? {
      var k := |o.trace| - |history|;
      assert o.trace[|history|..] == steps[..k];
      assert steps[..k] == steps[..|steps| - 1][..k];
    }
  }

  /** The command events for a list of command bytes, one write per byte. */
  function Cmds(bs: seq<byte>): (evs: seq<Event>)
    ensures |evs| == |bs|
    ensures forall i :: 0 <= i < |bs| ==> evs[i] == Cmd(bs[i])
  {
    seq(|bs|, i requires 0 <= i < |bs| => Cmd(bs[i]))
  }

  /** Running the commands of `bs` from the k-th on is writing `bs[k]`, then the commands after it. */
  lemma RunCmdsAt<E>(env: Env<E>, history: seq<Event>, bs: seq<byte>, k: nat)
    requires k < |bs|
    ensures Run(env, history, Cmds(bs[k..]))
            == var first := Step(env, history, Cmd(bs[k]));
               if first.result.Ok? then Run(env, first.trace, Cmds(bs[k + 1..])) else first
  {
    var evs := Cmds(bs[k..]);
    assert evs[0] == Cmd(bs[k]);
    assert evs[1..] == Cmds(bs[k + 1..]);
  }

  /** Writing a single command is one step. */
  lemma RunOneCmd<E>(env: Env<E>, history: seq<Event>, a: byte)
    ensures Run(env, history, Cmds([a])) == Step(env, history, Cmd(a))
  {
    assert Cmds([a]) == [Cmd(a)] + [];
    RunCons(env, history, Cmd(a), []);
  }

  /** Writing two commands is writing the first, then the second if the first succeeded. */
  lemma RunTwoCmds<E>(env: Env<E>, history: seq<Event>, a: byte, b: byte)
    ensures Run(env, history, Cmds([a, b]))
            == var first := Step(env, history, Cmd(a));
               if first.result.Ok? then Step(env, first.trace, Cmd(b)) else first
  {
    assert Cmds([a, b]) == [Cmd(a)] + ([Cmd(b)] + []);
    RunCons(env, history, Cmd(a), [Cmd(b)] + []);
    var first := Step(env, history, Cmd(a));
    if first.result.Ok? {
      RunCons(env, first.trace, Cmd(b), []);
    }
  }

  /** Running `a + b + [ev] + rest` is running a, then b, then attempting ev, then running rest,
      each only if everything before it succeeded. */
  lemma RunThenThenStep<E>(env: Env<E>, history: seq<Event>, a: seq<Event>, b: seq<Event>, ev: Event, rest: seq<Event>)
    ensures Run(env, history, a + b + [ev] + rest)
            == var first := Run(env, history, a);
               if first.result.Err? then first else
               var second := Run(env, first.trace, b);
               if second.result.Err? then second else
               var third := Step(env, second.trace, ev);
               if third.result.Err? then third else Run(env, third.trace, rest)
  {
    assert a + b + [ev] + rest == a + (b + ([ev] + rest));
    RunAppend(env, history, a, b + ([ev] + rest));
    var first := Run(env, history, a);
    if first.result.Ok? {
      RunAppend(env, first.trace, b, [ev] + rest);
      var second := Run(env, first.trace, b);
      if second.result.Ok? {
        RunCons(env, second.trace, ev, rest);
      }
    }
  }
}
