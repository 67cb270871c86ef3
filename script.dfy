/** The whole boot script as a function of the fault schedule and the
    sequence of power modes the main loop reads: what it records, and what
    the persistent boot counter holds afterwards. */
module BootScript {
  import opened Events
  import opened Tasks

  /** Seconds the script counts down before touching any hardware. */
  const LoiterTime: nat := 5

  /** Seconds the main-loop handler waits before resetting the board. */
  const LoopFaultDelay: nat := 10

  /** The events of the first `done` passes of the countdown loop over
      `range(total)`: pass `i` logs that `total - i` seconds are left, then
      sleeps one second. */
  function CountdownEvents(total: nat, done: nat): seq<Event>
    requires done <= total
  {
    seq(2 * done, j requires 0 <= j < 2 * done =>
      if j % 2 == 0 then CountdownLog(total - j / 2) else Sleep(1))
  }

  /** The trace after the boot block (the `try` around the boot counter and
      `initial_boot`), the boot counter after it, and whether control was
      lost inside it. */
  datatype BootBlockRun = BootBlockRun(trace: seq<Event>, bootCount: nat, halted: bool)

  /** The boot block run on trace `tr` with stored boot counter `count`. The
      counter goes up only when its increment returned; an exception from the
      increment or from `initial_boot` is logged as an error and swallowed. */
  function BootBlock(oracle: Oracle, tr: seq<Event>, count: nat): BootBlockRun {
    var incremented := tr + [Call(IncrementBootCount)];
    if oracle(|tr|) == Returned then
      var stats := incremented + [BootStats(count + 1)];
      var ib := Exec(InitialBootTasks(), oracle, |stats|);
      if ib.outcome == Raised then BootBlockRun(stats + ib.events + [LogError(InBootBlock)], count + 1, false)
      else BootBlockRun(stats + ib.events, count + 1, ib.outcome == Halted)
    else if oracle(|tr|) == Raised then BootBlockRun(incremented + [LogError(InBootBlock)], count, false)
    else BootBlockRun(incremented, count, true)
  }

  /** Some call inside a boot block starting at trace position `pos`
      raised: the increment itself, or, after it returned and the statistics
      were logged, a call of `initial_boot`. */
  ghost predicate BootBlockRaised(oracle: Oracle, pos: nat) {
    oracle(pos) == Raised ||
    (oracle(pos) == Returned && Exec(InitialBootTasks(), oracle, pos + 2).outcome == Raised)
  }

  /** The trace after some passes of the main loop and how the last pass ended. */
  datatype LoopState = LoopState(trace: seq<Event>, outcome: Outcome)

  /** The passes of the main loop over the power modes `modes`, read one per
      pass, starting on trace `tr`; the first pass that does not complete
      ends the loop. */
  function LoopRun(modes: seq<string>, oracle: Oracle, tr: seq<Event>): LoopState
    decreases |modes|
  {
    if modes == [] then LoopState(tr, Returned)
    else
      var r := LoopRun(modes[..|modes| - 1], oracle, tr);
      if r.outcome != Returned then r
      else
        var pass := Exec(IterationTasks(modes[|modes| - 1]), oracle, |r.trace|);
        LoopState(r.trace + pass.events, pass.outcome)
  }

  /** The four steps of the main-loop handler: the critical log, the wait,
      the request for a normal boot, the reset. */
  function LoopFaultHandler(): seq<Event> {
    [LogCritical(InMainLoop), Sleep(LoopFaultDelay), SetNextReset(Normal), Reset]
  }

  /** The main loop with its handler, on trace `tr`: an exception out of the
      loop is logged as critical, then the script waits, asks for a normal
      boot and resets the board. */
  function MainLoopTrace(modes: seq<string>, oracle: Oracle, tr: seq<Event>): seq<Event> {
    var r := LoopRun(modes, oracle, tr);
    if r.outcome == Raised then r.trace + LoopFaultHandler() else r.trace
  }

  /** The trace of a script run and the boot counter it leaves. */
  datatype ScriptResult = ScriptResult(trace: seq<Event>, bootCount: nat)

  /** Everything after bring-up, on trace `tr`: the boot block, then, unless
      control was lost in it, the main loop. */
  function Operations(modes: seq<string>, oracle: Oracle, tr: seq<Event>, count: nat): ScriptResult {
    var bb := BootBlock(oracle, tr, count);
    if bb.halted then ScriptResult(bb.trace, bb.bootCount)
    else ScriptResult(MainLoopTrace(modes, oracle, bb.trace), bb.bootCount)
  }

  /** A run of the script on a fresh trace, with `bootCount` as the stored
      boot counter: the countdown, bring-up (whose failure is logged as
      critical and ends the script), then the operations. */
  function Script(modes: seq<string>, oracle: Oracle, bootCount: nat): ScriptResult {
    var counted := CountdownEvents(LoiterTime, LoiterTime);
    var bu := Exec(BringUpTasks(), oracle, |counted|);
    var brought := counted + bu.events;
    if bu.outcome == Raised then ScriptResult(brought + [LogCritical(AtTopLevel)], bootCount)
    else if bu.outcome == Halted then ScriptResult(brought, bootCount)
    else Operations(modes, oracle, brought, bootCount)
  }

  /** Once a pass of the loop has not completed, later modes change nothing. */
  lemma {:induction false} LoopRunStops(modes: seq<string>, i: nat, oracle: Oracle, tr: seq<Event>)
    requires i <= |modes| && LoopRun(modes[..i], oracle, tr).outcome != Returned
    ensures LoopRun(modes, oracle, tr) == LoopRun(modes[..i], oracle, tr)
    decreases |modes|
  {
    if i < |modes| {
      var init := modes[..|modes| - 1];
      assert init[..i] == modes[..i];
      LoopRunStops(init, i, oracle, tr);
    } else {
      assert modes[..i] == modes;
    }
  }

  /** One more pass of the loop. */
  lemma LoopRunSnoc(modes: seq<string>, i: nat, oracle: Oracle, tr: seq<Event>)
    requires i < |modes|
    ensures var r := LoopRun(modes[..i], oracle, tr);
      LoopRun(modes[..i + 1], oracle, tr) ==
        if r.outcome != Returned then r
        else
          var pass := Exec(IterationTasks(modes[i]), oracle, |r.trace|);
          LoopState(r.trace + pass.events, pass.outcome)
  {
    assert modes[..i + 1][..i] == modes[..i];
  }
}
