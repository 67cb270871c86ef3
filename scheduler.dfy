/** The boot script as a state machine: a `Scheduler` holds the trace of
    what the script has done and the persistent boot counter, and each
    method is one of the script's functions or blocks. */
module Supervisor {
  import opened Events
  import opened Tasks
  import opened BootScript

  class Scheduler {
    /** Everything the script has recorded, in order. */
    var trace: seq<Event>
    /** The persistent boot counter (`c.boot_count`). */
    var bootCount: nat
    /** The outcome of each collaborator call, by the trace position of its event. */
    const oracle: Oracle

    constructor (oracle: Oracle, storedBootCount: nat)
      ensures this.oracle == oracle && trace == [] && bootCount == storedBootCount
    {
      this.oracle := oracle;
      trace := [];
      bootCount := storedBootCount;
    }

    /** Calls collaborator operation `t`; the oracle decides whether the
        call returns, raises, or never comes back. */
    method Invoke(t: Task) returns (o: Outcome)
      modifies this`trace
      ensures o == oracle(|old(trace)|) && trace == old(trace) + [Call(t)]
    {
      o := oracle(|trace|);
      trace := trace + [Call(t)];
    }

    /** Calls `t` as the task at index `k` of the sequence `ts` that began on
        trace `t0`. */
    method Perform(t: Task, ghost ts: seq<Task>, ghost k: nat, ghost t0: seq<Event>) returns (o: Outcome)
      requires Started(ts, k, oracle, t0, trace) && k < |ts| && ts[k] == t
      modifies this`trace
      ensures o == oracle(|old(trace)|)
      ensures o == Returned ==> Started(ts, k + 1, oracle, t0, trace)
      ensures o != Returned ==> Completed(ts, oracle, t0, trace, o)
    {
      StartedStep(ts, k, oracle, t0, trace);
      o := Invoke(t);
    }

    /** `initial_boot`. */
    method InitialBoot() returns (o: Outcome)
      modifies this`trace
      ensures Completed(InitialBootTasks(), oracle, old(trace), trace, o)
    {
      ghost var t0, ts := trace, InitialBootTasks();
      InitialBootTasksAt();
      o := Perform(Pet, ts, 0, t0);
      if o != Returned { return; }
      o := Perform(Beacon, ts, 1, t0);
      if o != Returned { return; }
      o := Perform(Pet, ts, 2, t0);
      if o != Returned { return; }
      o := Perform(Listen, ts, 3, t0);
      if o != Returned { return; }
      o := Perform(Pet, ts, 4, t0);
      if o == Returned { StartedAll(ts, oracle, t0, trace); }
    }

    /** `send_imu_data`. */
    method SendImuData() returns (o: Outcome)
      modifies this`trace
      ensures Completed(SendImuDataTasks(), oracle, old(trace), trace, o)
    {
      ghost var t0, ts := trace, SendImuDataTasks();
      SendImuDataTasksAt();
      o := Perform(Pet, ts, 0, t0);
      if o != Returned { return; }
      o := Perform(GyroRead, ts, 1, t0);
      if o != Returned { return; }
      o := Perform(Pet, ts, 2, t0);
      if o != Returned { return; }
      o := Perform(RadioSend, ts, 3, t0);
      if o == Returned { StartedAll(ts, oracle, t0, trace); }
    }

    /** `main`, run in the normal and maximum power modes. */
    method MainSequence() returns (o: Outcome)
      modifies this`trace
      ensures Completed(MainTasks(), oracle, old(trace), trace, o)
    {
      ghost var t0, ts := trace, MainTasks();
      MainTasksAt();
      o := Perform(Beacon, ts, 0, t0);
      if o != Returned { return; }
      o := Perform(ListenLoiter, ts, 1, t0);
      if o != Returned { return; }
      o := Perform(StateOfHealth, ts, 2, t0);
      if o != Returned { return; }
      o := Perform(ListenLoiter, ts, 3, t0);
      if o != Returned { return; }
      o := Perform(AllFaceData, ts, 4, t0);
      if o != Returned { return; }
      o := Perform(Pet, ts, 5, t0);
      if o != Returned { return; }
      o := Perform(SendFace, ts, 6, t0);
      if o != Returned { return; }
      o := Perform(ListenLoiter, ts, 7, t0);
      if o != Returned { return; }
      ghost var t1 := trace;
      o := SendImuData();
      StartedNested(ts, 8, SendImuDataTasks(), oracle, t0, t1, trace, o);
      if o != Returned { return; }
      o := Perform(ListenLoiter, ts, 12, t0);
      if o != Returned { return; }
      o := Perform(Joke, ts, 13, t0);
      if o != Returned { return; }
      o := Perform(ListenLoiter, ts, 14, t0);
      if o == Returned { StartedAll(ts, oracle, t0, trace); }
    }

    /** `critical_power_operations`: `initial_boot`, a pet, the long hibernation. */
    method CriticalPowerOperations() returns (o: Outcome)
      modifies this`trace
      ensures Completed(CriticalPowerTasks(), oracle, old(trace), trace, o)
    {
      ghost var t0, ts := trace, CriticalPowerTasks();
      CriticalPowerTasksAt();
      o := InitialBoot();
      StartedNested(ts, 0, InitialBootTasks(), oracle, t0, t0, trace, o);
      if o != Returned { return; }
      o := Perform(Pet, ts, 5, t0);
      if o != Returned { return; }
      o := Perform(LongHibernate, ts, 6, t0);
      if o == Returned { StartedAll(ts, oracle, t0, trace); }
    }

    /** `minimum_power_operations`: `initial_boot`, a pet, the short hibernation. */
    method MinimumPowerOperations() returns (o: Outcome)
      modifies this`trace
      ensures Completed(MinimumPowerTasks(), oracle, old(trace), trace, o)
    {
      ghost var t0, ts := trace, MinimumPowerTasks();
      MinimumPowerTasksAt();
      o := InitialBoot();
      StartedNested(ts, 0, InitialBootTasks(), oracle, t0, t0, trace, o);
      if o != Returned { return; }
      o := Perform(Pet, ts, 5, t0);
      if o != Returned { return; }
      o := Perform(ShortHibernate, ts, 6, t0);
      if o == Returned { StartedAll(ts, oracle, t0, trace); }
    }

    /** The fallback arm of the dispatch: a single `f.listen()`. */
    method ListenOnce() returns (o: Outcome)
      modifies this`trace
      ensures Completed([Listen], oracle, old(trace), trace, o)
    {
      ghost var t0 := trace;
      o := Perform(Listen, [Listen], 0, t0);
      if o == Returned { StartedAll([Listen], oracle, t0, trace); }
    }

    /** One pass of the main loop, reading `powerMode` as `c.power_mode`:
        the reboot check, then the arm of the `if`/`elif` chain. */
    method RunIteration(powerMode: string) returns (o: Outcome)
      modifies this`trace
      ensures Completed(IterationTasks(powerMode), oracle, old(trace), trace, o)
    {
      ghost var t0, ts := trace, IterationTasks(powerMode);
      IterationTasksAt(powerMode);
      o := Perform(CheckReboot, ts, 0, t0);
      if o != Returned { return; }
      ghost var t1 := trace;
      if powerMode == "critical" {
        o := CriticalPowerOperations();
      } else if powerMode == "minimum" {
        o := MinimumPowerOperations();
      } else if powerMode == "normal" {
        o := MainSequence();
      } else if powerMode == "maximum" {
        o := MainSequence();
      } else {
        o := ListenOnce();
      }
      StartedNested(ts, 1, BranchTasks(Dispatch(powerMode)), oracle, t0, t1, trace, o);
      if o == Returned { StartedAll(ts, oracle, t0, trace); }
    }

    /** The countdown before bring-up: one log line and a one-second sleep
        per second of `LoiterTime`. */
    method Countdown()
      modifies this`trace
      ensures trace == old(trace) + CountdownEvents(LoiterTime, LoiterTime)
    {
      for i := 0 to LoiterTime
        invariant trace == old(trace) + CountdownEvents(LoiterTime, i)
      {
        trace := trace + [CountdownLog(LoiterTime - i)];
        trace := trace + [Sleep(1)];
      }
    }

    /** Bring-up: construct the watchdog, pet it, load the configuration,
        construct the collaborators. */
    method BringUp() returns (o: Outcome)
      modifies this`trace
      ensures Completed(BringUpTasks(), oracle, old(trace), trace, o)
    {
      ghost var t0, ts := trace, BringUpTasks();
      BringUpTasksAt();
      o := Perform(ArmWatchdog, ts, 0, t0);
      if o != Returned { return; }
      o := Perform(Pet, ts, 1, t0);
      if o != Returned { return; }
      o := Perform(LoadConfig, ts, 2, t0);
      if o != Returned { return; }
      o := Perform(InitCollaborators, ts, 3, t0);
      if o == Returned { StartedAll(ts, oracle, t0, trace); }
    }

    /** The boot block: increment the boot counter, log the boot statistics,
        run `initial_boot`; an exception is logged as an error and swallowed.
        `halted` is set when control never came back. */
    method BootSequence() returns (halted: bool)
      modifies this`trace, this`bootCount
      ensures var r := BootBlock(oracle, old(trace), old(bootCount));
        trace == r.trace && bootCount == r.bootCount && halted == r.halted
    {
      var o := Invoke(IncrementBootCount);
      if o == Returned {
        bootCount := bootCount + 1;
        trace := trace + [BootStats(bootCount)];
        o := InitialBoot();
      }
      if o == Raised {
        trace := trace + [LogError(InBootBlock)];
      }
      halted := o == Halted;
    }

    /** The `while True` loop, one pass per power mode read. */
    method RunLoop(modes: seq<string>) returns (o: Outcome)
      modifies this`trace
      ensures LoopRun(modes, oracle, old(trace)) == LoopState(trace, o)
    {
      ghost var t0 := trace;
      o := Returned;
      var i := 0;
      while i < |modes| && o == Returned
        invariant 0 <= i <= |modes|
        invariant LoopRun(modes[..i], oracle, t0) == LoopState(trace, o)
      {
        LoopRunSnoc(modes, i, oracle, t0);
        o := RunIteration(modes[i]);
        i := i + 1;
      }
      if o == Returned {
        assert modes[..i] == modes;
      } else {
        LoopRunStops(modes, i, oracle, t0);
      }
    }

    /** The main loop with its handler: log, wait, ask for a normal boot, reset. */
    method MainLoop(modes: seq<string>)
      modifies this`trace
      ensures trace == MainLoopTrace(modes, oracle, old(trace))
    {
      var o := RunLoop(modes);
      if o == Raised {
        ghost var looped := trace;
        trace := trace + [LogCritical(InMainLoop)];
        trace := trace + [Sleep(LoopFaultDelay)];
        trace := trace + [SetNextReset(Normal)];
        trace := trace + [Reset];
        assert trace == looped + LoopFaultHandler();
      }
    }

    /** Everything after bring-up: the boot block, then the main loop unless
        control was lost in the boot block. */
    method Operate(modes: seq<string>)
      modifies this`trace, this`bootCount
      ensures var r := Operations(modes, oracle, old(trace), old(bootCount));
        trace == r.trace && bootCount == r.bootCount
    {
      var halted := BootSequence();
      if halted { return; }
      MainLoop(modes);
    }

    /** The whole script on a fresh trace: the countdown, bring-up (a failure
        is logged as critical and ends the script), then the operations. */
    method RunScript(modes: seq<string>)
      requires trace == []
      modifies this`trace, this`bootCount
      ensures var s := Script(modes, oracle, old(bootCount));
        trace == s.trace && bootCount == s.bootCount
    {
      Countdown();
      assert trace == CountdownEvents(LoiterTime, LoiterTime);
      var o := BringUp();
      if o == Raised {
        trace := trace + [LogCritical(AtTopLevel)];
        return;
      }
      if o == Halted { return; }
      Operate(modes);
    }
  }
}
