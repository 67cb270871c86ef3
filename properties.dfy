/** What the boot script guarantees: the dispatch table, the orderings of
    the task sequences, the boot counter, and how each of the three handlers
    ends a run. */
module Properties {
  import opened Events
  import opened Tasks
  import opened BootScript

  /** Tasks the boot block and the main loop call: none of bring-up's, and
      not the boot-counter increment. */
  predicate PostBringUpTask(t: Task) {
    t != ArmWatchdog && t != LoadConfig && t != InitCollaborators && t != IncrementBootCount
  }

  /** From index `from` on, `s` holds only calls of post-bring-up tasks. */
  ghost predicate PostBringUpCalls(s: seq<Event>, from: nat) {
    forall j :: from <= j < |s| ==> s[j].Call? && PostBringUpTask(s[j].task)
  }

  /** Every task of every arm of the dispatch is a post-bring-up task. */
  lemma BranchTasksArePostBringUp(b: Branch)
    ensures forall j :: 0 <= j < |BranchTasks(b)| ==> PostBringUpTask(BranchTasks(b)[j])
  {
    match b
    case CriticalOperations => CriticalPowerTasksArePostBringUp();
    case MinimumOperations => MinimumPowerTasksArePostBringUp();
    case FullOperations => MainTasksArePostBringUp();
    case ListenFallback =>
  }

  /** Every task of `critical_power_operations` is a post-bring-up task. */
  lemma CriticalPowerTasksArePostBringUp()
    ensures forall j :: 0 <= j < |CriticalPowerTasks()| ==> PostBringUpTask(CriticalPowerTasks()[j])
  {
    CriticalPowerTasksAt();
    InitialBootTasksAt();
  }

  /** Every task of `minimum_power_operations` is a post-bring-up task. */
  lemma MinimumPowerTasksArePostBringUp()
    ensures forall j :: 0 <= j < |MinimumPowerTasks()| ==> PostBringUpTask(MinimumPowerTasks()[j])
  {
    MinimumPowerTasksAt();
    InitialBootTasksAt();
  }

  /** Every task of `main` is a post-bring-up task. */
  lemma MainTasksArePostBringUp()
    ensures forall j :: 0 <= j < |MainTasks()| ==> PostBringUpTask(MainTasks()[j])
  {
    MainTasksAt();
    SendImuDataTasksAt();
  }

  /** The calls of a sequence of post-bring-up tasks are calls of post-bring-up tasks. */
  lemma ExecPostBringUpCalls(ts: seq<Task>, oracle: Oracle, pos: nat)
    requires forall j :: 0 <= j < |ts| ==> PostBringUpTask(ts[j])
    ensures var r := Exec(ts, oracle, pos); (ts != [] ==> r.events != []) && PostBringUpCalls(r.events, 0)
  {
    ExecCalls(ts, oracle, pos);
  }

  /** A pass calls the reboot check first, and only post-bring-up tasks. */
  lemma IterationTasksArePostBringUp(powerMode: string)
    ensures var ts := IterationTasks(powerMode);
      0 < |ts| && ts[0] == CheckReboot && forall j :: 0 <= j < |ts| ==> PostBringUpTask(ts[j])
  {
    var ts := IterationTasks(powerMode);
    var arm := BranchTasks(Dispatch(powerMode));
    IterationTasksAt(powerMode);
    BranchTasksArePostBringUp(Dispatch(powerMode));
    forall j | 0 < j < |ts| ensures PostBringUpTask(ts[j]) {
      assert ts[j] == ts[1..1 + |arm|][j - 1];
    }
  }

  /** A pass of the main loop records at least the reboot check, only calls
      of post-bring-up tasks, and, when it stops, ends with the call that did not
      return. */
  lemma PassShape(powerMode: string, oracle: Oracle, pos: nat)
    ensures var p := Exec(IterationTasks(powerMode), oracle, pos);
      && p.events != [] && p.events[0] == Call(CheckReboot) && PostBringUpCalls(p.events, 0)
      && (p.outcome != Returned ==> oracle(pos + |p.events| - 1) == p.outcome)
  {
    IterationTasksArePostBringUp(powerMode);
    ExecCheckFirst(IterationTasks(powerMode), oracle, pos);
  }

  /** A run of post-bring-up tasks that starts with the reboot check records the
      check first and only post-bring-up calls, and ends with the call that did not
      return when it stops. */
  lemma ExecCheckFirst(ts: seq<Task>, oracle: Oracle, pos: nat)
    requires 0 < |ts| && ts[0] == CheckReboot && forall j :: 0 <= j < |ts| ==> PostBringUpTask(ts[j])
    ensures var p := Exec(ts, oracle, pos);
      && p.events != [] && p.events[0] == Call(CheckReboot) && PostBringUpCalls(p.events, 0)
      && (p.outcome != Returned ==> oracle(pos + |p.events| - 1) == p.outcome)
  {
    ExecPostBringUpCalls(ts, oracle, pos);
    ExecStops(ts, oracle, pos);
    ExecCalls(ts, oracle, pos);
  }

  /** Appending post-bring-up calls keeps a trace's post-bring-up calls. */
  lemma AppendPostBringUpCalls(s: seq<Event>, from: nat, ev: seq<Event>)
    requires from <= |s| && PostBringUpCalls(s, from) && PostBringUpCalls(ev, 0)
    ensures PostBringUpCalls(s + ev, from)
  {
    forall j | from <= j < |s + ev| ensures (s + ev)[j].Call? && PostBringUpTask((s + ev)[j].task) {
      if j >= |s| { assert (s + ev)[j] == ev[j - |s|]; }
    }
  }

  /** The loop keeps the trace it started on. */
  lemma {:induction false} LoopRunGrows(modes: seq<string>, oracle: Oracle, tr: seq<Event>)
    ensures var r := LoopRun(modes, oracle, tr); |tr| <= |r.trace| && r.trace[..|tr|] == tr
    decreases |modes|
  {
    if modes != [] {
      var init := modes[..|modes| - 1];
      LoopRunGrows(init, oracle, tr);
      var r := LoopRun(init, oracle, tr);
      if r.outcome == Returned {
        var pass := Exec(IterationTasks(modes[|modes| - 1]), oracle, |r.trace|);
        assert (r.trace + pass.events)[..|tr|] == r.trace[..|tr|];
      }
    }
  }

  /** The loop appends only calls of post-bring-up tasks. */
  lemma {:induction false} LoopRunPostBringUpCalls(modes: seq<string>, oracle: Oracle, tr: seq<Event>)
    ensures PostBringUpCalls(LoopRun(modes, oracle, tr).trace, |tr|)
    decreases |modes|
  {
    if modes != [] {
      var init := modes[..|modes| - 1];
      LoopRunPostBringUpCalls(init, oracle, tr);
      LoopRunGrows(init, oracle, tr);
      var r := LoopRun(init, oracle, tr);
      if r.outcome == Returned {
        var m := modes[|modes| - 1];
        IterationTasksArePostBringUp(m);
        ExecPostBringUpCalls(IterationTasks(m), oracle, |r.trace|);
        AppendPostBringUpCalls(r.trace, |tr|, Exec(IterationTasks(m), oracle, |r.trace|).events);
      }
    }
  }

  /** A non-empty run of the loop begins with the reboot check. */
  lemma {:induction false} LoopRunFirstCheck(modes: seq<string>, oracle: Oracle, tr: seq<Event>)
    ensures var r := LoopRun(modes, oracle, tr);
      modes != [] ==> |tr| < |r.trace| && r.trace[|tr|] == Call(CheckReboot)
    decreases |modes|
  {
    if modes != [] {
      var init := modes[..|modes| - 1];
      var r := LoopRun(init, oracle, tr);
      if init != [] {
        LoopRunFirstCheck(init, oracle, tr);
      }
      if r.outcome == Returned {
        var m := modes[|modes| - 1];
        var pass := Exec(IterationTasks(m), oracle, |r.trace|);
        PassShape(m, oracle, |r.trace|);
        if init == [] {
          assert (r.trace + pass.events)[|tr|] == pass.events[0];
        } else {
          assert (r.trace + pass.events)[|tr|] == r.trace[|tr|];
        }
      }
    }
  }

  /** A loop run that stopped ends with the call that did not return. */
  lemma {:induction false} LoopRunStopped(modes: seq<string>, oracle: Oracle, tr: seq<Event>)
    ensures var r := LoopRun(modes, oracle, tr);
      r.outcome != Returned ==> |tr| < |r.trace| && oracle(|r.trace| - 1) == r.outcome
    decreases |modes|
  {
    if modes != [] {
      var init := modes[..|modes| - 1];
      LoopRunStopped(init, oracle, tr);
      LoopRunGrows(init, oracle, tr);
      var r := LoopRun(init, oracle, tr);
      if r.outcome == Returned {
        ExecStops(IterationTasks(modes[|modes| - 1]), oracle, |r.trace|);
      }
    }
  }

  /** The loop only appends calls of post-bring-up tasks to the trace; a non-empty
      run begins with the reboot check; a run that stops ends with the call
      that did not return. */
  lemma {:induction false} LoopRunShape(modes: seq<string>, oracle: Oracle, tr: seq<Event>)
    ensures var r := LoopRun(modes, oracle, tr);
      && |tr| <= |r.trace| && r.trace[..|tr|] == tr && PostBringUpCalls(r.trace, |tr|)
      && (modes != [] ==> |tr| < |r.trace| && r.trace[|tr|] == Call(CheckReboot))
      && (r.outcome != Returned ==> |tr| < |r.trace| && oracle(|r.trace| - 1) == r.outcome)
  {
    LoopRunGrows(modes, oracle, tr);
    LoopRunPostBringUpCalls(modes, oracle, tr);
    LoopRunFirstCheck(modes, oracle, tr);
    LoopRunStopped(modes, oracle, tr);
  }

  /** The loop's trace is the one it started on, or ends with a call of a
      later task. */
  lemma LoopRunEnd(modes: seq<string>, oracle: Oracle, tr: seq<Event>)
    ensures var r := LoopRun(modes, oracle, tr);
      r.trace == tr || (|tr| < |r.trace| && r.trace[|r.trace| - 1].Call? && PostBringUpTask(r.trace[|r.trace| - 1].task))
  {
    LoopRunGrows(modes, oracle, tr);
    LoopRunPostBringUpCalls(modes, oracle, tr);
    var r := LoopRun(modes, oracle, tr);
    if |r.trace| == |tr| { assert r.trace == r.trace[..|tr|]; }
  }

  /** What the boot block may record after the increment call: post-bring-up calls,
      the boot statistics, the error log. */
  predicate BootEvent(e: Event) {
    (e.Call? && PostBringUpTask(e.task)) || e.BootStats? || e == LogError(InBootBlock)
  }

  /** After index `from`, `s` holds only boot events; the statistics, if
      there, come right after index `from`, carry the incremented count and
      follow a successful increment; the error log can only be last. */
  ghost predicate BootTail(s: seq<Event>, from: nat, count: nat, incremented: bool) {
    && (forall j :: from < j < |s| ==> BootEvent(s[j]))
    && (forall j :: from < j < |s| && s[j].BootStats? ==>
          j == from + 1 && s[j] == BootStats(count + 1) && incremented)
    && (forall j :: from <= j < |s| - 1 ==> s[j] != LogError(InBootBlock))
  }

  /** Logging the error after a tail that does not end with it keeps the tail. */
  lemma BootTailError(s: seq<Event>, from: nat, count: nat, incremented: bool)
    requires from < |s| && BootTail(s, from, count, incremented) && s[|s| - 1] != LogError(InBootBlock)
    ensures BootTail(s + [LogError(InBootBlock)], from, count, incremented)
  {
    var t := s + [LogError(InBootBlock)];
    forall j | from <= j < |t| - 1 ensures t[j] != LogError(InBootBlock) {
      assert t[j] == s[j];
    }
  }

  /** Appending post-bring-up calls after a tail that does not end with the error
      log keeps the tail. */
  lemma BootTailCalls(s: seq<Event>, from: nat, count: nat, incremented: bool, ev: seq<Event>)
    requires from < |s| && BootTail(s, from, count, incremented) && s[|s| - 1] != LogError(InBootBlock)
    requires PostBringUpCalls(ev, 0)
    ensures BootTail(s + ev, from, count, incremented)
  {
    var t := s + ev;
    forall j | from < j < |t| ensures j < |s| || (BootEvent(t[j]) && !t[j].BootStats?) {
      if j >= |s| { assert t[j] == ev[j - |s|]; }
    }
    forall j | from <= j < |t| - 1 ensures t[j] != LogError(InBootBlock) {
      if j >= |s| { assert t[j] == ev[j - |s|]; } else { assert t[j] == s[j]; }
    }
  }

  /** The calls of `initial_boot` are calls of post-bring-up tasks. */
  lemma InitialBootCalls(oracle: Oracle, pos: nat)
    ensures var ib := Exec(InitialBootTasks(), oracle, pos);
      ib.events != [] && PostBringUpCalls(ib.events, 0) &&
      (ib.outcome != Returned ==> oracle(pos + |ib.events| - 1) == ib.outcome)
  {
    InitialBootTasksAt();
    ExecPostBringUpCalls(InitialBootTasks(), oracle, pos);
    ExecStops(InitialBootTasks(), oracle, pos);
  }

  /** The increment, the statistics and the calls of `initial_boot`. */
  lemma StatsThenInitialBoot(oracle: Oracle, tr: seq<Event>, count: nat)
    ensures var stats := tr + [Call(IncrementBootCount)] + [BootStats(count + 1)];
      var ib := Exec(InitialBootTasks(), oracle, |stats|);
      var body := stats + ib.events;
      && |body| >= |tr| + 3 && body[..|tr|] == tr && body[|tr|] == Call(IncrementBootCount)
      && body[|tr| + 1] == BootStats(count + 1)
      && BootTail(body, |tr|, count, true) && body[|body| - 1].Call?
      && (ib.outcome != Returned ==> oracle(|body| - 1) == ib.outcome)
  {
    var stats := tr + [Call(IncrementBootCount)] + [BootStats(count + 1)];
    var ib := Exec(InitialBootTasks(), oracle, |stats|);
    InitialBootCalls(oracle, |stats|);
    assert BootTail(stats, |tr|, count, true);
    BootTailCalls(stats, |tr|, count, true, ib.events);
    var body := stats + ib.events;
    assert body[..|tr|] == tr;
    assert body[|body| - 1] == ib.events[|ib.events| - 1];
  }

  /** A boot block body that starts with the increment and the statistics
      and ends in a call keeps that shape when the error log is appended,
      and then ends with the error log. */
  lemma BootBodyLogged(body: seq<Event>, tr: seq<Event>, count: nat, raised: bool)
    requires |body| >= |tr| + 3 && body[..|tr|] == tr && body[|tr|] == Call(IncrementBootCount)
    requires body[|tr| + 1] == BootStats(count + 1) && BootTail(body, |tr|, count, true) && body[|body| - 1].Call?
    ensures var t := body + (if raised then [LogError(InBootBlock)] else []);
      && |t| >= |tr| + 3 && t[..|tr|] == tr && t[|tr|] == Call(IncrementBootCount)
      && t[|tr| + 1] == BootStats(count + 1) && BootTail(t, |tr|, count, true)
      && (t[|t| - 1] == LogError(InBootBlock) <==> raised)
  {
    if raised {
      BootTailError(body, |tr|, count, true);
      var t := body + [LogError(InBootBlock)];
      assert t[..|tr|] == body[..|tr|];
      assert t[|tr|] == body[|tr|] && t[|tr| + 1] == body[|tr| + 1];
    } else {
      assert body + [] == body;
    }
  }

  /** The boot block after a successful increment: the statistics, then the
      calls of `initial_boot`, then the error log if one of them raised. */
  lemma BootBlockIncremented(oracle: Oracle, tr: seq<Event>, count: nat)
    requires oracle(|tr|) == Returned
    ensures var b := BootBlock(oracle, tr, count);
      && |b.trace| >= |tr| + 3 && b.trace[..|tr|] == tr
      && b.trace[|tr|] == Call(IncrementBootCount) && b.bootCount == count + 1
      && b.trace[|tr| + 1] == BootStats(count + 1)
      && BootTail(b.trace, |tr|, count, true)
  {
    StatsThenInitialBoot(oracle, tr, count);
    var stats := tr + [Call(IncrementBootCount)] + [BootStats(count + 1)];
    var ib := Exec(InitialBootTasks(), oracle, |stats|);
    var body := stats + ib.events;
    BootBodyLogged(body, tr, count, ib.outcome == Raised);
    if ib.outcome == Raised {
      assert BootBlock(oracle, tr, count) == BootBlockRun(body + [LogError(InBootBlock)], count + 1, false);
    } else {
      assert BootBlock(oracle, tr, count) == BootBlockRun(body, count + 1, ib.outcome == Halted);
      assert body + [] == body;
    }
  }

  /** The calls of `initial_boot` after a trace: the result ends in a call,
      one that did not return when the run stopped. */
  lemma InitialBootEnd(oracle: Oracle, s: seq<Event>)
    ensures var ib := Exec(InitialBootTasks(), oracle, |s|); var body := s + ib.events;
      && |s| < |body| && body[|body| - 1].Call?
      && (ib.outcome != Returned ==> oracle(|body| - 1) == ib.outcome)
  {
    var ib := Exec(InitialBootTasks(), oracle, |s|);
    InitialBootTasksAt();
    ExecCalls(InitialBootTasks(), oracle, |s|);
    ExecStops(InitialBootTasks(), oracle, |s|);
    assert (s + ib.events)[|s| + |ib.events| - 1] == ib.events[|ib.events| - 1];
  }

  /** The boot block after a successful increment ends with the error log
      exactly when a call of `initial_boot` raised, and in the call that
      never returned when it halted. */
  lemma BootBlockIncrementedEnd(oracle: Oracle, tr: seq<Event>, count: nat)
    requires oracle(|tr|) == Returned
    ensures var b := BootBlock(oracle, tr, count);
      var ib := Exec(InitialBootTasks(), oracle, |tr| + 2);
      && (b.trace[|b.trace| - 1] == LogError(InBootBlock) <==> ib.outcome == Raised)
      && (b.halted ==> b.trace[|b.trace| - 1].Call? && oracle(|b.trace| - 1) == Halted)
  {
    var stats := tr + [Call(IncrementBootCount)] + [BootStats(count + 1)];
    var ib := Exec(InitialBootTasks(), oracle, |stats|);
    var body := stats + ib.events;
    InitialBootEnd(oracle, stats);
    if ib.outcome == Raised {
      assert BootBlock(oracle, tr, count) == BootBlockRun(body + [LogError(InBootBlock)], count + 1, false);
    } else {
      assert BootBlock(oracle, tr, count) == BootBlockRun(body, count + 1, ib.outcome == Halted);
    }
  }

  /** The boot block calls the increment first and appends only boot events
      after it; the boot statistics, logged only after a successful
      increment, carry the new count; the error log is its last event exactly
      when one of its calls raised. */
  lemma BootBlockShape(oracle: Oracle, tr: seq<Event>, count: nat)
    ensures var b := BootBlock(oracle, tr, count);
      && |tr| < |b.trace| && b.trace[..|tr|] == tr && b.trace[|tr|] == Call(IncrementBootCount)
      && BootTail(b.trace, |tr|, count, oracle(|tr|) == Returned)
      && (oracle(|tr|) == Returned ==> |tr| + 1 < |b.trace| && b.trace[|tr| + 1] == BootStats(count + 1))
      && b.bootCount == (if oracle(|tr|) == Returned then count + 1 else count)
      && (b.trace[|b.trace| - 1] == LogError(InBootBlock) <==> BootBlockRaised(oracle, |tr|))
      && (b.halted ==> b.trace[|b.trace| - 1].Call? && oracle(|b.trace| - 1) == Halted)
  {
    if oracle(|tr|) == Returned {
      BootBlockIncremented(oracle, tr, count);
      BootBlockIncrementedEnd(oracle, tr, count);
    } else {
      var inc := tr + [Call(IncrementBootCount)];
      assert inc[..|tr|] == tr;
      if oracle(|tr|) == Raised {
        assert (inc + [LogError(InBootBlock)])[..|tr|] == tr;
      }
    }
  }

  /** The boot block never ends with a reset, and a halted one ends in a
      call. */
  lemma BootBlockEnd(oracle: Oracle, tr: seq<Event>, count: nat)
    ensures var b := BootBlock(oracle, tr, count);
      && |tr| < |b.trace| && b.trace[|b.trace| - 1] != Reset
      && (b.halted ==> b.trace[|b.trace| - 1].Call?)
  {
    BootBlockShape(oracle, tr, count);
    var b := BootBlock(oracle, tr, count);
    if |b.trace| - 1 > |tr| { assert BootEvent(b.trace[|b.trace| - 1]); }
  }

  /** The trace once bring-up is over. */
  function BroughtUp(oracle: Oracle): seq<Event> {
    CountdownEvents(LoiterTime, LoiterTime) + Exec(BringUpTasks(), oracle, 2 * LoiterTime).events
  }

  /** The countdown records no collaborator call. */
  lemma CountdownHasNoCalls()
    ensures |CountdownEvents(LoiterTime, LoiterTime)| == 2 * LoiterTime
    ensures forall j :: 0 <= j < 2 * LoiterTime ==>
      CountdownEvents(LoiterTime, LoiterTime)[j].CountdownLog? || CountdownEvents(LoiterTime, LoiterTime)[j].Sleep?
  {
  }

  /** Bring-up records the calls of its tasks in order. */
  lemma BringUpCalls(oracle: Oracle, pos: nat)
    ensures var bu := Exec(BringUpTasks(), oracle, pos);
      && 0 < |bu.events| <= 4
      && (forall j :: 0 <= j < |bu.events| ==> bu.events[j] == Call(BringUpTasks()[j]))
      && (forall q :: pos <= q < pos + |bu.events| - 1 ==> oracle(q) == Returned)
      && (bu.outcome != Returned ==> oracle(pos + |bu.events| - 1) == bu.outcome)
  {
    ExecShape(BringUpTasks(), oracle, pos);
    ExecCalls(BringUpTasks(), oracle, pos);
    BringUpTasksAt();
  }

  /** After the countdown, bring-up records the calls of its tasks in order. */
  lemma BroughtUpShape(oracle: Oracle)
    ensures var b := BroughtUp(oracle); var bu := Exec(BringUpTasks(), oracle, 2 * LoiterTime);
      && |b| == 2 * LoiterTime + |bu.events| && 0 < |bu.events| <= 4
      && b[..2 * LoiterTime] == CountdownEvents(LoiterTime, LoiterTime)
      && (forall j :: 0 <= j < 2 * LoiterTime ==> b[j].CountdownLog? || b[j].Sleep?)
      && (forall j :: 2 * LoiterTime <= j < |b| ==> b[j] == Call(BringUpTasks()[j - 2 * LoiterTime]))
      && (forall q :: 2 * LoiterTime <= q < |b| - 1 ==> oracle(q) == Returned)
      && (bu.outcome != Returned ==> oracle(|b| - 1) == bu.outcome)
  {
    var c := CountdownEvents(LoiterTime, LoiterTime);
    var bu := Exec(BringUpTasks(), oracle, 2 * LoiterTime);
    CountdownHasNoCalls();
    BringUpCalls(oracle, 2 * LoiterTime);
    var b := c + bu.events;
    assert b[..|c|] == c;
    forall j | |c| <= j < |b| ensures b[j] == Call(BringUpTasks()[j - |c|]) {
      assert b[j] == bu.events[j - |c|];
    }
  }

  /** What follows the boot block when it did not halt: the loop's trace,
      then the handler if a pass raised. */
  function LoopAndHandler(loop: seq<Event>, raised: bool): seq<Event> {
    loop + (if raised then LoopFaultHandler() else [])
  }

  /** The parts of an operations trace `o` started on trace `tr`: the boot
      block `pre` (the increment call at index `|tr|`, then boot events), and,
      unless it halted, the loop's trace `loop` (post-bring-up calls after `pre`) and
      the handler if a pass raised. */
  ghost predicate OperationsParts(tr: seq<Event>, pre: seq<Event>, count: nat, incremented: bool, halted: bool,
                                  loop: seq<Event>, raised: bool, o: seq<Event>) {
    && |tr| < |pre| <= |loop| && pre[..|tr|] == tr && loop[..|pre|] == pre
    && pre[|tr|] == Call(IncrementBootCount)
    && (incremented ==> |tr| + 1 < |pre| && pre[|tr| + 1] == BootStats(count + 1))
    && BootTail(pre, |tr|, count, incremented) && PostBringUpCalls(loop, |pre|)
    && o == if halted then pre else LoopAndHandler(loop, raised)
  }

  /** The operations, cut into their parts. */
  lemma OperationsAreParts(modes: seq<string>, oracle: Oracle, tr: seq<Event>, count: nat)
    ensures var bb := BootBlock(oracle, tr, count); var r := LoopRun(modes, oracle, bb.trace);
      var o := Operations(modes, oracle, tr, count);
      && o.bootCount == bb.bootCount
      && OperationsParts(tr, bb.trace, count, oracle(|tr|) == Returned, bb.halted,
                         r.trace, r.outcome == Raised, o.trace)
  {
    var bb := BootBlock(oracle, tr, count);
    BootBlockShape(oracle, tr, count);
    LoopRunShape(modes, oracle, bb.trace);
  }

  /** Event `j` of the operations belongs to the boot block, to the loop or
      to the handler. */
  lemma PartsAt(tr: seq<Event>, pre: seq<Event>, count: nat, incremented: bool, halted: bool,
                loop: seq<Event>, raised: bool, o: seq<Event>, j: nat)
    requires OperationsParts(tr, pre, count, incremented, halted, loop, raised, o) && j < |o|
    ensures j < |pre| ==> o[j] == pre[j]
    ensures |pre| <= j < |loop| ==> !halted && o[j] == loop[j]
    ensures |loop| <= j ==> !halted && raised && o[j] == LoopFaultHandler()[j - |loop|]
  {
    if !halted && j < |loop| {
      assert o[j] == loop[j];
      if j < |pre| { assert loop[j] == loop[..|pre|][j]; }
    }
  }

  /** The parts are laid end to end. */
  lemma PartsPrefixes(tr: seq<Event>, pre: seq<Event>, count: nat, incremented: bool, halted: bool,
                      loop: seq<Event>, raised: bool, o: seq<Event>)
    requires OperationsParts(tr, pre, count, incremented, halted, loop, raised, o)
    ensures |pre| <= |o| && o[..|pre|] == pre && o[..|tr|] == tr
    ensures !halted ==> |loop| <= |o| && o[..|loop|] == loop
  {
    if !halted {
      assert o[..|loop|] == loop;
      assert o[..|pre|] == loop[..|pre|];
    }
    assert o[..|tr|] == pre[..|tr|];
  }

  /** The increment is the first call; only post-bring-up tasks are called after it. */
  lemma PartsCalls(tr: seq<Event>, pre: seq<Event>, count: nat, incremented: bool, halted: bool,
                   loop: seq<Event>, raised: bool, o: seq<Event>)
    requires OperationsParts(tr, pre, count, incremented, halted, loop, raised, o)
    ensures |tr| < |o| && o[|tr|] == Call(IncrementBootCount)
    ensures forall j :: |tr| < j < |o| && o[j].Call? ==> PostBringUpTask(o[j].task)
  {
    forall j | |tr| < j < |o| && o[j].Call? ensures PostBringUpTask(o[j].task) {
      PartsAt(tr, pre, count, incremented, halted, loop, raised, o, j);
    }
  }

  /** The statistics come only right after a successful increment. */
  lemma PartsBootStats(tr: seq<Event>, pre: seq<Event>, count: nat, incremented: bool, halted: bool,
                       loop: seq<Event>, raised: bool, o: seq<Event>)
    requires OperationsParts(tr, pre, count, incremented, halted, loop, raised, o)
    ensures forall j :: |tr| < j < |o| && o[j].BootStats? ==>
      j == |tr| + 1 && o[j] == BootStats(count + 1) && incremented
  {
    forall j | |tr| < j < |o| && o[j].BootStats?
      ensures j == |tr| + 1 && o[j] == BootStats(count + 1) && incremented
    {
      PartsAt(tr, pre, count, incremented, halted, loop, raised, o, j);
    }
  }

  /** The boot-block error log can only be the boot block's last event. */
  lemma PartsErrorLog(tr: seq<Event>, pre: seq<Event>, count: nat, incremented: bool, halted: bool,
                      loop: seq<Event>, raised: bool, o: seq<Event>)
    requires OperationsParts(tr, pre, count, incremented, halted, loop, raised, o)
    ensures forall j :: |tr| <= j < |o| && o[j] == LogError(InBootBlock) ==> j == |pre| - 1
  {
    forall j | |tr| <= j < |o| && o[j] == LogError(InBootBlock) ensures j == |pre| - 1 {
      PartsAt(tr, pre, count, incremented, halted, loop, raised, o, j);
    }
  }

  /** A reset or a critical log can only belong to the handler. */
  lemma PartsNoEarlyReset(tr: seq<Event>, pre: seq<Event>, count: nat, incremented: bool, halted: bool,
                          loop: seq<Event>, raised: bool, o: seq<Event>)
    requires OperationsParts(tr, pre, count, incremented, halted, loop, raised, o)
    ensures forall j :: |tr| <= j < |o| && (o[j] == Reset || o[j].LogCritical?) ==>
      !halted && raised && (j == |o| - 1 || (j == |o| - 4 && o[j] == LogCritical(InMainLoop)))
  {
    forall j | |tr| <= j < |o| && (o[j] == Reset || o[j].LogCritical?)
      ensures !halted && raised && (j == |o| - 1 || (j == |o| - 4 && o[j] == LogCritical(InMainLoop)))
    {
      PartsAt(tr, pre, count, incremented, halted, loop, raised, o, j);
    }
  }

  /** The trace ends with a reset exactly when the loop ran and raised, and
      then with the whole handler right after the loop's trace. */
  lemma PartsEnd(tr: seq<Event>, pre: seq<Event>, count: nat, incremented: bool, halted: bool,
                 loop: seq<Event>, raised: bool, o: seq<Event>)
    requires OperationsParts(tr, pre, count, incremented, halted, loop, raised, o)
    ensures |tr| < |o|
    ensures o[|o| - 1] == Reset <==> !halted && raised
    ensures !halted && raised ==> |o| == |loop| + 4 && o[|loop|..] == LoopFaultHandler()
  {
    if halted {
      assert o[|o| - 1] == pre[|pre| - 1];
    } else if raised {
      assert o[|loop|..] == LoopFaultHandler();
    } else {
      assert o[|o| - 1] == loop[|loop| - 1];
      if |loop| == |pre| { assert loop[|loop| - 1] == pre[|pre| - 1]; }
    }
  }

  /** A script run is the countdown and bring-up, then the critical log if
      bring-up raised, nothing more if it halted, and the operations if it
      completed. */
  lemma ScriptCases(modes: seq<string>, oracle: Oracle, bootCount: nat)
    ensures var b := BroughtUp(oracle); var bu := Exec(BringUpTasks(), oracle, 2 * LoiterTime);
      var s := Script(modes, oracle, bootCount);
      && (bu.outcome == Raised ==> s == ScriptResult(b + [LogCritical(AtTopLevel)], bootCount))
      && (bu.outcome == Halted ==> s == ScriptResult(b, bootCount))
      && (bu.outcome == Returned ==> s == Operations(modes, oracle, b, bootCount))
  {
    CountdownHasNoCalls();
  }

  /** Every script run begins with the countdown and bring-up's calls. */
  lemma ScriptExtendsBroughtUp(modes: seq<string>, oracle: Oracle, bootCount: nat)
    ensures var b := BroughtUp(oracle); var t := Script(modes, oracle, bootCount).trace;
      |b| <= |t| && t[..|b|] == b
  {
    var b := BroughtUp(oracle);
    ScriptCases(modes, oracle, bootCount);
    var bu := Exec(BringUpTasks(), oracle, 2 * LoiterTime);
    if bu.outcome == Raised {
      assert (b + [LogCritical(AtTopLevel)])[..|b|] == b;
    } else if bu.outcome == Returned {
      OperationsAreParts(modes, oracle, b, bootCount);
      var bb := BootBlock(oracle, b, bootCount);
      var r := LoopRun(modes, oracle, bb.trace);
      PartsPrefixes(b, bb.trace, bootCount, oracle(|b|) == Returned, bb.halted, r.trace, r.outcome == Raised,
                    Operations(modes, oracle, b, bootCount).trace);
    }
  }

  /** The script counts down, logging and sleeping a second per step, before
      it calls anything; its first call arms the watchdog. */
  lemma CountdownThenWatchdog(modes: seq<string>, oracle: Oracle, bootCount: nat)
    ensures var t := Script(modes, oracle, bootCount).trace;
      && 2 * LoiterTime < |t| && t[..2 * LoiterTime] == CountdownEvents(LoiterTime, LoiterTime)
      && (forall j :: 0 <= j < 2 * LoiterTime ==> !t[j].Call?)
      && t[2 * LoiterTime] == Call(ArmWatchdog)
  {
    var b := BroughtUp(oracle);
    var t := Script(modes, oracle, bootCount).trace;
    ScriptExtendsBroughtUp(modes, oracle, bootCount);
    BroughtUpShape(oracle);
    BringUpTasksAt();
    assert t[..2 * LoiterTime] == b[..2 * LoiterTime];
    forall j | 0 <= j <= 2 * LoiterTime ensures t[j] == b[j] {
      assert t[j] == t[..|b|][j];
    }
  }

  /** When bring-up completed, the script trace is the operations started
      on the bring-up trace, cut into their parts. */
  lemma ScriptOperations(modes: seq<string>, oracle: Oracle, bootCount: nat)
    requires Exec(BringUpTasks(), oracle, 2 * LoiterTime).outcome == Returned
    ensures var b := BroughtUp(oracle); var bb := BootBlock(oracle, b, bootCount);
      var r := LoopRun(modes, oracle, bb.trace); var s := Script(modes, oracle, bootCount);
      && s.bootCount == bb.bootCount
      && OperationsParts(b, bb.trace, bootCount, oracle(|b|) == Returned, bb.halted,
                         r.trace, r.outcome == Raised, s.trace)
  {
    ScriptIsOperations(modes, oracle, bootCount);
    OperationsAreParts(modes, oracle, BroughtUp(oracle), bootCount);
  }

  /** After bring-up, the script calls the increment once, right away, and
      then only post-bring-up tasks; there are calls after bring-up only when
      bring-up completed. */
  lemma ScriptCallsAfterBringUp(modes: seq<string>, oracle: Oracle, bootCount: nat)
    ensures var b := BroughtUp(oracle); var t := Script(modes, oracle, bootCount).trace;
      && |b| <= |t| && t[..|b|] == b
      && (Exec(BringUpTasks(), oracle, 2 * LoiterTime).outcome == Returned ==>
            |b| < |t| && t[|b|] == Call(IncrementBootCount))
      && forall j :: |b| <= j < |t| && t[j].Call? ==>
           Exec(BringUpTasks(), oracle, 2 * LoiterTime).outcome == Returned &&
           (j == |b| || PostBringUpTask(t[j].task))
  {
    var b := BroughtUp(oracle);
    var t := Script(modes, oracle, bootCount).trace;
    ScriptExtendsBroughtUp(modes, oracle, bootCount);
    ScriptCases(modes, oracle, bootCount);
    if Exec(BringUpTasks(), oracle, 2 * LoiterTime).outcome == Returned {
      ScriptOperations(modes, oracle, bootCount);
      var bb := BootBlock(oracle, b, bootCount);
      var r := LoopRun(modes, oracle, bb.trace);
      PartsCalls(b, bb.trace, bootCount, oracle(|b|) == Returned, bb.halted, r.trace, r.outcome == Raised, t);
    }
  }

  /** The watchdog is armed and pet before the configuration is loaded: the
      configuration load can only be the third call, after both returned. */
  lemma PetBeforeConfig(modes: seq<string>, oracle: Oracle, bootCount: nat)
    ensures var t := Script(modes, oracle, bootCount).trace;
      forall j :: 0 <= j < |t| && t[j] == Call(LoadConfig) ==>
        && j == 2 * LoiterTime + 2
        && t[2 * LoiterTime] == Call(ArmWatchdog) && oracle(2 * LoiterTime) == Returned
        && t[2 * LoiterTime + 1] == Call(Pet) && oracle(2 * LoiterTime + 1) == Returned
  {
    var b := BroughtUp(oracle);
    var t := Script(modes, oracle, bootCount).trace;
    ScriptCallsAfterBringUp(modes, oracle, bootCount);
    BroughtUpShape(oracle);
    BringUpTasksAt();
    forall j | 0 <= j < |t| && t[j] == Call(LoadConfig)
      ensures && j == 2 * LoiterTime + 2
              && t[2 * LoiterTime] == Call(ArmWatchdog) && oracle(2 * LoiterTime) == Returned
              && t[2 * LoiterTime + 1] == Call(Pet) && oracle(2 * LoiterTime + 1) == Returned
    {
      assert j < |b|;
      assert t[j] == b[j] && t[2 * LoiterTime] == b[2 * LoiterTime] && t[2 * LoiterTime + 1] == b[2 * LoiterTime + 1] by {
        assert t[..|b|] == b;
      }
    }
  }

  /** The statistics come only right after a successful increment, and
      always then. */
  lemma PartsBootStatsLogged(tr: seq<Event>, pre: seq<Event>, count: nat, incremented: bool, halted: bool,
                             loop: seq<Event>, raised: bool, o: seq<Event>)
    requires OperationsParts(tr, pre, count, incremented, halted, loop, raised, o)
    ensures incremented ==> |tr| + 1 < |o| && o[|tr| + 1] == BootStats(count + 1)
    ensures forall j :: |tr| < j < |o| && o[j].BootStats? ==>
      j == |tr| + 1 && o[j] == BootStats(count + 1) && incremented
  {
    PartsBootStats(tr, pre, count, incremented, halted, loop, raised, o);
    if incremented { PartsAt(tr, pre, count, incremented, halted, loop, raised, o, |tr| + 1); }
  }

  /** Once bring-up completed, the boot counter is incremented by one call,
      the script's first after bring-up, made before any beacon. */
  lemma BootCountIncrementedOnce(modes: seq<string>, oracle: Oracle, bootCount: nat)
    requires Exec(BringUpTasks(), oracle, 2 * LoiterTime).outcome == Returned
    ensures var t := Script(modes, oracle, bootCount).trace; var b := BroughtUp(oracle);
      && |b| < |t| && t[|b|] == Call(IncrementBootCount)
      && (forall j :: 0 <= j < |t| && t[j] == Call(IncrementBootCount) ==> j == |b|)
      && (forall j :: 0 <= j < |t| && t[j] == Call(Beacon) ==> |b| < j)
  {
    var b := BroughtUp(oracle);
    var t := Script(modes, oracle, bootCount).trace;
    ScriptCallsAfterBringUp(modes, oracle, bootCount);
    BroughtUpShape(oracle);
    BringUpTasksAt();
    forall j | 0 <= j < |b| ensures t[j] == b[j] { assert t[j] == t[..|b|][j]; }
  }

  /** What the countdown and bring-up record: countdown logs, sleeps and
      bring-up's calls. */
  predicate BringUpEvent(e: Event) {
    e.CountdownLog? || e.Sleep? ||
    e == Call(ArmWatchdog) || e == Call(Pet) || e == Call(LoadConfig) || e == Call(InitCollaborators)
  }

  /** The trace once bring-up is over holds only bring-up events. */
  lemma BroughtUpEvents(oracle: Oracle)
    ensures var b := BroughtUp(oracle); |b| > 2 * LoiterTime && forall j :: 0 <= j < |b| ==> BringUpEvent(b[j])
  {
    BroughtUpShape(oracle);
    BringUpTasksAt();
  }

  /** The operations on a trace of bring-up events raise the count by one
      exactly when the increment returned, and only then log the statistics,
      right after it, with the new count. */
  lemma OperationsCountedOnce(modes: seq<string>, oracle: Oracle, tr: seq<Event>, count: nat)
    requires forall j :: 0 <= j < |tr| ==> BringUpEvent(tr[j])
    ensures var o := Operations(modes, oracle, tr, count); var t := o.trace;
      && o.bootCount == (if oracle(|tr|) == Returned then count + 1 else count)
      && (oracle(|tr|) == Returned ==> |tr| + 1 < |t| && t[|tr| + 1] == BootStats(count + 1))
      && (forall j :: 0 <= j < |t| && t[j].BootStats? ==>
            j == |tr| + 1 && t[j] == BootStats(count + 1) && oracle(|tr|) == Returned)
  {
    var t := Operations(modes, oracle, tr, count).trace;
    OperationsAreParts(modes, oracle, tr, count);
    BootBlockShape(oracle, tr, count);
    var bb := BootBlock(oracle, tr, count);
    var r := LoopRun(modes, oracle, bb.trace);
    PartsBootStatsLogged(tr, bb.trace, count, oracle(|tr|) == Returned, bb.halted, r.trace, r.outcome == Raised, t);
    PartsPrefixes(tr, bb.trace, count, oracle(|tr|) == Returned, bb.halted, r.trace, r.outcome == Raised, t);
    forall j | 0 <= j < |tr| ensures t[j] == tr[j] { assert t[j] == t[..|tr|][j]; }
  }

  /** Once bring-up completed, the count rises by one exactly when the
      increment returned, and only then are the statistics logged, right
      after it, with the new count. */
  lemma BootCountedOnce(modes: seq<string>, oracle: Oracle, bootCount: nat)
    requires Exec(BringUpTasks(), oracle, 2 * LoiterTime).outcome == Returned
    ensures var s := Script(modes, oracle, bootCount); var t := s.trace; var b := BroughtUp(oracle);
      && s.bootCount == (if oracle(|b|) == Returned then bootCount + 1 else bootCount)
      && (oracle(|b|) == Returned ==> |b| + 1 < |t| && t[|b| + 1] == BootStats(bootCount + 1))
      && (forall j :: 0 <= j < |t| && t[j].BootStats? ==>
            j == |b| + 1 && t[j] == BootStats(bootCount + 1) && oracle(|b|) == Returned)
  {
    BroughtUpEvents(oracle);
    ScriptIsOperations(modes, oracle, bootCount);
    OperationsCountedOnce(modes, oracle, BroughtUp(oracle), bootCount);
  }

  /** A fault during bring-up (the configuration load or the collaborators)
      is logged as critical and ends the script; a call of bring-up that never
      returns ends it too. Either way nothing but bring-up was called and the
      boot counter is untouched; the critical log is the last event exactly
      when bring-up raised, and then it comes right after the call that
      raised. */
  lemma ConfigFaultSkipsLoop(modes: seq<string>, oracle: Oracle, bootCount: nat)
    requires Exec(BringUpTasks(), oracle, 2 * LoiterTime).outcome != Returned
    ensures var s := Script(modes, oracle, bootCount); var t := s.trace;
      var raised := Exec(BringUpTasks(), oracle, 2 * LoiterTime).outcome == Raised;
      && s.bootCount == bootCount && 0 < |t|
      && (t[|t| - 1] == LogCritical(AtTopLevel) <==> raised)
      && (raised ==> 2 <= |t| && t[|t| - 2].Call? && oracle(|t| - 2) == Raised)
      && forall j :: 0 <= j < |t| ==> BringUpEvent(t[j]) || (raised && j == |t| - 1)
  {
    var b := BroughtUp(oracle);
    var t := Script(modes, oracle, bootCount).trace;
    ScriptCases(modes, oracle, bootCount);
    BroughtUpEvents(oracle);
    BroughtUpShape(oracle);
    forall j | 0 <= j < |b| ensures t[j] == b[j] { }
  }

  /** The loop's trace follows a boot block whose last event is the error
      log exactly when the block raised, and a halted boot block ends in a
      call: the error log appears at most once, only as the boot block's last
      event and never when it halted, and when the loop was entered the
      reboot check follows it. */
  lemma PartsErrorEntersLoop(tr: seq<Event>, pre: seq<Event>, count: nat, incremented: bool, halted: bool,
                             loop: seq<Event>, raised: bool, o: seq<Event>, entered: bool)
    requires OperationsParts(tr, pre, count, incremented, halted, loop, raised, o)
    requires forall j :: 0 <= j < |tr| ==> BringUpEvent(tr[j])
    requires halted ==> pre[|pre| - 1].Call?
    requires entered ==> |pre| < |loop| && loop[|pre|] == Call(CheckReboot)
    ensures pre[|pre| - 1] == LogError(InBootBlock) ==> o[|pre| - 1] == LogError(InBootBlock)
    ensures forall j :: 0 <= j < |o| && o[j] == LogError(InBootBlock) ==>
      && j == |pre| - 1 && pre[|pre| - 1] == LogError(InBootBlock)
      && (!halted && entered ==> j + 1 < |o| && o[j + 1] == Call(CheckReboot))
  {
    PartsErrorLog(tr, pre, count, incremented, halted, loop, raised, o);
    PartsPrefixes(tr, pre, count, incremented, halted, loop, raised, o);
    PartsAt(tr, pre, count, incremented, halted, loop, raised, o, |pre| - 1);
    forall j | 0 <= j < |tr| ensures o[j] == tr[j] { assert o[j] == o[..|tr|][j]; }
    if !halted && entered { PartsAt(tr, pre, count, incremented, halted, loop, raised, o, |pre|); }
  }

  /** On a trace of bring-up events, an exception in the boot block is
      logged once and swallowed, and the loop, when entered, starts right
      after the log. */
  lemma OperationsErrorEntersLoop(modes: seq<string>, oracle: Oracle, tr: seq<Event>, count: nat)
    requires forall j :: 0 <= j < |tr| ==> BringUpEvent(tr[j])
    ensures var t := Operations(modes, oracle, tr, count).trace;
      && (BootBlockRaised(oracle, |tr|) ==> exists j :: 0 <= j < |t| && t[j] == LogError(InBootBlock))
      && (forall j :: 0 <= j < |t| && t[j] == LogError(InBootBlock) ==>
            BootBlockRaised(oracle, |tr|) && (modes != [] ==> j + 1 < |t| && t[j + 1] == Call(CheckReboot)))
      && (forall j, k :: 0 <= j < |t| && 0 <= k < |t| && t[j] == LogError(InBootBlock) && t[k] == LogError(InBootBlock) ==> j == k)
  {
    var t := Operations(modes, oracle, tr, count).trace;
    OperationsAreParts(modes, oracle, tr, count);
    var bb := BootBlock(oracle, tr, count);
    var r := LoopRun(modes, oracle, bb.trace);
    BootBlockShape(oracle, tr, count);
    LoopRunFirstCheck(modes, oracle, bb.trace);
    PartsErrorEntersLoop(tr, bb.trace, count, oracle(|tr|) == Returned, bb.halted, r.trace, r.outcome == Raised, t,
                         modes != []);
  }

  /** An exception in the boot block is logged once and swallowed: the log
      is there exactly when some call of the block raised, there is at most
      one, and when there are power modes left to read the main loop starts
      right after it with the reboot check. */
  lemma BootErrorStillEntersLoop(modes: seq<string>, oracle: Oracle, bootCount: nat)
    requires Exec(BringUpTasks(), oracle, 2 * LoiterTime).outcome == Returned
    ensures var t := Script(modes, oracle, bootCount).trace; var b := BroughtUp(oracle);
      && (BootBlockRaised(oracle, |b|) ==> exists j :: 0 <= j < |t| && t[j] == LogError(InBootBlock))
      && (forall j :: 0 <= j < |t| && t[j] == LogError(InBootBlock) ==>
            BootBlockRaised(oracle, |b|) && (modes != [] ==> j + 1 < |t| && t[j + 1] == Call(CheckReboot)))
      && (forall j, k :: 0 <= j < |t| && 0 <= k < |t| && t[j] == LogError(InBootBlock) && t[k] == LogError(InBootBlock) ==> j == k)
  {
    BroughtUpEvents(oracle);
    ScriptIsOperations(modes, oracle, bootCount);
    OperationsErrorEntersLoop(modes, oracle, BroughtUp(oracle), bootCount);
  }

  /** The operations' trace is the boot block's, or, unless it halted, the
      loop's followed by the handler if a pass raised. */
  lemma OperationsTrace(modes: seq<string>, oracle: Oracle, tr: seq<Event>, count: nat)
    ensures var bb := BootBlock(oracle, tr, count); var r := LoopRun(modes, oracle, bb.trace);
      Operations(modes, oracle, tr, count).trace ==
        if bb.halted then bb.trace else LoopAndHandler(r.trace, r.outcome == Raised)
  {
  }

  /** After a completed bring-up, the script is the operations started on
      the bring-up trace. */
  lemma ScriptIsOperations(modes: seq<string>, oracle: Oracle, bootCount: nat)
    requires Exec(BringUpTasks(), oracle, 2 * LoiterTime).outcome == Returned
    ensures Script(modes, oracle, bootCount) == Operations(modes, oracle, BroughtUp(oracle), bootCount)
    ensures Script(modes, oracle, bootCount).trace == Operations(modes, oracle, BroughtUp(oracle), bootCount).trace
    ensures Script(modes, oracle, bootCount).bootCount == Operations(modes, oracle, BroughtUp(oracle), bootCount).bootCount
  {
    ScriptCases(modes, oracle, bootCount);
  }

  /** The operations end with the handler exactly when the boot block let
      control through and a pass raised; otherwise they end with the boot
      block's last event or a call of a post-bring-up task. */
  lemma OperationsEnd(modes: seq<string>, oracle: Oracle, tr: seq<Event>, count: nat)
    ensures var bb := BootBlock(oracle, tr, count); var r := LoopRun(modes, oracle, bb.trace);
      var t := Operations(modes, oracle, tr, count).trace;
      && |tr| < |bb.trace| <= |r.trace|
      && (!bb.halted && r.outcome == Raised ==> |bb.trace| < |r.trace| && t == r.trace + LoopFaultHandler())
      && (!(!bb.halted && r.outcome == Raised) ==> 0 < |t| && t[|t| - 1] != Reset)
  {
    var bb := BootBlock(oracle, tr, count);
    var r := LoopRun(modes, oracle, bb.trace);
    BootBlockEnd(oracle, tr, count);
    LoopRunEnd(modes, oracle, bb.trace);
    LoopRunStopped(modes, oracle, bb.trace);
    LoopRunGrows(modes, oracle, bb.trace);
    OperationsTrace(modes, oracle, tr, count);
    PartsLast(bb.trace, bb.halted, r.trace, r.outcome == Raised, Operations(modes, oracle, tr, count).trace);
  }

  /** How a trace made of a boot block, the loop and the handler ends. */
  lemma PartsLast(pre: seq<Event>, halted: bool, loop: seq<Event>, raised: bool, o: seq<Event>)
    requires 0 < |pre| && pre[|pre| - 1] != Reset && (raised ==> |pre| < |loop|)
    requires loop == pre || (|pre| < |loop| && loop[|loop| - 1].Call?)
    requires o == if halted then pre else LoopAndHandler(loop, raised)
    ensures !halted && raised ==> o == loop + LoopFaultHandler()
    ensures !(!halted && raised) ==> 0 < |o| && o[|o| - 1] != Reset
  {
    if !halted && !raised { assert o == loop; }
  }

  /** The script after a completed bring-up ends as its operations do. */
  lemma ScriptEnd(modes: seq<string>, oracle: Oracle, bootCount: nat)
    requires Exec(BringUpTasks(), oracle, 2 * LoiterTime).outcome == Returned
    ensures var b := BroughtUp(oracle); var bb := BootBlock(oracle, b, bootCount);
      var r := LoopRun(modes, oracle, bb.trace); var t := Script(modes, oracle, bootCount).trace;
      && |b| < |bb.trace| <= |r.trace|
      && (!bb.halted && r.outcome == Raised ==> |bb.trace| < |r.trace| && t == r.trace + LoopFaultHandler())
      && (!(!bb.halted && r.outcome == Raised) ==> 0 < |t| && t[|t| - 1] != Reset)
  {
    ScriptIsOperations(modes, oracle, bootCount);
    OperationsEnd(modes, oracle, BroughtUp(oracle), bootCount);
  }

  /** The handler after a loop trace that ends with the call that raised. */
  lemma HandlerAfterLoop(loop: seq<Event>, from: nat, oracle: Oracle)
    requires from + 1 < |loop| && loop[|loop| - 1].Call? && PostBringUpTask(loop[|loop| - 1].task)
    requires oracle(|loop| - 1) == Raised
    ensures var t := loop + LoopFaultHandler();
      && from + 5 < |t| && t[..|t| - 4] == loop && t[|t| - 4..] == LoopFaultHandler()
      && t[|t| - 5].Call? && PostBringUpTask(t[|t| - 5].task) && oracle(|t| - 5) == Raised
  {
    var t := loop + LoopFaultHandler();
    assert t[..|t| - 4] == loop;
    assert t[|t| - 4..] == LoopFaultHandler();
    assert t[|t| - 5] == loop[|loop| - 1];
  }

  /** An exception out of the main loop ends the script with the handler:
      once bring-up completed, the trace ends with a reset exactly when the
      boot block let control through and a pass of the loop raised. */
  lemma LoopFaultResets(modes: seq<string>, oracle: Oracle, bootCount: nat)
    requires Exec(BringUpTasks(), oracle, 2 * LoiterTime).outcome == Returned
    ensures var t := Script(modes, oracle, bootCount).trace; var bb := BootBlock(oracle, BroughtUp(oracle), bootCount);
      0 < |t| && (t[|t| - 1] == Reset <==> !bb.halted && LoopRun(modes, oracle, bb.trace).outcome == Raised)
  {
    ScriptEnd(modes, oracle, bootCount);
  }

  /** Operations that end with a reset end with the handler's four steps,
      right after the loop call that raised. */
  lemma OperationsFaultHandler(modes: seq<string>, oracle: Oracle, tr: seq<Event>, count: nat)
    ensures var t := Operations(modes, oracle, tr, count).trace;
      0 < |t| && t[|t| - 1] == Reset ==>
        && |tr| + 5 < |t| && t[|t| - 4..] == LoopFaultHandler()
        && t[..|t| - 4] == LoopRun(modes, oracle, BootBlock(oracle, tr, count).trace).trace
        && t[|t| - 5].Call? && PostBringUpTask(t[|t| - 5].task) && oracle(|t| - 5) == Raised
  {
    var bb := BootBlock(oracle, tr, count);
    var r := LoopRun(modes, oracle, bb.trace);
    OperationsEnd(modes, oracle, tr, count);
    LoopRunEnd(modes, oracle, bb.trace);
    LoopRunStopped(modes, oracle, bb.trace);
    HandlerEnd(Operations(modes, oracle, tr, count).trace, r.trace, |tr|, !bb.halted && r.outcome == Raised, oracle);
  }

  /** A trace that is either a loop trace ending in the call that raised,
      followed by the handler, or one that does not end with a reset. */
  lemma HandlerEnd(t: seq<Event>, loop: seq<Event>, from: nat, handled: bool, oracle: Oracle)
    requires handled ==> t == loop + LoopFaultHandler() && from + 1 < |loop|
    requires handled ==> loop[|loop| - 1].Call? && PostBringUpTask(loop[|loop| - 1].task) && oracle(|loop| - 1) == Raised
    requires !handled ==> 0 < |t| && t[|t| - 1] != Reset
    ensures 0 < |t| && t[|t| - 1] == Reset ==>
      && from + 5 < |t| && t[|t| - 4..] == LoopFaultHandler() && t[..|t| - 4] == loop
      && t[|t| - 5].Call? && PostBringUpTask(t[|t| - 5].task) && oracle(|t| - 5) == Raised
  {
    if handled { HandlerAfterLoop(loop, from, oracle); }
  }

  /** A trace that ends with a reset ends with the main-loop handler's four
      steps (the critical log, the ten-second sleep, the request for a normal
      boot, the reset), right after the loop call that raised. */
  lemma LoopFaultHandlerSteps(modes: seq<string>, oracle: Oracle, bootCount: nat)
    requires Exec(BringUpTasks(), oracle, 2 * LoiterTime).outcome == Returned
    ensures var t := Script(modes, oracle, bootCount).trace;
      0 < |t| && t[|t| - 1] == Reset ==>
        && |BroughtUp(oracle)| + 5 < |t| && t[|t| - 4..] == LoopFaultHandler()
        && t[..|t| - 4] == LoopRun(modes, oracle, BootBlock(oracle, BroughtUp(oracle), bootCount).trace).trace
        && t[|t| - 5].Call? && PostBringUpTask(t[|t| - 5].task) && oracle(|t| - 5) == Raised
  {
    OperationsFaultHandler(modes, oracle, BroughtUp(oracle), bootCount);
    ScriptIsOperations(modes, oracle, bootCount);
  }

  /** Nothing but the handlers logs a critical message, and nothing but the
      main-loop handler resets the board, as the last step of the trace. */
  lemma PartsResetOnlyAtEnd(tr: seq<Event>, pre: seq<Event>, count: nat, incremented: bool, halted: bool,
                            loop: seq<Event>, raised: bool, o: seq<Event>)
    requires OperationsParts(tr, pre, count, incremented, halted, loop, raised, o)
    requires forall j :: 0 <= j < |tr| ==> BringUpEvent(tr[j])
    ensures forall j :: 0 <= j < |o| && (o[j] == Reset || o[j].LogCritical?) ==>
      o[|o| - 1] == Reset && (j == |o| - 1 || (j == |o| - 4 && o[j] == LogCritical(InMainLoop)))
  {
    PartsNoEarlyReset(tr, pre, count, incremented, halted, loop, raised, o);
    PartsEnd(tr, pre, count, incremented, halted, loop, raised, o);
    PartsPrefixes(tr, pre, count, incremented, halted, loop, raised, o);
    forall j | 0 <= j < |tr| ensures o[j] == tr[j] { assert o[j] == o[..|tr|][j]; }
  }

  /** Once bring-up completed, nothing but the main-loop handler resets the
      board or logs a critical message, and the handler comes last. */
  lemma ResetOnlyAfterLoopFault(modes: seq<string>, oracle: Oracle, bootCount: nat)
    requires Exec(BringUpTasks(), oracle, 2 * LoiterTime).outcome == Returned
    ensures var t := Script(modes, oracle, bootCount).trace;
      forall j :: 0 <= j < |t| && (t[j] == Reset || t[j].LogCritical?) ==>
        t[|t| - 1] == Reset && (j == |t| - 1 || (j == |t| - 4 && t[j] == LogCritical(InMainLoop)))
  {
    var b := BroughtUp(oracle);
    BroughtUpEvents(oracle);
    ScriptOperations(modes, oracle, bootCount);
    var bb := BootBlock(oracle, b, bootCount);
    var r := LoopRun(modes, oracle, bb.trace);
    PartsResetOnlyAtEnd(b, bb.trace, bootCount, oracle(|b|) == Returned, bb.halted, r.trace, r.outcome == Raised,
                        Script(modes, oracle, bootCount).trace);
  }
}
