/** The fixed task sequences of the boot script, the power-mode dispatch,
    and `Exec`, which says what running a task sequence records when every
    collaborator call may raise. */
module Tasks {
  import opened Events

  /** `initial_boot`: pet, beacon, pet, listen, pet. */
  function InitialBootTasks(): seq<Task> {
    [Pet, Beacon, Pet, Listen, Pet]
  }

  /** `send_imu_data`: pet, read the gyro, pet, send the reading. */
  function SendImuDataTasks(): seq<Task> {
    [Pet, GyroRead, Pet, RadioSend]
  }

  /** `main`, the sequence of the normal and maximum power modes. The gyro
      step is `send_imu_data` inlined. */
  function MainTasks(): seq<Task> {
    [Beacon, ListenLoiter, StateOfHealth, ListenLoiter, AllFaceData, Pet, SendFace, ListenLoiter]
    + SendImuDataTasks()
    + [ListenLoiter, Joke, ListenLoiter]
  }

  /** `critical_power_operations`. */
  function CriticalPowerTasks(): seq<Task> {
    InitialBootTasks() + [Pet, LongHibernate]
  }

  /** `minimum_power_operations`. */
  function MinimumPowerTasks(): seq<Task> {
    InitialBootTasks() + [Pet, ShortHibernate]
  }

  /** Hardware bring-up before the boot block: arm the watchdog, pet it,
      load the configuration, then construct every collaborator. */
  function BringUpTasks(): seq<Task> {
    [ArmWatchdog, Pet, LoadConfig, InitCollaborators]
  }

  /** The four arms of the dispatch in the main loop. */
  datatype Branch = CriticalOperations | MinimumOperations | FullOperations | ListenFallback

  /** The arm the `if`/`elif` chain takes for a `power_mode` string. */
  function Dispatch(powerMode: string): (b: Branch)
    ensures b == CriticalOperations <==> powerMode == "critical"
    ensures b == MinimumOperations <==> powerMode == "minimum"
    ensures b == FullOperations <==> powerMode == "normal" || powerMode == "maximum"
    ensures b == ListenFallback <==>
      powerMode != "critical" && powerMode != "minimum" && powerMode != "normal" && powerMode != "maximum"
  {
    if powerMode == "critical" then CriticalOperations
    else if powerMode == "minimum" then MinimumOperations
    else if powerMode == "normal" || powerMode == "maximum" then FullOperations
    else ListenFallback
  }

  function BranchTasks(b: Branch): seq<Task> {
    match b
    case CriticalOperations => CriticalPowerTasks()
    case MinimumOperations => MinimumPowerTasks()
    case FullOperations => MainTasks()
    case ListenFallback => [Listen]
  }

  /** One pass of the main loop: the reboot check, then the dispatched arm.
      Nothing inside the loop catches an exception, so a pass is a single
      task sequence. */
  function IterationTasks(powerMode: string): seq<Task> {
    [CheckReboot] + BranchTasks(Dispatch(powerMode))
  }

  /** The call events of a task sequence. */
  function Calls(ts: seq<Task>): seq<Event> {
    seq(|ts|, i requires 0 <= i < |ts| => Call(ts[i]))
  }

  /** Runs `ts` with the first call landing at trace position `pos`: each task
      is called in order, and the first call that does not return ends the
      run with that outcome. */
  function Exec(ts: seq<Task>, oracle: Oracle, pos: nat): Run
    decreases |ts|
  {
    if ts == [] then Run([], Returned)
    else if oracle(pos) != Returned then Run([Call(ts[0])], oracle(pos))
    else
      var rest := Exec(ts[1..], oracle, pos + 1);
      Run([Call(ts[0])] + rest.events, rest.outcome)
  }

  /** What a run of a task sequence records: the calls of a prefix of the
      sequence, in order; all of them when every call returned; otherwise up
      to and including the first call that did not return. */
  lemma {:induction false} ExecShape(ts: seq<Task>, oracle: Oracle, pos: nat)
    ensures var r := Exec(ts, oracle, pos);
      && |r.events| <= |ts| && r.events == Calls(ts[..|r.events|])
      && (r.outcome == Returned ==>
            |r.events| == |ts| && forall q :: pos <= q < pos + |ts| ==> oracle(q) == Returned)
      && (r.outcome != Returned ==>
            0 < |r.events| && oracle(pos + |r.events| - 1) == r.outcome &&
            forall q :: pos <= q < pos + |r.events| - 1 ==> oracle(q) == Returned)
    decreases |ts|
  {
    if ts != [] && oracle(pos) == Returned {
      ExecShape(ts[1..], oracle, pos + 1);
      var rest := Exec(ts[1..], oracle, pos + 1);
      assert [Call(ts[0])] + Calls(ts[1..][..|rest.events|]) == Calls(ts[..|rest.events| + 1]);
    }
  }

  /** Event `j` of a run of `ts` is the call of task `j`, and a run that
      records fewer calls than `ts` has ends with a call that did not
      return. */
  lemma ExecCalls(ts: seq<Task>, oracle: Oracle, pos: nat)
    ensures var r := Exec(ts, oracle, pos);
      && |r.events| <= |ts| && (ts != [] ==> r.events != [])
      && (forall j :: 0 <= j < |r.events| ==> r.events[j] == Call(ts[j]))
      && (|r.events| < |ts| ==> oracle(pos + |r.events| - 1) != Returned)
  {
    ExecShape(ts, oracle, pos);
  }

  /** A run that did not complete ends with the call that did not return. */
  lemma ExecStops(ts: seq<Task>, oracle: Oracle, pos: nat)
    ensures var r := Exec(ts, oracle, pos);
      r.outcome != Returned ==> 0 < |r.events| && oracle(pos + |r.events| - 1) == r.outcome
  {
    ExecShape(ts, oracle, pos);
  }

  /** When every call of `ts` returns, its run records all of its calls. */
  lemma {:induction false} ExecAllReturned(ts: seq<Task>, oracle: Oracle, pos: nat)
    requires forall q :: pos <= q < pos + |ts| ==> oracle(q) == Returned
    ensures Exec(ts, oracle, pos) == Run(Calls(ts), Returned)
    decreases |ts|
  {
    if ts != [] {
      ExecAllReturned(ts[1..], oracle, pos + 1);
      assert [Call(ts[0])] + Calls(ts[1..]) == Calls(ts);
    }
  }

  /** When the calls before task `k` return and call `k` does not, the run
      ends right after call `k`, with that call's outcome. */
  lemma {:induction false} ExecFaultAt(ts: seq<Task>, k: nat, oracle: Oracle, pos: nat)
    requires k < |ts|
    requires forall q :: pos <= q < pos + k ==> oracle(q) == Returned
    requires oracle(pos + k) != Returned
    ensures Exec(ts, oracle, pos) == Run(Calls(ts[..k + 1]), oracle(pos + k))
    decreases k
  {
    if k > 0 {
      ExecFaultAt(ts[1..], k - 1, oracle, pos + 1);
      assert [Call(ts[0])] + Calls(ts[1..][..k]) == Calls(ts[..k + 1]);
    }
  }

  /** Running `a + b` is running `a`, then, only if it completed, `b`. */
  lemma {:induction false} ExecAppend(a: seq<Task>, b: seq<Task>, oracle: Oracle, pos: nat)
    ensures Exec(a + b, oracle, pos) ==
      var ra := Exec(a, oracle, pos);
      if ra.outcome != Returned then ra
      else
        var rb := Exec(b, oracle, pos + |a|);
        Run(ra.events + rb.events, rb.outcome)
    decreases |a|
  {
    if a == [] {
      assert a + b == b;
    } else if oracle(pos) == Returned {
      assert (a + b)[1..] == a[1..] + b;
      ExecAppend(a[1..], b, oracle, pos + 1);
      var ra' := Exec(a[1..], oracle, pos + 1);
      var rab' := Exec(a[1..] + b, oracle, pos + 1);
      assert Exec(a, oracle, pos) == Run([Call(a[0])] + ra'.events, ra'.outcome);
      assert Exec(a + b, oracle, pos) == Run([Call(a[0])] + rab'.events, rab'.outcome);
      if ra'.outcome == Returned {
        var rb := Exec(b, oracle, pos + 1 + |a[1..]|);
        assert rab'.events == ra'.events + rb.events;
        assert [Call(a[0])] + rab'.events == ([Call(a[0])] + ra'.events) + rb.events;
      }
    } else {
      assert Exec(a + b, oracle, pos) == Run([Call(a[0])], oracle(pos));
    }
  }

  /** The run of the first `k` tasks of `ts`, built from the end: the form
      in which a straight-line method reaches it one call at a time. */
  function ExecPrefix(ts: seq<Task>, k: nat, oracle: Oracle, pos: nat): Run
    requires k <= |ts|
    decreases k
  {
    if k == 0 then Run([], Returned)
    else
      var r := ExecPrefix(ts, k - 1, oracle, pos);
      if r.outcome != Returned then r
      else Run(r.events + [Call(ts[k - 1])], oracle(pos + |r.events|))
  }

  /** Building from the end agrees with `Exec`. */
  lemma {:induction false} ExecPrefixIsExec(ts: seq<Task>, k: nat, oracle: Oracle, pos: nat)
    requires k <= |ts|
    ensures ExecPrefix(ts, k, oracle, pos) == Exec(ts[..k], oracle, pos)
    decreases k
  {
    if k > 0 {
      ExecPrefixIsExec(ts, k - 1, oracle, pos);
      assert ts[..k] == ts[..k - 1] + [ts[k - 1]];
      ExecAppend(ts[..k - 1], [ts[k - 1]], oracle, pos);
      ExecShape(ts[..k - 1], oracle, pos);
    }
  }

  /** Once a prefix run has stopped, longer prefixes record nothing more. */
  lemma {:induction false} ExecPrefixStays(ts: seq<Task>, j: nat, k: nat, oracle: Oracle, pos: nat)
    requires j <= k <= |ts| && ExecPrefix(ts, j, oracle, pos).outcome != Returned
    ensures ExecPrefix(ts, k, oracle, pos) == ExecPrefix(ts, j, oracle, pos)
    decreases k
  {
    if k > j { ExecPrefixStays(ts, j, k - 1, oracle, pos); }
  }

  /** The first `k` tasks of `ts` have been called, starting on trace `t0`,
      each call returned, and `tr` is the trace so far. */
  ghost predicate Started(ts: seq<Task>, k: nat, oracle: Oracle, t0: seq<Event>, tr: seq<Event>) {
    k <= |ts| &&
    var r := ExecPrefix(ts, k, oracle, |t0|);
    tr == t0 + r.events && r.outcome == Returned
  }

  /** Running `ts` on trace `t0` has produced trace `tr` with outcome `o`. */
  ghost predicate Completed(ts: seq<Task>, oracle: Oracle, t0: seq<Event>, tr: seq<Event>, o: Outcome) {
    var r := Exec(ts, oracle, |t0|);
    tr == t0 + r.events && o == r.outcome
  }

  /** One more call on a started sequence either continues it or ends it. */
  lemma StartedStep(ts: seq<Task>, k: nat, oracle: Oracle, t0: seq<Event>, tr: seq<Event>)
    requires Started(ts, k, oracle, t0, tr) && k < |ts|
    ensures oracle(|tr|) == Returned ==> Started(ts, k + 1, oracle, t0, tr + [Call(ts[k])])
    ensures oracle(|tr|) != Returned ==> Completed(ts, oracle, t0, tr + [Call(ts[k])], oracle(|tr|))
  {
    if oracle(|tr|) != Returned {
      ExecPrefixComplete(ts, k + 1, oracle, |t0|);
    }
  }

  /** A sequence whose every task has been called and returned is complete. */
  lemma StartedAll(ts: seq<Task>, oracle: Oracle, t0: seq<Event>, tr: seq<Event>)
    requires Started(ts, |ts|, oracle, t0, tr)
    ensures Completed(ts, oracle, t0, tr, Returned)
  {
    ExecPrefixIsExec(ts, |ts|, oracle, |t0|);
    assert ts[..|ts|] == ts;
  }

  /** A prefix run extended by a whole sub-sequence run. */
  lemma ExecPrefixNested(ts: seq<Task>, k: nat, sub: seq<Task>, oracle: Oracle, pos: nat)
    requires k + |sub| <= |ts| && ts[k..k + |sub|] == sub
    requires ExecPrefix(ts, k, oracle, pos).outcome == Returned
    ensures var pre := ExecPrefix(ts, k, oracle, pos);
      var s := Exec(sub, oracle, pos + k);
      |pre.events| == k &&
      ExecPrefix(ts, k + |sub|, oracle, pos) == Run(pre.events + s.events, s.outcome)
  {
    ExecPrefixIsExec(ts, k, oracle, pos);
    ExecShape(ts[..k], oracle, pos);
    assert ts[..k + |sub|] == ts[..k] + sub;
    ExecAppend(ts[..k], sub, oracle, pos);
    ExecPrefixIsExec(ts, k + |sub|, oracle, pos);
  }

  /** A prefix run that has stopped is the run of the whole sequence. */
  lemma ExecPrefixComplete(ts: seq<Task>, j: nat, oracle: Oracle, pos: nat)
    requires j <= |ts| && ExecPrefix(ts, j, oracle, pos).outcome != Returned
    ensures Exec(ts, oracle, pos) == ExecPrefix(ts, j, oracle, pos)
  {
    ExecPrefixStays(ts, j, |ts|, oracle, pos);
    ExecPrefixIsExec(ts, |ts|, oracle, pos);
    assert ts[..|ts|] == ts;
  }

  /** A sub-sequence run in place of tasks `k ..` of a started sequence either
      advances it past the sub-sequence or ends it. */
  lemma StartedNested(ts: seq<Task>, k: nat, sub: seq<Task>, oracle: Oracle,
                      t0: seq<Event>, t1: seq<Event>, tr: seq<Event>, o: Outcome)
    requires Started(ts, k, oracle, t0, t1)
    requires k + |sub| <= |ts| && ts[k..k + |sub|] == sub
    requires Completed(sub, oracle, t1, tr, o)
    ensures o == Returned ==> Started(ts, k + |sub|, oracle, t0, tr)
    ensures o != Returned ==> Completed(ts, oracle, t0, tr, o)
  {
    ExecPrefixNested(ts, k, sub, oracle, |t0|);
    var pre := ExecPrefix(ts, k, oracle, |t0|);
    var s := Exec(sub, oracle, |t1|);
    assert tr == t0 + (pre.events + s.events);
    if o != Returned {
      ExecPrefixComplete(ts, k + |sub|, oracle, |t0|);
    }
  }

  /** The tasks of `main`, one by one. */
  lemma MainTasksAt()
    ensures |MainTasks()| == 15
    ensures MainTasks()[0] == Beacon && MainTasks()[1] == ListenLoiter && MainTasks()[2] == StateOfHealth
    ensures MainTasks()[3] == ListenLoiter && MainTasks()[4] == AllFaceData && MainTasks()[5] == Pet
    ensures MainTasks()[6] == SendFace && MainTasks()[7] == ListenLoiter
    ensures MainTasks()[8..12] == SendImuDataTasks()
    ensures MainTasks()[12] == ListenLoiter && MainTasks()[13] == Joke && MainTasks()[14] == ListenLoiter
  {
  }

  /** The tasks of `initial_boot`, one by one. */
  lemma InitialBootTasksAt()
    ensures |InitialBootTasks()| == 5
    ensures InitialBootTasks()[0] == Pet && InitialBootTasks()[1] == Beacon && InitialBootTasks()[2] == Pet
    ensures InitialBootTasks()[3] == Listen && InitialBootTasks()[4] == Pet
  {
  }

  /** The tasks of `send_imu_data`, one by one. */
  lemma SendImuDataTasksAt()
    ensures |SendImuDataTasks()| == 4
    ensures SendImuDataTasks()[0] == Pet && SendImuDataTasks()[1] == GyroRead
    ensures SendImuDataTasks()[2] == Pet && SendImuDataTasks()[3] == RadioSend
  {
  }

  /** The tasks of `critical_power_operations`, one by one. */
  lemma CriticalPowerTasksAt()
    ensures |CriticalPowerTasks()| == 7 && CriticalPowerTasks()[0..5] == InitialBootTasks()
    ensures CriticalPowerTasks()[5] == Pet && CriticalPowerTasks()[6] == LongHibernate
  {
  }

  /** The tasks of `minimum_power_operations`, one by one. */
  lemma MinimumPowerTasksAt()
    ensures |MinimumPowerTasks()| == 7 && MinimumPowerTasks()[0..5] == InitialBootTasks()
    ensures MinimumPowerTasks()[5] == Pet && MinimumPowerTasks()[6] == ShortHibernate
  {
  }

  /** The bring-up tasks, one by one. */
  lemma BringUpTasksAt()
    ensures |BringUpTasks()| == 4
    ensures BringUpTasks()[0] == ArmWatchdog && BringUpTasks()[1] == Pet
    ensures BringUpTasks()[2] == LoadConfig && BringUpTasks()[3] == InitCollaborators
  {
  }

  /** A pass of the main loop: the reboot check, then the dispatched arm. */
  lemma IterationTasksAt(powerMode: string)
    ensures var ts := IterationTasks(powerMode); var arm := BranchTasks(Dispatch(powerMode));
      |ts| == 1 + |arm| && ts[0] == CheckReboot && ts[1..1 + |arm|] == arm
  {
  }
}
