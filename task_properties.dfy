/** What the task sequences and the dispatch guarantee, one pass of the
    main loop at a time: which arm each power mode runs, where the watchdog
    is pet around the radio, how the two low-power arms differ, and that the
    normal and maximum modes cannot be told apart. */
module TaskProperties {
  import opened Events
  import opened Tasks
  import opened BootScript

  /** A pass of the main loop for each power mode, as a task sequence: the
      reboot check, then the arm; an unknown mode only listens once. */
  lemma IterationByMode(powerMode: string)
    ensures powerMode == "critical" ==> IterationTasks(powerMode) == [CheckReboot] + CriticalPowerTasks()
    ensures powerMode == "minimum" ==> IterationTasks(powerMode) == [CheckReboot] + MinimumPowerTasks()
    ensures powerMode == "normal" || powerMode == "maximum" ==>
      IterationTasks(powerMode) == [CheckReboot] + MainTasks()
    ensures powerMode != "critical" && powerMode != "minimum" && powerMode != "normal" && powerMode != "maximum" ==>
      IterationTasks(powerMode) == [CheckReboot, Listen]
    ensures |IterationTasks(powerMode)| >= 2
  {
    IterationTasksAt(powerMode);
    CriticalPowerTasksAt();
    MinimumPowerTasksAt();
    MainTasksAt();
  }

  /** Every pass records the reboot check first; a check that does not
      return ends the pass before the dispatch. */
  lemma RebootCheckFirst(powerMode: string, oracle: Oracle, pos: nat)
    ensures var p := Exec(IterationTasks(powerMode), oracle, pos);
      && p.events != [] && p.events[0] == Call(CheckReboot)
      && (oracle(pos) != Returned ==> p == Run([Call(CheckReboot)], oracle(pos)))
      && (oracle(pos) == Returned ==> |p.events| >= 2)
  {
    IterationTasksAt(powerMode);
    var ts := IterationTasks(powerMode);
    assert ts == [CheckReboot] + ts[1..];
    ExecAppend([CheckReboot], ts[1..], oracle, pos);
    ExecShape(ts[1..], oracle, pos + 1);
  }

  /** Each pass of the loop that is reached begins with the reboot check,
      right after the trace of the earlier passes. */
  lemma EveryPassChecksFirst(modes: seq<string>, i: nat, oracle: Oracle, tr: seq<Event>)
    requires i < |modes| && LoopRun(modes[..i], oracle, tr).outcome == Returned
    ensures var before := LoopRun(modes[..i], oracle, tr).trace; var after := LoopRun(modes[..i + 1], oracle, tr).trace;
      |before| < |after| && after[..|before|] == before && after[|before|] == Call(CheckReboot)
  {
    var before := LoopRun(modes[..i], oracle, tr).trace;
    assert modes[..i + 1][..i] == modes[..i];
    RebootCheckFirst(modes[i], oracle, |before|);
    var pass := Exec(IterationTasks(modes[i]), oracle, |before|);
    assert LoopRun(modes[..i + 1], oracle, tr).trace == before + pass.events;
    assert (before + pass.events)[..|before|] == before;
  }

  /** In `initial_boot` each radio operation is bracketed by pets: the call
      before it is a pet, and when the radio call returns the next call is
      a pet. */
  lemma InitialBootRadioBetweenPets(oracle: Oracle, pos: nat)
    ensures var r := Exec(InitialBootTasks(), oracle, pos);
      forall j :: 0 <= j < |r.events| && (r.events[j] == Call(Beacon) || r.events[j] == Call(Listen)) ==>
        && 0 < j && r.events[j - 1] == Call(Pet)
        && (oracle(pos + j) == Returned ==> j + 1 < |r.events| && r.events[j + 1] == Call(Pet))
  {
    var ts := InitialBootTasks();
    var r := Exec(ts, oracle, pos);
    InitialBootTasksAt();
    ExecCalls(ts, oracle, pos);
    forall j | 0 <= j < |r.events| && (r.events[j] == Call(Beacon) || r.events[j] == Call(Listen))
      ensures && 0 < j && r.events[j - 1] == Call(Pet)
              && (oracle(pos + j) == Returned ==> j + 1 < |r.events| && r.events[j + 1] == Call(Pet))
    {
      assert ts[j] == Beacon || ts[j] == Listen;
      assert j == 1 || j == 3;
    }
  }

  /** `send_imu_data` sends only after a gyro read and a pet, in that order,
      both of which returned. */
  lemma SendImuPetBetween(oracle: Oracle, pos: nat)
    ensures var r := Exec(SendImuDataTasks(), oracle, pos);
      forall j :: 0 <= j < |r.events| && r.events[j] == Call(RadioSend) ==>
        && j == 3 && r.events[1] == Call(GyroRead) && r.events[2] == Call(Pet)
        && oracle(pos + 1) == Returned && oracle(pos + 2) == Returned
  {
    SendImuDataTasksAt();
    ExecShape(SendImuDataTasks(), oracle, pos);
    ExecCalls(SendImuDataTasks(), oracle, pos);
  }

  /** In `main`, the watchdog is pet exactly three times: before the face
      data is sent and on both sides of the gyro read; the beacon and the
      first listen have no pet between them. */
  lemma MainPets()
    ensures forall j :: 0 <= j < |MainTasks()| ==> (MainTasks()[j] == Pet <==> j == 5 || j == 8 || j == 10)
    ensures MainTasks()[0] == Beacon && MainTasks()[1] == ListenLoiter
    ensures MainTasks()[9] == GyroRead && MainTasks()[11] == RadioSend
  {
    MainTasksAt();
    SendImuDataTasksAt();
    assert MainTasks()[8] == SendImuDataTasks()[0] && MainTasks()[9] == SendImuDataTasks()[1];
    assert MainTasks()[10] == SendImuDataTasks()[2] && MainTasks()[11] == SendImuDataTasks()[3];
  }

  /** The critical and minimum arms run alike up to their last call: the
      same calls, the same outcome, the same length; when the run gets that
      far, only the last call differs, the long hibernation against the
      short one. */
  lemma CriticalMinimumRunsDiffer(oracle: Oracle, pos: nat)
    ensures var c := Exec(CriticalPowerTasks(), oracle, pos); var m := Exec(MinimumPowerTasks(), oracle, pos);
      && c.outcome == m.outcome && |c.events| == |m.events| && 0 < |c.events|
      && c.events[..|c.events| - 1] == m.events[..|m.events| - 1]
      && (|c.events| < 7 ==> c.events == m.events)
      && (|c.events| == 7 ==> c.events[6] == Call(LongHibernate) && m.events[6] == Call(ShortHibernate))
  {
    var head := InitialBootTasks() + [Pet];
    assert CriticalPowerTasks() == head + [LongHibernate];
    assert MinimumPowerTasks() == head + [ShortHibernate];
    ExecAppend(head, [LongHibernate], oracle, pos);
    ExecAppend(head, [ShortHibernate], oracle, pos);
    ExecShape(head, oracle, pos);
    InitialBootTasksAt();
    var h := Exec(head, oracle, pos);
    if h.outcome == Returned {
      assert (h.events + [Call(LongHibernate)])[..|h.events|] == h.events;
      assert (h.events + [Call(ShortHibernate)])[..|h.events|] == h.events;
    }
  }

  /** Power modes that the dispatch sends to the same arms, pass by pass,
      give the same loop. */
  lemma {:induction false} LoopRunSameArms(modes: seq<string>, others: seq<string>, oracle: Oracle, tr: seq<Event>)
    requires |modes| == |others| && forall i :: 0 <= i < |modes| ==> Dispatch(modes[i]) == Dispatch(others[i])
    ensures LoopRun(modes, oracle, tr) == LoopRun(others, oracle, tr)
    decreases |modes|
  {
    if modes != [] {
      var n := |modes| - 1;
      LoopRunSameArms(modes[..n], others[..n], oracle, tr);
      assert IterationTasks(modes[n]) == IterationTasks(others[n]);
    }
  }

  /** Power modes that the dispatch sends to the same arms, pass by pass,
      give the same script run. */
  lemma SameArmsSameScript(modes: seq<string>, others: seq<string>, oracle: Oracle, bootCount: nat)
    requires |modes| == |others| && forall i :: 0 <= i < |modes| ==> Dispatch(modes[i]) == Dispatch(others[i])
    ensures Script(modes, oracle, bootCount) == Script(others, oracle, bootCount)
  {
    var counted := CountdownEvents(LoiterTime, LoiterTime);
    var brought := counted + Exec(BringUpTasks(), oracle, |counted|).events;
    var bb := BootBlock(oracle, brought, bootCount);
    LoopRunSameArms(modes, others, oracle, bb.trace);
  }

  /** The power modes with every "maximum" read as "normal". */
  function MaximumAsNormal(modes: seq<string>): seq<string> {
    seq(|modes|, i requires 0 <= i < |modes| => if modes[i] == "maximum" then "normal" else modes[i])
  }

  /** The normal and maximum power modes give identical traces: reading
      "normal" wherever "maximum" was read changes nothing in the run. */
  lemma MaximumIsNormal(modes: seq<string>, oracle: Oracle, bootCount: nat)
    ensures Script(modes, oracle, bootCount) == Script(MaximumAsNormal(modes), oracle, bootCount)
  {
    var others := MaximumAsNormal(modes);
    forall i | 0 <= i < |modes| ensures Dispatch(modes[i]) == Dispatch(others[i]) { }
    SameArmsSameScript(modes, others, oracle, bootCount);
  }
}
