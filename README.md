# Boot script of the PySquared flight computer, modelled in Dafny

`main.py` is the script the RP2040 flight computer runs on every boot. It
has four parts:

- It counts down for five seconds.
- It brings up the hardware: arms and pets the watchdog, loads `config.json`
  and constructs the collaborators.
- It runs a boot block: increments the persistent boot counter, logs the
  boot statistics and runs `initial_boot`.
- It enters an endless loop. Each pass checks for a reboot request and then
  dispatches on the power mode to one of four task sequences.

Three handlers contain faults:

- Boot block: an exception is logged as an error and swallowed.
- Main loop: an exception is logged as critical; the script then sleeps
  10 s, asks for a normal-mode boot and resets the board.
- Top level: an exception during bring-up is logged as critical and the
  script ends.

The model records a run as a trace of events (`Events`). An event is one
of these:

- a collaborator call;
- a countdown log line;
- a sleep;
- the boot statistics;
- an error log;
- a critical log;
- the next-reset request;
- the reset.

Collaborators are not modelled. An **oracle** decides the outcome of each
call, indexed by the trace position of the call's event. The outcome is
one of three:

- `Returned`: the call returned.
- `Raised`: the call raised.
- `Halted`: control never came back. This covers a deep sleep, a reset
  inside the collaborator, or the watchdog firing.

Exceptions become outcomes. A task sequence stops at its first call that
does not return, so a Python exception propagating out of nested
functions becomes an outcome passed up.

Files:

- `events.dfy`: what a run can record.
- `tasks.dfy`: the fixed task sequences, in source order.
  - `InitialBootTasks`, `SendImuDataTasks`, `MainTasks`,
    `CriticalPowerTasks`, `MinimumPowerTasks`.
  - Bring-up, `BringUpTasks`.
  - The `if`/`elif` dispatch, `Dispatch`.
  - `Exec`: what running a task sequence records under an oracle, with its
    lemmas.
- `script.dfy`: the reference functions for the whole script.
  - `CountdownEvents`, `BootBlock`, `LoopRun` (the loop over a finite
    sequence of power-mode readings), `MainLoopTrace` and `Script`.
- `scheduler.dfy`: the script as a `Scheduler` object.
  - Its fields are the trace, the boot counter and the oracle.
  - `Invoke` and `Perform` are generic helpers that make one call and run
    a task sequence. Each other method corresponds to one Python function
    or block. It appends to the trace and is proved equal to the reference
    function.
- `properties.dfy`: the script-level guarantees.
- `task_properties.dfy`: the per-pass guarantees.

## Model

| member | source | states |
|---|---|---|
| Tasks.Dispatch | main.py:191-204 | Each power-mode string takes exactly one arm. "critical" takes the critical arm and "minimum" the minimum arm. "normal" and "maximum" both take `main`. Every other string takes the single `listen`, so no string is a no-op. |
| Tasks.InitialBootTasks | main.py:117-122 | The calls of `initial_boot`, in source order: pet, beacon, pet, listen, pet. |
| Tasks.SendImuDataTasks | main.py:141-148 | The calls of `send_imu_data`: pet, gyro read, pet, send. |
| Tasks.MainTasks | main.py:150-171 | The fifteen calls of `main`, with the four of `send_imu_data` in place of its call. |
| Tasks.CriticalPowerTasks | main.py:173-177 | `initial_boot`'s calls, then a pet and the long hibernation. |
| Tasks.MinimumPowerTasks | main.py:179-183 | `initial_boot`'s calls, then a pet and the short hibernation. |
| Tasks.BringUpTasks | main.py:63-115 | Arm the watchdog, pet it, load the configuration, construct the collaborators. |
| Tasks.BranchTasks | main.py:191-204 | The calls of each arm of the dispatch. |
| Tasks.IterationTasks | main.py:187-204 | A pass: the reboot check, then the arm the dispatch picks. |
| Tasks.Exec | main.py:117-183 | Running a task sequence under the oracle: the calls in order, stopping at the first that does not return, with its outcome. |
| BootScript.CountdownEvents | main.py:59-61 | Pass `i` of the countdown logs `total - i` seconds left, then sleeps one second. |
| BootScript.BootBlock | main.py:124-139 | The boot block: the increment; when it returned, the count plus one, the statistics and `initial_boot`; the error log when a call raised. |
| BootScript.LoopRun | main.py:186-204 | The loop over the modes read, one pass each; the first pass that does not complete ends it. |
| BootScript.MainLoopTrace | main.py:186-210 | The loop, followed by the handler's four steps when a pass raised. |
| BootScript.Operations | main.py:124-210 | The boot block, then the main loop unless control was lost in the boot block. |
| BootScript.Script | main.py:56-215 | The countdown, bring-up, then the top-level critical log if bring-up raised, or the operations if it completed. |
| Tasks.ExecShape | main.py:117-183 | Running a task sequence records the calls of a prefix, in order. It completes exactly when every call returned. Otherwise it stops right after the first call that raised or never returned, with that call's outcome. |
| Tasks.ExecAppend | main.py:173-183 | Running a sequence that calls a nested function (for example `initial_boot` inside `critical_power_operations`) means running the nested part first. The rest runs only if the nested part completed, so the nested part's exception propagates. |
| Tasks.ExecAllReturned | main.py:117-122 | When every call returns, the run records all the calls and completes. |
| Tasks.ExecFaultAt | main.py:117-122 | When calls before index k return and call k does not, the run is exactly the calls up to k, with call k's outcome. |
| Tasks.ExecCalls | main.py:117-183 | Event j of a run is the call of task j. A run shorter than its sequence ends with a call that did not return. |
| Supervisor.Scheduler.InitialBoot | main.py:117-122 | `initial_boot` makes its calls in order (pet, beacon, pet, listen, pet) and stops at the first that does not return. |
| Supervisor.Scheduler.SendImuData | main.py:141-148 | `send_imu_data` makes its calls in order: pet, gyro read, pet, send. |
| Supervisor.Scheduler.MainSequence | main.py:150-171 | `main`: the fixed fifteen-call order, with `send_imu_data` nested in it. |
| Supervisor.Scheduler.CriticalPowerOperations | main.py:173-177 | `initial_boot`, then a pet, then the long hibernation. |
| Supervisor.Scheduler.MinimumPowerOperations | main.py:179-183 | `initial_boot`, then a pet, then the short hibernation. |
| Supervisor.Scheduler.ListenOnce | main.py:203-204 | The fallback arm is a single `f.listen()`. |
| Supervisor.Scheduler.RunIteration | main.py:189-204 | A pass is the reboot check, then the arm the dispatch picks, as one task sequence. |
| Supervisor.Scheduler.Countdown | main.py:56-61 | The loop logs the seconds left and sleeps one second, five times. Invariant: after i steps the trace holds the first i steps. |
| Supervisor.Scheduler.BringUp | main.py:63-115 | Arm the watchdog, pet it, load the configuration, then construct the collaborators. |
| Supervisor.Scheduler.BootSequence | main.py:124-139 | The boot block as the `BootBlock` function. The count rises and the statistics are logged only after the increment returned. A raise is logged as an error and swallowed. |
| Supervisor.Scheduler.RunLoop | main.py:186-204 | The loop runs passes over the modes read until one does not complete. Invariant: the state is `LoopRun` of the modes read so far. |
| Supervisor.Scheduler.MainLoop | main.py:186-210 | The loop followed by its handler: a critical log, a 10 s sleep, a normal-mode next reset and the reset, appended only if a pass raised. |
| Supervisor.Scheduler.Operate | main.py:124-210 | The boot block, then the main loop unless control was lost in the boot block. |
| Supervisor.Scheduler.RunScript | main.py:56-215 | The whole script on a fresh trace equals `Script`: the countdown, then bring-up. A bring-up raise gets the top-level critical log. |
| Properties.LoopRunShape | main.py:186-204 | The loop only appends calls of loop tasks (never bring-up or the counter). A non-empty run begins with the reboot check. A run that stopped ends with the call that did not return. |
| Properties.BootBlockShape | main.py:124-139 | The increment is the boot block's first call. The statistics follow it, with the new count, only when it returned. The count rises by one exactly then. The error log is the last event exactly when a call of the block raised. A halted block ends in a call. |
| Properties.CountdownThenWatchdog | main.py:56-64 | The first ten events are the countdown: five logs counting 5..1, each followed by a one-second sleep, with no call among them. The first call arms the watchdog. |
| Properties.PetBeforeConfig | main.py:63-67 | The configuration load can only be the third call. It happens only after arming the watchdog and petting it, and both of those returned. |
| Properties.ConfigFaultSkipsLoop | main.py:214-215 | Takes a bring-up that did not complete. The top-level critical log is the last event exactly when bring-up raised, and it comes right after the call that raised. Nothing but bring-up was called: no dispatch, no counter. The count is unchanged. |
| Properties.BootCountIncrementedOnce | main.py:124-133 | Takes a completed bring-up. The increment is called once, as the first call after bring-up and before any beacon. |
| Properties.BootCountedOnce | main.py:125-131 | Takes a completed bring-up. The count rises by one exactly when the increment returned. The statistics are logged only then, right after it, carrying the new count. |
| Properties.BootErrorStillEntersLoop | main.py:124-189 | The boot-block error log appears exactly when a call of the block raised, and at most once. When power modes remain, the loop's reboot check follows it immediately. |
| Properties.LoopFaultResets | main.py:186-210 | Takes a completed bring-up. The trace ends with a reset exactly when the boot block returned control and a loop pass raised. |
| Properties.LoopFaultHandlerSteps | main.py:206-210 | A trace ending with a reset is the loop's trace followed by exactly the critical log, the 10 s sleep, the normal-mode request and the reset. The loop's last call is the one that raised. |
| Properties.ResetOnlyAfterLoopFault | main.py:206-215 | Takes a completed bring-up. Only the loop handler logs critically or resets, and it runs last: its log is fourth from the end and the reset is last. |
| Properties.PartsErrorEntersLoop | main.py:135-139 | For any boot block followed by a loop part: the error log is at most once, as the block's last event. When the loop part begins with the reboot check, the check directly follows the log. |
| TaskProperties.IterationByMode | main.py:187-204 | Each arm of a pass as a task sequence. An unknown mode gives exactly `[CheckReboot, Listen]`. |
| TaskProperties.RebootCheckFirst | main.py:189 | Every pass records the reboot check first. A check that does not return ends the pass before the dispatch. |
| TaskProperties.EveryPassChecksFirst | main.py:187-189 | Every pass reached in the loop begins with the reboot check, right after the earlier passes. |
| TaskProperties.InitialBootRadioBetweenPets | main.py:117-122 | In `initial_boot`, every beacon or listen call directly follows a pet. When the radio call returned, a pet directly follows it. |
| TaskProperties.SendImuPetBetween | main.py:141-148 | A send happens only as the fourth call. It comes after a gyro read and a pet, both of which returned. |
| TaskProperties.MainPets | main.py:150-171 | `main` pets exactly at indices 5, 8 and 10: before `send_face` and on both sides of the gyro read. The beacon is followed directly by `listen_loiter`, with no pet between. |
| TaskProperties.CriticalMinimumRunsDiffer | main.py:173-183 | Both low-power arms give the same outcome, the same length and the same events except the last. When they get that far, the last is the long hibernation against the short one. |
| TaskProperties.LoopRunSameArms | main.py:191-204 | Mode sequences that dispatch to the same arms pass by pass give the same loop run. |
| TaskProperties.SameArmsSameScript | main.py:191-204 | Mode sequences that dispatch to the same arms give the same script run, including the trace and the count. |
| TaskProperties.MaximumIsNormal | main.py:197-201 | Reading "normal" wherever "maximum" was read changes nothing in the run. |

## Left out

How the model treats things it does not capture:

- The infinite `while True` is a loop over a finite sequence of power-mode readings. All properties hold for every such sequence.
- `Supervisor.Scheduler.RunIteration`: the source re-reads `c.power_mode` in each `elif` test, up to four times a pass. The model reads it once. A mode that changes within one pass is not modelled.
- Collaborator internals are not modelled: the radio, the sensors, the sleep helper, `check_reboot` and the configuration parser. The boot counter is modelled only as far as the next line says. So are their timeouts and how long they take. The oracle says only whether each call returned, raised or never returned.
- Hardware bring-up of the SPI and I2C buses, the radio, the magnetometer, the IMU, the satellite object, the sleep helper, the command handler and `functions` is one `InitCollaborators` call. Only its outcome matters to the script.
- `Supervisor.Scheduler.BootSequence`: the boot counter rests on three assumptions. First, the count is an unbounded `nat`, and an increment that returns adds exactly one to it. Second, `c.boot_count.get()` returns that new value, so the logged statistics carry it; `Properties.BootCountedOnce` holds because of this. Third, an increment that raises or never returns leaves the count unchanged.
- The stored count lives in non-volatile memory of bounded width. The script's other `Counter`, the logger's error counter at main.py:46, is one index of `microcontroller.nvm`. The wrap-around of such a cell is not modelled.
- The logger, `time.sleep`, `microcontroller.on_next_reset`, `microcontroller.reset` and `c.boot_count.get()` are treated as never raising. An exception inside the main-loop handler would reach the top-level handler, and that path is not modelled.
- The reads of `c.power_mode` (main.py:191, 194, 197, 200) and of `gc.mem_free()` (main.py:129) are treated as never raising or blocking. In the source, a raising mode read would leave a pass after a returned reboot check and before any arm call, and a raising `gc.mem_free()` would reach the boot block's error log after a returned increment and without the statistics; the model produces neither trace. `TaskProperties.RebootCheckFirst` (a returned check is followed by a call of the arm) and `Properties.LoopFaultHandlerSteps` (the call just before the handler is the one that raised) rest on the mode read never raising, and `Properties.BootCountedOnce` and `Properties.BootBlockShape` (the statistics follow a returned increment) rest on `gc.mem_free()` never raising.
- The informational and debug logs are not recorded: "Booting", "Initializing Config", "Looking to get imu data...", "IMU has baton". Only the countdown lines, the boot statistics and the three handler logs are.
- The boot statistics record the boot number, not `gc.mem_free()`. The error counter the logger keeps in NVM is not modelled, and neither are message formatting or colour.
- The `finally: logger.info("Going Neutral!")` at main.py:211-212 is not modelled. It runs whenever control leaves the loop's `try`. On the handled path it never runs, because `microcontroller.reset()` does not return. It does run when the handler itself raises, which is not modelled (see above), or when a pass raises something other than an `Exception`.
- A raise that is not an `Exception` passes all three handlers (`except Exception` at main.py:135, 206 and 214). Examples are `KeyboardInterrupt`, which Ctrl-C on the serial console raises, and `SystemExit`. The model records such a raise as `Halted`: the run ends at that call. The "Going Neutral!" log that the `finally` writes on that path is dropped.
- The boot block's `finally: pass` does nothing and is not modelled.
- Module-level code before the top-level `try` is not modelled: imports, the `ImportError` selection of the board module, the RTC and logger construction. An exception there is not caught by any of the three handlers.
- `repl.py` is not part of this model.
- Three things `main.py` does that a reader may not expect:
  - There is no per-pass catch inside the loop, so any fault in a pass ends the loop.
  - The watchdog is not pet around every long operation. `main` has no pet between the beacon and the first `listen_loiter`, as `TaskProperties.MainPets` states.
  - The five-second countdown runs before the watchdog is armed, as `Properties.CountdownThenWatchdog` states.
