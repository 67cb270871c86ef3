/** The vocabulary of a run of the flight computer's boot script: the
    collaborator operations it invokes, what each invocation can do, and
    the events a run records. */
module Events {

  /** The collaborator operations the boot script invokes. Every one of them
      is implemented outside the script; the model only records that it was
      called and what it did (returned, raised, or never returned). */
  datatype Task =
    | ArmWatchdog        // constructing the watchdog handle on its WDI pin
    | Pet                // watchdog.pet()
    | LoadConfig         // reading and parsing config.json
    | InitCollaborators  // buses, radio, magnetometer, IMU, satellite, sleep helper, command handler
    | IncrementBootCount // c.boot_count.increment()
    | CheckReboot        // c.check_reboot()
    | Beacon             // f.beacon()
    | Listen             // f.listen()
    | ListenLoiter       // f.listen_loiter()
    | StateOfHealth      // f.state_of_health()
    | AllFaceData        // f.all_face_data()
    | SendFace           // f.send_face()
    | Joke               // f.joke()
    | GyroRead           // imu.get_gyro_data()
    | RadioSend          // radio.send(...) of the gyro reading
    | LongHibernate      // sleep_helper.long_hibernate()
    | ShortHibernate     // sleep_helper.short_hibernate()

  /** What one collaborator call did: it returned normally, it raised an
      `Exception`, or control never came back to the script's handlers. The
      last covers a collaborator that reset the board or put it to deep
      sleep, the watchdog firing, and a raise that is not an `Exception`
      (`KeyboardInterrupt`, `SystemExit`), which passes every handler. */
  datatype Outcome = Returned | Raised | Halted

  /** The fault schedule: the outcome of the collaborator call whose event
      lands at a given position of the trace. It stands in for everything the
      collaborators do that the script cannot see. */
  type Oracle = nat -> Outcome

  /** The run mode the script asks the board to restart into. */
  datatype RunMode = Normal

  /** The three handlers of the script, each with its own log message. */
  datatype Site =
    | InBootBlock  // "Error in Boot Sequence"
    | InMainLoop   // "Critical in Main Loop"
    | AtTopLevel   // "An exception occured within main.py"

  /** One entry of a run's trace. */
  datatype Event =
    | Call(task: Task)              // a collaborator call, whatever its outcome
    | CountdownLog(secondsLeft: nat) // "Code Starting in N seconds"
    | Sleep(seconds: nat)           // time.sleep
    | BootStats(bootNumber: nat)    // "FC Board Stats" with the boot number
    | LogError(errorSite: Site)
    | LogCritical(criticalSite: Site)
    | SetNextReset(mode: RunMode)   // microcontroller.on_next_reset
    | Reset                         // microcontroller.reset, which does not return

  /** The events a stretch of the run recorded and how it ended. */
  datatype Run = Run(events: seq<Event>, outcome: Outcome)
}
