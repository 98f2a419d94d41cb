/** How the machine under the durable stores may fail. */
module Faults {

  /** What can happen to one durable step. `Reports` is an error returned after the
      step took effect; the two crash cases end the process. */
  datatype Fault = Works | Refuses | Reports | CrashesBefore | CrashesAfter

  /** How often the machine was started again. */
  class Lives {
    ghost var count: nat

    constructor () {
      count := 0;
    }
  }

  class Device {
    const lives: Lives
    // Once set, nothing this process still runs has an effect.
    var crashed: bool
    // How many steps since the last restart did not simply work.
    ghost var faults: nat

    constructor ()
      ensures !crashed && faults == 0 && fresh(lives)
    {
      crashed, faults := false, 0;
      lives := new Lives();
    }

    /** One durable step: whether it took effect, and whether the caller is told it worked. */
    method Step() returns (applied: bool, ok: bool)
      modifies this
      ensures ok ==> applied && !crashed
      ensures old(crashed) ==> crashed && !applied
      ensures faults == old(faults) + if ok then 0 else 1
    {
      if crashed {
        faults := faults + 1;
        return false, false;
      }
      var fault: Fault := *;
      crashed := fault.CrashesBefore? || fault.CrashesAfter?;
      applied := fault.Works? || fault.Reports? || fault.CrashesAfter?;
      ok := fault.Works?;
      faults := faults + if ok then 0 else 1;
    }

    /** A read, a check or a helper process: no effect on the stores, may fail. */
    method Attempt() returns (ok: bool)
      modifies this
      ensures ok ==> !crashed
      ensures old(crashed) ==> crashed
      ensures faults == old(faults) + if ok then 0 else 1
    {
      var _, worked := Step();
      ok := worked;
    }

    method Restart()
      modifies this, lives
      ensures !crashed && faults == 0 && lives.count == old(lives.count) + 1
    {
      crashed, faults := false, 0;
      lives.count := lives.count + 1;
    }
  }
}
