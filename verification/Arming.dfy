/**
 * The two pure decision tables of src/root/arming.cpp. Everything that starts or
 * stops a trigger asks one of them first.
 */
module Arming {
  import opened Types

  datatype StopPrecheck = ShouldStop | AlreadyInactive | CorrelationMismatch | StopIndeterminate

  datatype ArmPrecheck = ReadyToArm | AlreadyArmed | Blocked

  function EvaluateStopPrecheck(snap: Snapshot): StopPrecheck {
    if snap.mount == MountIndeterminate || snap.automount == AutomountIndeterminate then
      StopIndeterminate
    else if snap.mount == Present then
      if snap.verification != Match then CorrelationMismatch else ShouldStop
    else if snap.automount == Active then
      if snap.trust != Trusted then CorrelationMismatch else ShouldStop
    else
      AlreadyInactive
  }

  function EvaluateArmPrecheck(snap: Snapshot): ArmPrecheck {
    if snap.mount == MountIndeterminate || snap.automount == AutomountIndeterminate then
      Blocked
    else if snap.mount == Present then
      Blocked
    else if snap.automount == Active then
      if snap.trust == Trusted then AlreadyArmed else Blocked
    else
      ReadyToArm
  }

  /** Whether safeStop would go on to stop, or report that nothing runs. */
  predicate StopAllowed(snap: Snapshot) {
    EvaluateStopPrecheck(snap) in {ShouldStop, AlreadyInactive}
  }
}
