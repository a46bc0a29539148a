/**
 * Vocabulary shared by the whole model: the marker carried by every managed unit
 * half (src/core/unitvalue.h) and the state axes of src/core/verify.h.
 */
module Types {

  datatype Option<+T> = None | Some(value: T)

  datatype Authentication = Credentials | Guest

  datatype Access = ReadWrite | ReadOnly | ReadWriteExecutable

  datatype Marker = Marker(
    uid: nat,
    gid: nat,
    id: string,
    authentication: Authentication,
    access: Access)

  datatype Definition = Undefined | Pair | Partial | Tampered | NotOurs

  datatype AutomountState = Inactive | Active | AutomountIndeterminate

  datatype MountState = Absent | Present | MountIndeterminate

  datatype Verification = NotApplicable | Match | Mismatch | VerificationIndeterminate

  datatype Trust = TrustNotApplicable | Trusted | Untrusted

  /** One reading of the runtime axes for one share. */
  datatype Snapshot = Snapshot(
    automount: AutomountState,
    mount: MountState,
    verification: Verification,
    trust: Trust)
}
