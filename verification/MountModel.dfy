/**
 * The list a user sees (src/session/mountmodel.cpp): own unit files, local records,
 * privileged inventory and live mounts merged into rows, each with the one removal
 * it offers.
 */
module MountModel {
  import opened Types
  import opened Arming
  import opened Pairing
  import opened MountStack
  import UnitSpec
  import UnitValue

  datatype DisplayState =
    ShownInactive | ShownArmed | ShownMounted | ShownForeign | MissingCredentials | ShownBroken | ShownBusy

  datatype RowClassification = RowClassification(
    state: DisplayState,
    canRemoveDefinition: bool,
    canRemoveLocalRecord: bool,
    requiresAdministrator: bool)

  datatype Removal = DeleteShare | RemoveOrphan | RemoveRecord | NoRemoval

  datatype Row = Row(
    id: string,
    unc: string,
    mountPoint: string,
    definitionWhat: string,
    authentication: Authentication,
    access: Access,
    definitionState: Definition,
    runtime: Snapshot,
    hasUnitFiles: bool,
    hasStoreRecord: bool,
    storeCorrupt: bool,
    drift: bool,
    credentialApplicable: bool,
    credentialHealthy: bool,
    shown: RowClassification,
    removal: Removal)

  datatype Share = Share(id: string, mountPoint: string, unc: string, username: string, access: string)

  datatype StoreSnapshot = StoreSnapshot(share: Share, corrupt: bool)

  /** What inspecting the unit path derived from a saved mount point found; None when no path can be derived. */
  datatype StoredDefinition = StoredDefinition(
    state: Definition, authentication: Authentication, access: Access, mountPoint: string, what: string)

  datatype ShareRecord = ShareRecord(id: string, credentialApplicable: bool, credentialHealthy: bool)

  /** What inspecting the unit path of a saved mount point would find now. */
  type Disk = string -> Option<StoredDefinition>

  const NOT_READ := Snapshot(AutomountIndeterminate, MountIndeterminate, NotApplicable, TrustNotApplicable)

  const BROKEN := RowClassification(ShownBroken, false, false, false)

  datatype ClassifyInput = ClassifyInput(
    definitionState: Definition,
    authentication: Authentication,
    runtime: Snapshot,
    credentialApplicable: bool,
    credentialHealthy: bool,
    hasStoreRecord: bool,
    storeCorrupt: bool,
    drift: bool)

  predicate CredentialUnhealthy(i: ClassifyInput) {
    i.authentication == Credentials && i.credentialApplicable && !i.credentialHealthy
  }

  /** classifyRow: definition first, then the local record, then the runtime, then the credential. */
  function ClassifyRow(i: ClassifyInput): RowClassification {
    if i.definitionState == Undefined then
      BROKEN.(canRemoveLocalRecord := i.hasStoreRecord)
    else if i.definitionState in {Tampered, NotOurs} then
      BROKEN.(requiresAdministrator := true, canRemoveLocalRecord := i.hasStoreRecord)
    else if i.drift || i.storeCorrupt then
      BROKEN.(canRemoveLocalRecord := true)
    else if i.runtime.mount == MountIndeterminate || i.runtime.automount == AutomountIndeterminate then
      RowClassification(ShownBusy, false, false, false)
    else if i.runtime.mount == Present && i.runtime.verification != Match then
      RowClassification(ShownBusy, false, false, false)
    else if i.runtime.mount != Present && i.runtime.automount == Active && i.runtime.trust != Trusted then
      BROKEN.(requiresAdministrator := true)
    else if i.definitionState == Partial then
      BROKEN.(canRemoveDefinition := true)
    else if CredentialUnhealthy(i) then
      RowClassification(MissingCredentials, true, false, false)
    else if i.runtime.mount == Present then
      RowClassification(ShownMounted, true, false, false)
    else if i.runtime.automount == Active then
      RowClassification(ShownArmed, true, false, false)
    else
      RowClassification(ShownInactive, true, false, false)
  }

  /** rowRemoval: deleting beats removing an orphan beats dropping the local record. */
  function RowRemoval(r: Row): Removal {
    if r.hasStoreRecord && r.hasUnitFiles && r.shown.canRemoveDefinition then DeleteShare
    else if !r.hasStoreRecord && r.hasUnitFiles && r.shown.canRemoveDefinition then RemoveOrphan
    else if r.hasStoreRecord && r.shown.canRemoveLocalRecord then RemoveRecord
    else NoRemoval
  }

  /** storeDefinitionDrift: the local record contradicts the marker. */
  predicate StoreDefinitionDrift(share: Share, r: Row) {
    || share.mountPoint != r.mountPoint
    || (share.username == "") != (r.authentication == Guest)
    || (r.definitionWhat != "" && UnitSpec.ValidateUnc(share.unc) != Some(r.definitionWhat))
    || share.access != UnitValue.AccessModeToString(r.access)
  }

  // --- one row of each source -------------------------------------------------------------

  datatype LiveUnit = LiveUnit(unit: OwnedUnit, runtime: Snapshot)

  predicate Removable(d: Definition) {
    d == Pair || d == Partial
  }

  function UnitRow(u: LiveUnit): (row: Row)
    ensures row.id == u.unit.id
  {
    var runtime := if Removable(u.unit.state) then u.runtime else NOT_READ;
    var shown := ClassifyRow(
      ClassifyInput(u.unit.state, u.unit.authentication, runtime, false, true, false, false, false));
    Row(u.unit.id, u.unit.what, u.unit.mountPoint, u.unit.what, u.unit.authentication, u.unit.access, u.unit.state,
        runtime, true, false, false, false, false, true, shown, NoRemoval)
  }

  /** A local record whose id belongs to an existing row. */
  function MergedRow(r: Row, s: StoreSnapshot): (row: Row)
    ensures row.id == r.id
  {
    var flagged := if s.corrupt then r.(hasStoreRecord := true, storeCorrupt := true)
                   else r.(hasStoreRecord := true, drift := StoreDefinitionDrift(s.share, r));
    if flagged.storeCorrupt || flagged.drift then
      flagged.(shown := ClassifyRow(ClassifyInput(r.definitionState, Credentials, NOT_READ, false, true, true,
                                                  flagged.storeCorrupt, flagged.drift)))
    else match UnitSpec.ValidateUnc(s.share.unc)
      case Some(unc) => flagged.(unc := unc)
      case None => flagged
  }

  /** A local record that matches nothing by id: look at the unit path it points to before calling it an orphan. */
  function StoreOnlyRow(disk: Disk, s: StoreSnapshot): (row: Row)
    ensures row.id == s.share.id
  {
    var bare := Row(s.share.id, s.share.unc, s.share.mountPoint, "", Credentials, ReadWrite, Undefined, NOT_READ,
                    false, true, s.corrupt, false, false, true, BROKEN, NoRemoval);
    var found := if s.share.mountPoint == "" then None else disk(s.share.mountPoint);
    var r := match found
      case None => bare
      case Some(d) =>
        if d.state in {Tampered, NotOurs} then bare.(definitionState := d.state, hasUnitFiles := true)
        else if Removable(d.state) then
          bare.(definitionState := d.state, hasUnitFiles := true, drift := true, authentication := d.authentication,
                access := d.access, mountPoint := d.mountPoint, definitionWhat := d.what,
                unc := if d.what != "" then d.what else bare.unc)
        else bare;
    r.(shown := ClassifyRow(ClassifyInput(r.definitionState, r.authentication, NOT_READ, false, true, true,
                                          r.storeCorrupt, r.drift)))
  }

  function InventoryRow(r: Row, i: ShareRecord): Row {
    var seen := r.(credentialApplicable := i.credentialApplicable, credentialHealthy := i.credentialHealthy);
    if r.storeCorrupt || r.drift then seen
    else seen.(shown := ClassifyRow(ClassifyInput(r.definitionState, r.authentication, r.runtime,
                                                  i.credentialApplicable, i.credentialHealthy, false, false, false)))
  }

  function ForeignRow(e: MountEntry): Row {
    Row("", e.mountSource, e.mountPoint, "", Credentials, ReadWrite, Undefined, NOT_READ, true, false, false, false,
        false, true, RowClassification(ShownForeign, false, false, false), NoRemoval)
  }

  // --- what every row satisfies ------------------------------------------------------------------

  /** The offer to remove a definition is exactly root's own stop gate, on a row nothing local contradicts. */
  predicate AgreesWithRoot(r: Row) {
    r.shown.canRemoveDefinition <==>
      (Removable(r.definitionState) && !r.drift && !r.storeCorrupt && StopAllowed(r.runtime))
  }

  /** The row of an owned unit: everything about the definition comes from its marker. */
  predicate RepresentsUnit(r: Row, u: LiveUnit) {
    && r.id == u.unit.id && r.mountPoint == u.unit.mountPoint && r.definitionState == u.unit.state
    && r.authentication == u.unit.authentication && r.access == u.unit.access && r.hasUnitFiles
    && r.runtime == (if Removable(u.unit.state) then u.runtime else NOT_READ)
    && r.shown.state != ShownForeign
    && AgreesWithRoot(r)
  }

  /** The row of a local record without a unit of its own id: never offers to remove a definition. */
  predicate RepresentsRecord(r: Row) {
    && r.hasStoreRecord && !r.shown.canRemoveDefinition && r.shown.state != ShownForeign
    && (Removable(r.definitionState) ==> r.drift)
  }

  predicate Untouched(r: Row) {
    !r.hasStoreRecord && !r.drift && !r.storeCorrupt
  }

  lemma UnitRowRepresents(u: LiveUnit)
    ensures RepresentsUnit(UnitRow(u), u) && Untouched(UnitRow(u))
  {
  }

  lemma MergedRowRepresents(r: Row, s: StoreSnapshot, u: LiveUnit)
    requires RepresentsUnit(r, u) && Untouched(r)
    ensures RepresentsUnit(MergedRow(r, s), u) && MergedRow(r, s).hasStoreRecord
    ensures MergedRow(r, s).id == r.id
  {
  }

  lemma StoreOnlyRowRepresents(disk: Disk, s: StoreSnapshot)
    ensures RepresentsRecord(StoreOnlyRow(disk, s)) && StoreOnlyRow(disk, s).id == s.share.id
  {
  }

  // --- the list, row by row --------------------------------------------------------------------

  /** Enumeration resets the id of everything but sound entries, whose ids differ (Pairing.ReportedIdsDiffer). */
  predicate DistinctUnitIds(units: seq<LiveUnit>) {
    forall i, j | 0 <= i < j < |units| :: units[i].unit.id == units[j].unit.id ==> units[i].unit.id == ""
  }

  /** Local records are configuration groups named by their id. */
  predicate DistinctIds(snaps: seq<StoreSnapshot>) {
    forall i, j | 0 <= i < j < |snaps| :: snaps[i].share.id != snaps[j].share.id
  }

  predicate Claims(units: seq<LiveUnit>, id: string) {
    id != "" && exists i | 0 <= i < |units| :: units[i].unit.id == id
  }

  /** The local record of an id. */
  function RecordOf(snaps: seq<StoreSnapshot>, id: string): Option<StoreSnapshot> {
    if snaps == [] then None
    else
      var n := |snaps| - 1;
      if id != "" && snaps[n].share.id == id then Some(snaps[n]) else RecordOf(snaps[..n], id)
  }

  function MergedUnitRow(u: LiveUnit, snaps: seq<StoreSnapshot>): (row: Row)
    ensures row.id == u.unit.id
  {
    match RecordOf(snaps, u.unit.id)
    case None => UnitRow(u)
    case Some(s) => MergedRow(UnitRow(u), s)
  }

  /** The local records no unit claims, in their order. */
  function Orphans(units: seq<LiveUnit>, snaps: seq<StoreSnapshot>): seq<StoreSnapshot> {
    if snaps == [] then []
    else
      var n := |snaps| - 1;
      Orphans(units, snaps[..n]) + if Claims(units, snaps[n].share.id) then [] else [snaps[n]]
  }

  function RowId(units: seq<LiveUnit>, orphans: seq<StoreSnapshot>, i: nat): string
    requires i < |units| + |orphans|
  {
    if i < |units| then units[i].unit.id else orphans[i - |units|].share.id
  }

  /** One row per unit, with its local record; then one row per record no unit claims. */
  function RowsOf(disk: Disk, units: seq<LiveUnit>, snaps: seq<StoreSnapshot>): (rows: seq<Row>)
    ensures |rows| == |units| + |Orphans(units, snaps)|
  {
    UnitRows(units, snaps) + RecordRows(disk, Orphans(units, snaps))
  }

  function UnitRows(units: seq<LiveUnit>, snaps: seq<StoreSnapshot>): (rows: seq<Row>)
    ensures |rows| == |units| && forall i :: 0 <= i < |units| ==> rows[i] == MergedUnitRow(units[i], snaps)
  {
    seq(|units|, i requires 0 <= i < |units| => MergedUnitRow(units[i], snaps))
  }

  function RecordRows(disk: Disk, orphans: seq<StoreSnapshot>): (rows: seq<Row>)
    ensures |rows| == |orphans| && forall i :: 0 <= i < |orphans| ==> rows[i] == StoreOnlyRow(disk, orphans[i])
  {
    seq(|orphans|, i requires 0 <= i < |orphans| => StoreOnlyRow(disk, orphans[i]))
  }

  lemma RowsOfAt(disk: Disk, units: seq<LiveUnit>, snaps: seq<StoreSnapshot>, i: nat)
    requires i < |RowsOf(disk, units, snaps)|
    ensures RowsOf(disk, units, snaps)[i] ==
            if i < |units| then MergedUnitRow(units[i], snaps)
            else StoreOnlyRow(disk, Orphans(units, snaps)[i - |units|])
    ensures RowsOf(disk, units, snaps)[i].id == RowId(units, Orphans(units, snaps), i)
  {
  }

  /** A row after everything the inventory says about its id. */
  function Informed(r: Row, inventory: seq<ShareRecord>): (seen: Row)
    ensures seen.id == r.id
  {
    if inventory == [] then r
    else
      var n := |inventory| - 1;
      var before := Informed(r, inventory[..n]);
      if r.id != "" && inventory[n].id == r.id then InventoryRow(before, inventory[n]) else before
  }

  function AllInformed(rows: seq<Row>, inventory: seq<ShareRecord>): (seen: seq<Row>)
    ensures |seen| == |rows| && forall i :: 0 <= i < |rows| ==> seen[i] == Informed(rows[i], inventory)
  {
    seq(|rows|, i requires 0 <= i < |rows| => Informed(rows[i], inventory))
  }

  /** Paths a row above already stands for. */
  function Covered(units: seq<LiveUnit>, snaps: seq<StoreSnapshot>): set<string> {
    (set i | 0 <= i < |units| :: units[i].unit.mountPoint)
    + (set s | s in Orphans(units, snaps) && s.share.mountPoint != "" :: s.share.mountPoint)
  }

  /** The live CIFS mounts no row above accounts for, in mountinfo order. */
  function ForeignRows(mounts: seq<MountEntry>, covered: set<string>): seq<Row> {
    if mounts == [] then []
    else if mounts[0].filesystemType != "cifs" || mounts[0].mountPoint in covered then ForeignRows(mounts[1..], covered)
    else [ForeignRow(mounts[0])] + ForeignRows(mounts[1..], covered)
  }

  function WithRemoval(rows: seq<Row>): (final: seq<Row>)
    ensures |final| == |rows|
    ensures forall i :: 0 <= i < |rows| ==> final[i] == rows[i].(removal := RowRemoval(rows[i]))
  {
    seq(|rows|, i requires 0 <= i < |rows| => rows[i].(removal := RowRemoval(rows[i])))
  }

  function OurRows(disk: Disk, units: seq<LiveUnit>, snaps: seq<StoreSnapshot>, inventory: Option<seq<ShareRecord>>)
    : (rows: seq<Row>)
    ensures |rows| == |RowsOf(disk, units, snaps)|
  {
    var rows := RowsOf(disk, units, snaps);
    if inventory.Some? then AllInformed(rows, inventory.value) else rows
  }

  /**
   * The whole list, each row a function of what its own sources say. An unreadable
   * inventory or mount table is skipped, never taken for an empty one.
   */
  function Refresh(disk: Disk, units: seq<LiveUnit>, snaps: seq<StoreSnapshot>,
                   inventory: Option<seq<ShareRecord>>, mounts: Option<seq<MountEntry>>): seq<Row>
  {
    WithRemoval(OurRows(disk, units, snaps, inventory)
                + if mounts.Some? then ForeignRows(mounts.value, Covered(units, snaps)) else [])
  }

  lemma FinalAt(ours: seq<Row>, foreign: seq<Row>, i: nat)
    requires i < |WithRemoval(ours + foreign)|
    ensures i < |ours| + |foreign|
    ensures var r := if i < |ours| then ours[i] else foreign[i - |ours|];
            WithRemoval(ours + foreign)[i] == r.(removal := RowRemoval(r))
  {
  }

  /** Where a row of the list comes from. */
  lemma RefreshAt(disk: Disk, units: seq<LiveUnit>, snaps: seq<StoreSnapshot>,
                  inventory: Option<seq<ShareRecord>>, mounts: Option<seq<MountEntry>>, i: nat)
    requires i < |Refresh(disk, units, snaps, inventory, mounts)|
    ensures var ours := OurRows(disk, units, snaps, inventory);
            var foreign := if mounts.Some? then ForeignRows(mounts.value, Covered(units, snaps)) else [];
            && i < |ours| + |foreign|
            && var r := if i < |ours| then ours[i] else foreign[i - |ours|];
               Refresh(disk, units, snaps, inventory, mounts)[i] == r.(removal := RowRemoval(r))
  {
    FinalAt(OurRows(disk, units, snaps, inventory),
            if mounts.Some? then ForeignRows(mounts.value, Covered(units, snaps)) else [], i);
  }

  // --- the passes --------------------------------------------------------------------------------

  /** Every id leads to the one row that carries it. */
  ghost predicate Indexes(index: map<string, nat>, rows: seq<Row>) {
    && (forall id :: id in index ==> id != "" && index[id] < |rows| && rows[index[id]].id == id)
    && (forall i :: 0 <= i < |rows| && rows[i].id != "" ==> rows[i].id in index && index[rows[i].id] == i)
  }

  method UnitPass(units: seq<LiveUnit>, ghost disk: Disk, ghost snaps: seq<StoreSnapshot>)
    returns (rows: seq<Row>, index: map<string, nat>, covered: set<string>)
    requires DistinctUnitIds(units)
    ensures Stored(disk, units, snaps, 0, rows, index, covered)
  {
    rows, index, covered := [], map[], {};
    for i := 0 to |units|
      invariant |rows| == i && Indexes(index, rows)
      invariant forall j :: 0 <= j < i ==> rows[j] == UnitRow(units[j])
      invariant covered == set j | 0 <= j < i :: units[j].unit.mountPoint
    {
      covered := covered + {units[i].unit.mountPoint};
      if units[i].unit.id != "" {
        index := index[units[i].unit.id := |rows|];
      }
      rows := rows + [UnitRow(units[i])];
    }
  }

  lemma {:induction false} RecordOfIsThere(snaps: seq<StoreSnapshot>, id: string)
    ensures RecordOf(snaps, id).Some? ==> RecordOf(snaps, id).value in snaps && RecordOf(snaps, id).value.share.id == id
    ensures RecordOf(snaps, id).Some? <==> id != "" && exists s :: s in snaps && s.share.id == id
    decreases |snaps|
  {
    if snaps != [] {
      var n := |snaps| - 1;
      assert snaps == snaps[..n] + [snaps[n]];
      RecordOfIsThere(snaps[..n], id);
    }
  }

  lemma {:induction false} OrphansAreThere(units: seq<LiveUnit>, snaps: seq<StoreSnapshot>)
    ensures forall s :: s in Orphans(units, snaps) <==> s in snaps && !Claims(units, s.share.id)
    decreases |snaps|
  {
    if snaps != [] {
      var n := |snaps| - 1;
      assert snaps == snaps[..n] + [snaps[n]];
      OrphansAreThere(units, snaps[..n]);
    }
  }

  lemma NewSnapshot(snaps: seq<StoreSnapshot>, k: nat)
    requires k < |snaps| && DistinctIds(snaps)
    ensures forall s :: s in snaps[..k] ==> s.share.id != snaps[k].share.id
    ensures snaps[..k + 1] == snaps[..k] + [snaps[k]]
  {
  }

  /** An indexed id that a new record carries belongs to a unit without a record so far. */
  lemma IndexedIsClaimed(disk: Disk, units: seq<LiveUnit>, snaps: seq<StoreSnapshot>, k: nat, index: map<string, nat>)
    requires k < |snaps| && DistinctIds(snaps)
    requires Indexes(index, RowsOf(disk, units, snaps[..k]))
    ensures snaps[k].share.id in index <==> Claims(units, snaps[k].share.id)
    ensures var id := snaps[k].share.id;
            id in index ==> index[id] < |units| && units[index[id]].unit.id == id && RecordOf(snaps[..k], id).None?
  {
    var id, rows := snaps[k].share.id, RowsOf(disk, units, snaps[..k]);
    NewSnapshot(snaps, k);
    RecordOfIsThere(snaps[..k], id);
    OrphansAreThere(units, snaps[..k]);
    forall i | 0 <= i < |rows| ensures rows[i].id == RowId(units, Orphans(units, snaps[..k]), i) {
      RowsOfAt(disk, units, snaps[..k], i);
    }
    forall i | |units| <= i < |rows| ensures rows[i].id != id {
      assert Orphans(units, snaps[..k])[i - |units|] in snaps[..k];
    }
    if Claims(units, id) {
      var i :| 0 <= i < |units| && units[i].unit.id == id;
      assert rows[i].id == id;
    }
  }

  lemma RecordOfStep(snaps: seq<StoreSnapshot>, k: nat, id: string)
    requires k < |snaps|
    ensures RecordOf(snaps[..k + 1], id) ==
            if id != "" && snaps[k].share.id == id then Some(snaps[k]) else RecordOf(snaps[..k], id)
  {
    assert snaps[..k + 1][..k] == snaps[..k];
  }

  lemma OrphansStep(units: seq<LiveUnit>, snaps: seq<StoreSnapshot>, k: nat)
    requires k < |snaps|
    ensures Orphans(units, snaps[..k + 1]) ==
            Orphans(units, snaps[..k]) + if Claims(units, snaps[k].share.id) then [] else [snaps[k]]
  {
    assert snaps[..k + 1][..k] == snaps[..k];
  }

  lemma MergedInPlace(units: seq<LiveUnit>, snaps: seq<StoreSnapshot>, k: nat, at: nat)
    requires k < |snaps| && DistinctUnitIds(units) && at < |units|
    requires units[at].unit.id == snaps[k].share.id != "" && RecordOf(snaps[..k], snaps[k].share.id).None?
    ensures var rows := UnitRows(units, snaps[..k]);
            UnitRows(units, snaps[..k + 1]) == rows[at := MergedRow(rows[at], snaps[k])]
  {
    var rows, next := UnitRows(units, snaps[..k]), UnitRows(units, snaps[..k + 1]);
    forall i | 0 <= i < |units| ensures next[i] == if i == at then MergedRow(rows[at], snaps[k]) else rows[i] {
      RecordOfStep(snaps, k, units[i].unit.id);
      assert i != at ==> units[i].unit.id != units[at].unit.id;
    }
  }

  lemma MergeStep(disk: Disk, units: seq<LiveUnit>, snaps: seq<StoreSnapshot>, k: nat, at: nat)
    requires k < |snaps| && DistinctUnitIds(units) && at < |units|
    requires units[at].unit.id == snaps[k].share.id != "" && RecordOf(snaps[..k], snaps[k].share.id).None?
    ensures var rows := RowsOf(disk, units, snaps[..k]);
            RowsOf(disk, units, snaps[..k + 1]) == rows[at := MergedRow(rows[at], snaps[k])]
  {
    assert Claims(units, snaps[k].share.id);
    OrphansStep(units, snaps, k);
    MergedInPlace(units, snaps, k, at);
    InFrontOf(UnitRows(units, snaps[..k]), RecordRows(disk, Orphans(units, snaps[..k])), at, snaps[k]);
  }

  lemma InFrontOf(a: seq<Row>, b: seq<Row>, at: nat, s: StoreSnapshot)
    requires at < |a|
    ensures (a + b)[at := MergedRow((a + b)[at], s)] == a[at := MergedRow(a[at], s)] + b
  {
  }

  lemma NotMerged(units: seq<LiveUnit>, snaps: seq<StoreSnapshot>, k: nat)
    requires k < |snaps| && !Claims(units, snaps[k].share.id)
    ensures UnitRows(units, snaps[..k + 1]) == UnitRows(units, snaps[..k])
  {
    forall i | 0 <= i < |units| ensures UnitRows(units, snaps[..k + 1])[i] == UnitRows(units, snaps[..k])[i] {
      RecordOfStep(snaps, k, units[i].unit.id);
    }
  }

  lemma RecordRowsAppend(disk: Disk, orphans: seq<StoreSnapshot>, s: StoreSnapshot)
    ensures RecordRows(disk, orphans + [s]) == RecordRows(disk, orphans) + [StoreOnlyRow(disk, s)]
  {
  }

  lemma AppendStep(disk: Disk, units: seq<LiveUnit>, snaps: seq<StoreSnapshot>, k: nat)
    requires k < |snaps| && !Claims(units, snaps[k].share.id)
    ensures RowsOf(disk, units, snaps[..k + 1]) == RowsOf(disk, units, snaps[..k]) + [StoreOnlyRow(disk, snaps[k])]
    ensures Covered(units, snaps[..k + 1]) ==
            Covered(units, snaps[..k]) + if snaps[k].share.mountPoint != "" then {snaps[k].share.mountPoint} else {}
  {
    NotMerged(units, snaps, k);
    OrphansStep(units, snaps, k);
    RecordRowsAppend(disk, Orphans(units, snaps[..k]), snaps[k]);
  }

  lemma CoveredAsBefore(units: seq<LiveUnit>, snaps: seq<StoreSnapshot>, k: nat)
    requires k < |snaps| && Claims(units, snaps[k].share.id)
    ensures Covered(units, snaps[..k + 1]) == Covered(units, snaps[..k])
  {
    assert snaps[..k + 1][..k] == snaps[..k];
  }

  lemma IndexesReplaced(index: map<string, nat>, rows: seq<Row>, at: nat, r: Row)
    requires Indexes(index, rows) && at < |rows| && r.id == rows[at].id
    ensures Indexes(index, rows[at := r])
  {
  }

  lemma IndexesAppended(index: map<string, nat>, rows: seq<Row>, r: Row)
    requires Indexes(index, rows) && r.id !in index
    ensures Indexes(if r.id != "" then index[r.id := |rows|] else index, rows + [r])
  {
  }

  /** Rows, index and covered paths after the first k local records. */
  ghost predicate Stored(disk: Disk, units: seq<LiveUnit>, snaps: seq<StoreSnapshot>, k: nat,
                         rows: seq<Row>, index: map<string, nat>, covered: set<string>)
    requires k <= |snaps|
  {
    rows == RowsOf(disk, units, snaps[..k]) && Indexes(index, rows) && covered == Covered(units, snaps[..k])
  }

  lemma StoreMerged(disk: Disk, units: seq<LiveUnit>, snaps: seq<StoreSnapshot>, k: nat,
                    rows: seq<Row>, index: map<string, nat>, covered: set<string>)
    requires k < |snaps| && DistinctIds(snaps) && DistinctUnitIds(units)
    requires Stored(disk, units, snaps, k, rows, index, covered) && snaps[k].share.id in index
    ensures var at := index[snaps[k].share.id];
            at < |rows| && Stored(disk, units, snaps, k + 1, rows[at := MergedRow(rows[at], snaps[k])], index, covered)
  {
    IndexedIsClaimed(disk, units, snaps, k, index);
    var at := index[snaps[k].share.id];
    MergeStep(disk, units, snaps, k, at);
    CoveredAsBefore(units, snaps, k);
    IndexesReplaced(index, rows, at, MergedRow(rows[at], snaps[k]));
  }

  lemma StoreAppended(disk: Disk, units: seq<LiveUnit>, snaps: seq<StoreSnapshot>, k: nat,
                      rows: seq<Row>, index: map<string, nat>, covered: set<string>)
    requires k < |snaps| && DistinctIds(snaps) && DistinctUnitIds(units)
    requires Stored(disk, units, snaps, k, rows, index, covered) && snaps[k].share.id !in index
    ensures var share := snaps[k].share;
            Stored(disk, units, snaps, k + 1, rows + [StoreOnlyRow(disk, snaps[k])],
                   if share.id != "" then index[share.id := |rows|] else index,
                   covered + if share.mountPoint != "" then {share.mountPoint} else {})
  {
    IndexedIsClaimed(disk, units, snaps, k, index);
    AppendStep(disk, units, snaps, k);
    IndexesAppended(index, rows, StoreOnlyRow(disk, snaps[k]));
  }

  /** Local records: merged by exact id, or a row of their own; never adopted by path. */
  method StorePass(disk: Disk, units: seq<LiveUnit>, snaps: seq<StoreSnapshot>, rows0: seq<Row>,
                   index0: map<string, nat>, covered0: set<string>)
    returns (rows: seq<Row>, index: map<string, nat>, covered: set<string>)
    requires DistinctIds(snaps) && DistinctUnitIds(units) && Stored(disk, units, snaps, 0, rows0, index0, covered0)
    ensures Stored(disk, units, snaps, |snaps|, rows, index, covered)
  {
    rows, index, covered := rows0, index0, covered0;
    for k := 0 to |snaps|
      invariant Stored(disk, units, snaps, k, rows, index, covered)
    {
      var s := snaps[k];
      if s.share.id != "" && s.share.id in index {
        StoreMerged(disk, units, snaps, k, rows, index, covered);
        var at := index[s.share.id];
        rows := rows[at := MergedRow(rows[at], s)];
      } else {
        StoreAppended(disk, units, snaps, k, rows, index, covered);
        if s.share.id != "" {
          index := index[s.share.id := |rows|];
        }
        rows := rows + [StoreOnlyRow(disk, s)];
        if s.share.mountPoint != "" {
          covered := covered + {s.share.mountPoint};
        }
      }
    }
  }

  lemma InformStep(r: Row, inventory: seq<ShareRecord>, k: nat)
    requires k < |inventory|
    ensures var before := Informed(r, inventory[..k]);
            Informed(r, inventory[..k + 1]) ==
            if r.id != "" && inventory[k].id == r.id then InventoryRow(before, inventory[k]) else before
  {
    assert inventory[..k + 1][..k] == inventory[..k];
  }

  /** Fresh credential health, folded into rows that nothing local blocks. */
  method InventoryPass(inventory: seq<ShareRecord>, rows0: seq<Row>, index: map<string, nat>) returns (rows: seq<Row>)
    requires Indexes(index, rows0)
    ensures rows == AllInformed(rows0, inventory)
  {
    rows := rows0;
    for k := 0 to |inventory|
      invariant rows == AllInformed(rows0, inventory[..k])
    {
      var record := inventory[k];
      forall i | 0 <= i < |rows0|
        ensures Informed(rows0[i], inventory[..k + 1]) ==
                if rows0[i].id != "" && record.id == rows0[i].id then InventoryRow(rows[i], record) else rows[i]
      {
        InformStep(rows0[i], inventory, k);
      }
      if record.id != "" && record.id in index {
        rows := rows[index[record.id] := InventoryRow(rows[index[record.id]], record)];
      }
    }
    assert inventory[..|inventory|] == inventory;
  }

  method ForeignPass(mounts: seq<MountEntry>, covered: set<string>, rows0: seq<Row>) returns (rows: seq<Row>)
    ensures rows == rows0 + ForeignRows(mounts, covered)
  {
    rows := rows0;
    for k := 0 to |mounts|
      invariant rows + ForeignRows(mounts[k..], covered) == rows0 + ForeignRows(mounts, covered)
    {
      assert mounts[k..][0] == mounts[k] && mounts[k..][1..] == mounts[k + 1..];
      if mounts[k].filesystemType == "cifs" && mounts[k].mountPoint !in covered {
        rows := rows + [ForeignRow(mounts[k])];
      }
    }
  }

  /** Presentation and removal last, so that they describe each row's final state. */
  method RemovalPass(rows0: seq<Row>) returns (rows: seq<Row>)
    ensures rows == WithRemoval(rows0)
  {
    rows := rows0;
    for i := 0 to |rows|
      invariant |rows| == |rows0|
      invariant forall j :: 0 <= j < |rows| ==>
                  rows[j] == if j < i then rows0[j].(removal := RowRemoval(rows0[j])) else rows0[j]
    {
      rows := rows[i := rows[i].(removal := RowRemoval(rows[i]))];
    }
  }

  /** computeRefresh: four passes over one list and an index into it compute every row by itself. */
  method ComputeRefresh(disk: Disk, units: seq<LiveUnit>, snaps: seq<StoreSnapshot>,
                        inventory: Option<seq<ShareRecord>>, mounts: Option<seq<MountEntry>>)
    returns (rows: seq<Row>)
    requires DistinctIds(snaps) && DistinctUnitIds(units)
    ensures rows == Refresh(disk, units, snaps, inventory, mounts)
  {
    var index, covered;
    rows, index, covered := UnitPass(units, disk, snaps);
    rows, index, covered := StorePass(disk, units, snaps, rows, index, covered);
    assert snaps[..|snaps|] == snaps;
    if inventory.Some? {
      rows := InventoryPass(inventory.value, rows, index);
    }
    assert rows == OurRows(disk, units, snaps, inventory);
    if mounts.Some? {
      rows := ForeignPass(mounts.value, covered, rows);
    }
    rows := RemovalPass(rows);
  }

  // --- what the list promises ----------------------------------------------------------------------

  lemma {:induction false} InformedRepresents(r: Row, inventory: seq<ShareRecord>, u: LiveUnit)
    requires RepresentsUnit(r, u)
    ensures RepresentsUnit(Informed(r, inventory), u) && Informed(r, inventory).hasStoreRecord == r.hasStoreRecord
    decreases |inventory|
  {
    if inventory != [] { InformedRepresents(r, inventory[..|inventory| - 1], u); }
  }

  lemma UnitRowsRepresent(units: seq<LiveUnit>, snaps: seq<StoreSnapshot>, i: nat)
    requires i < |units|
    ensures var r := MergedUnitRow(units[i], snaps);
            RepresentsUnit(r, units[i]) && (r.hasStoreRecord <==> RecordOf(snaps, r.id).Some?)
  {
    UnitRowRepresents(units[i]);
    match RecordOf(snaps, units[i].unit.id)
    case None =>
    case Some(s) => MergedRowRepresents(UnitRow(units[i]), s, units[i]);
  }

  lemma OurUnitRow(disk: Disk, units: seq<LiveUnit>, snaps: seq<StoreSnapshot>,
                   inventory: Option<seq<ShareRecord>>, i: nat)
    requires i < |units|
    ensures var r := OurRows(disk, units, snaps, inventory)[i];
            RepresentsUnit(r, units[i]) && (r.hasStoreRecord <==> RecordOf(snaps, r.id).Some?)
  {
    UnitRowsRepresent(units, snaps, i);
    RowsOfAt(disk, units, snaps, i);
    var r := RowsOf(disk, units, snaps)[i];
    if inventory.Some? { InformedRepresents(r, inventory.value, units[i]); }
  }

  lemma OurRecordRow(disk: Disk, units: seq<LiveUnit>, snaps: seq<StoreSnapshot>,
                     inventory: Option<seq<ShareRecord>>, i: nat)
    requires |units| <= i < |RowsOf(disk, units, snaps)|
    ensures var r := OurRows(disk, units, snaps, inventory)[i];
            RepresentsRecord(r) && r.id == Orphans(units, snaps)[i - |units|].share.id
  {
    var j := i - |units|;
    var s := Orphans(units, snaps)[j];
    StoreOnlyRowRepresents(disk, s);
    RowsOfAt(disk, units, snaps, i);
    var r := RowsOf(disk, units, snaps)[i];
    if inventory.Some? { RecordRowInformed(r, inventory.value); }
  }

  lemma {:induction false} RecordRowInformed(r: Row, inventory: seq<ShareRecord>)
    requires RepresentsRecord(r)
    ensures RepresentsRecord(Informed(r, inventory))
    decreases |inventory|
  {
    if inventory != [] { RecordRowInformed(r, inventory[..|inventory| - 1]); }
  }

  lemma OurRowRepresents(disk: Disk, units: seq<LiveUnit>, snaps: seq<StoreSnapshot>,
                         inventory: Option<seq<ShareRecord>>, i: nat)
    requires i < |RowsOf(disk, units, snaps)|
    ensures var r := OurRows(disk, units, snaps, inventory)[i];
            if i < |units| then RepresentsUnit(r, units[i]) && (r.hasStoreRecord <==> RecordOf(snaps, r.id).Some?)
            else RepresentsRecord(r) && r.id == Orphans(units, snaps)[i - |units|].share.id
  {
    if i < |units| {
      OurUnitRow(disk, units, snaps, inventory, i);
    } else {
      OurRecordRow(disk, units, snaps, inventory, i);
    }
  }

  predicate ShowsForeign(r: Row, e: MountEntry) {
    r.shown.state == ShownForeign && r.mountPoint == e.mountPoint && r.unc == e.mountSource
  }

  lemma {:induction false} ForeignRowsShow(mounts: seq<MountEntry>, covered: set<string>)
    ensures forall r :: r in ForeignRows(mounts, covered) ==> exists e :: e in mounts && r == ForeignRow(e)
    ensures forall e :: e in mounts && e.filesystemType == "cifs" && e.mountPoint !in covered ==>
              ForeignRow(e) in ForeignRows(mounts, covered)
  {
    if mounts != [] {
      ForeignRowsShow(mounts[1..], covered);
      assert mounts == [mounts[0]] + mounts[1..];
    }
  }

  ghost predicate FromMount(mounts: seq<MountEntry>, r: Row) {
    exists e :: e in mounts && r == ForeignRow(e)
  }

  lemma ForeignOffersNothing(mounts: seq<MountEntry>, covered: set<string>, j: nat)
    requires j < |ForeignRows(mounts, covered)|
    ensures var r := ForeignRows(mounts, covered)[j];
            FromMount(mounts, r.(removal := RowRemoval(r)))
  {
    ForeignRowsShow(mounts, covered);
    var r := ForeignRows(mounts, covered)[j];
    assert r in ForeignRows(mounts, covered);
    var e :| e in mounts && r == ForeignRow(e);
    assert r.(removal := RowRemoval(r)) == ForeignRow(e);
  }

  lemma ForeignAt(disk: Disk, units: seq<LiveUnit>, snaps: seq<StoreSnapshot>,
                  inventory: Option<seq<ShareRecord>>, mounts: Option<seq<MountEntry>>, i: nat)
    requires |RowsOf(disk, units, snaps)| <= i < |Refresh(disk, units, snaps, inventory, mounts)|
    ensures mounts.Some? && FromMount(mounts.value, Refresh(disk, units, snaps, inventory, mounts)[i])
  {
    FinalForeign(OurRows(disk, units, snaps, inventory), if mounts.Some? then mounts.value else [],
                 Covered(units, snaps), i);
  }

  lemma FinalForeign(ours: seq<Row>, mounts: seq<MountEntry>, covered: set<string>, i: nat)
    requires |ours| <= i < |WithRemoval(ours + ForeignRows(mounts, covered))|
    ensures FromMount(mounts, WithRemoval(ours + ForeignRows(mounts, covered))[i])
  {
    FinalAt(ours, ForeignRows(mounts, covered), i);
    ForeignOffersNothing(mounts, covered, i - |ours|);
  }

  /** The rows of other tools' mounts are one block at the end, and offer nothing. */
  lemma ForeignRowsAreASuffix(disk: Disk, units: seq<LiveUnit>, snaps: seq<StoreSnapshot>,
                              inventory: Option<seq<ShareRecord>>, mounts: Option<seq<MountEntry>>, i: nat)
    requires i < |Refresh(disk, units, snaps, inventory, mounts)|
    ensures var r := Refresh(disk, units, snaps, inventory, mounts)[i];
            && (r.shown.state == ShownForeign <==> |units| + |Orphans(units, snaps)| <= i)
            && (r.shown.state == ShownForeign ==> r.removal == NoRemoval)
  {
    RefreshAt(disk, units, snaps, inventory, mounts, i);
    if i < |RowsOf(disk, units, snaps)| {
      OurRowRepresents(disk, units, snaps, inventory, i);
    } else {
      ForeignAt(disk, units, snaps, inventory, mounts, i);
    }
  }

  lemma {:induction false} OrphansDiffer(units: seq<LiveUnit>, snaps: seq<StoreSnapshot>)
    requires DistinctIds(snaps)
    ensures DistinctIds(Orphans(units, snaps))
    decreases |snaps|
  {
    if snaps != [] {
      var n := |snaps| - 1;
      OrphansDiffer(units, snaps[..n]);
      OrphansAreThere(units, snaps[..n]);
      var before := Orphans(units, snaps[..n]);
      forall i | 0 <= i < |before| ensures before[i].share.id != snaps[n].share.id {
        assert before[i] in snaps[..n];
      }
    }
  }

  /** A row that holds a record is that of a unit with its id, or the row of an orphan with its id. */
  lemma HolderIs(disk: Disk, units: seq<LiveUnit>, snaps: seq<StoreSnapshot>,
                 inventory: Option<seq<ShareRecord>>, mounts: Option<seq<MountEntry>>, j: nat, s: StoreSnapshot)
    requires Holds(Refresh(disk, units, snaps, inventory, mounts), j, s)
    ensures j < |units| + |Orphans(units, snaps)| && RowId(units, Orphans(units, snaps), j) == s.share.id
    ensures j < |units| ==> s.share.id != ""
  {
    RefreshAt(disk, units, snaps, inventory, mounts, j);
    if j < |RowsOf(disk, units, snaps)| {
      OurRowRepresents(disk, units, snaps, inventory, j);
      RecordOfIsThere(snaps, s.share.id);
    } else {
      ForeignAt(disk, units, snaps, inventory, mounts, j);
    }
  }

  lemma SamePlace(units: seq<LiveUnit>, snaps: seq<StoreSnapshot>, i: nat, j: nat, id: string)
    requires DistinctIds(snaps) && DistinctUnitIds(units)
    requires i < |units| + |Orphans(units, snaps)| && RowId(units, Orphans(units, snaps), i) == id
    requires j < |units| + |Orphans(units, snaps)| && RowId(units, Orphans(units, snaps), j) == id
    requires i < |units| || j < |units| ==> id != ""
    ensures i == j
  {
    OrphansDiffer(units, snaps);
    OrphansAreThere(units, snaps);
    var orphans := Orphans(units, snaps);
    forall k | 0 <= k < |orphans| ensures !Claims(units, orphans[k].share.id) {
      assert orphans[k] in orphans;
    }
  }

  /** Nothing is lost or doubled: every local record has exactly one row, a unit's exactly when a unit claims it. */
  lemma EveryRecordHasOneRow(disk: Disk, units: seq<LiveUnit>, snaps: seq<StoreSnapshot>,
                             inventory: Option<seq<ShareRecord>>, mounts: Option<seq<MountEntry>>, s: StoreSnapshot)
    requires DistinctIds(snaps) && DistinctUnitIds(units) && s in snaps
    ensures exists i: nat :: Holds(Refresh(disk, units, snaps, inventory, mounts), i, s)
                        && (i < |units| <==> Claims(units, s.share.id))
                        && forall j: nat :: Holds(Refresh(disk, units, snaps, inventory, mounts), j, s) ==> j == i
  {
    var i := PlaceOf(units, snaps, s);
    OurRowRepresents(disk, units, snaps, inventory, i);
    RefreshAt(disk, units, snaps, inventory, mounts, i);
    assert Holds(Refresh(disk, units, snaps, inventory, mounts), i, s);
    HolderIs(disk, units, snaps, inventory, mounts, i, s);
    forall j: nat | Holds(Refresh(disk, units, snaps, inventory, mounts), j, s) ensures j == i {
      HolderIs(disk, units, snaps, inventory, mounts, j, s);
      SamePlace(units, snaps, i, j, s.share.id);
    }
  }

  lemma PlaceOf(units: seq<LiveUnit>, snaps: seq<StoreSnapshot>, s: StoreSnapshot) returns (i: nat)
    requires s in snaps
    ensures i < |units| + |Orphans(units, snaps)| && RowId(units, Orphans(units, snaps), i) == s.share.id
    ensures if Claims(units, s.share.id) then i < |units| && RecordOf(snaps, s.share.id).Some? else i >= |units|
  {
    if Claims(units, s.share.id) {
      RecordOfIsThere(snaps, s.share.id);
      i :| i < |units| && units[i].unit.id == s.share.id;
    } else {
      OrphansAreThere(units, snaps);
      var j :| 0 <= j < |Orphans(units, snaps)| && Orphans(units, snaps)[j] == s;
      i := |units| + j;
    }
  }

  predicate Holds(rows: seq<Row>, i: nat, s: StoreSnapshot) {
    i < |rows| && rows[i].hasStoreRecord && rows[i].id == s.share.id
  }

  lemma ForeignIsShown(e: MountEntry)
    ensures ShowsForeign(ForeignRow(e).(removal := RowRemoval(ForeignRow(e))), e)
  {
  }

  lemma EveryMountIsAccountedFor(disk: Disk, units: seq<LiveUnit>, snaps: seq<StoreSnapshot>,
                                 inventory: Option<seq<ShareRecord>>, mounts: seq<MountEntry>, e: MountEntry)
    requires e in mounts && e.filesystemType == "cifs"
    ensures || (exists u :: u in units && u.unit.mountPoint == e.mountPoint)
            || (exists s :: s in snaps && s.share.mountPoint == e.mountPoint)
            || Shown(Refresh(disk, units, snaps, inventory, Some(mounts)), e)
  {
    OrphansAreThere(units, snaps);
    if e.mountPoint !in Covered(units, snaps) {
      ForeignRowsShow(mounts, Covered(units, snaps));
      ForeignInList(OurRows(disk, units, snaps, inventory), ForeignRows(mounts, Covered(units, snaps)), e);
    }
  }

  ghost predicate Shown(rows: seq<Row>, e: MountEntry) {
    exists r :: r in rows && ShowsForeign(r, e)
  }

  lemma ForeignInList(ours: seq<Row>, foreign: seq<Row>, e: MountEntry)
    requires ForeignRow(e) in foreign
    ensures Shown(WithRemoval(ours + foreign), e)
  {
    var i :| 0 <= i < |foreign| && foreign[i] == ForeignRow(e);
    ForeignIsShown(e);
    assert (ours + foreign)[|ours| + i] == ForeignRow(e);
    assert ShowsForeign(WithRemoval(ours + foreign)[|ours| + i], e);
  }

  /**
   * What the list offers: removing a definition exactly where root's stop gate would let
   * it happen on a sound row nothing local contradicts; a drifted or corrupt row never,
   * whatever else was learnt about it.
   */
  lemma RemovalOfferAgreesWithRoot(disk: Disk, units: seq<LiveUnit>, snaps: seq<StoreSnapshot>,
                                   inventory: Option<seq<ShareRecord>>, mounts: Option<seq<MountEntry>>, i: nat)
    requires i < |Refresh(disk, units, snaps, inventory, mounts)|
    ensures var r := Refresh(disk, units, snaps, inventory, mounts)[i];
            && (r.removal in {DeleteShare, RemoveOrphan} <==>
                  i < |units| && units[i].unit.state in {Pair, Partial} && !r.drift && !r.storeCorrupt
                  && EvaluateStopPrecheck(units[i].runtime) in {ShouldStop, AlreadyInactive})
            && (r.drift || r.storeCorrupt ==> r.removal in {RemoveRecord, NoRemoval})
  {
    RefreshAt(disk, units, snaps, inventory, mounts, i);
    if i < |RowsOf(disk, units, snaps)| {
      OurRowRepresents(disk, units, snaps, inventory, i);
    } else {
      ForeignAt(disk, units, snaps, inventory, mounts, i);
    }
  }

  // --- the offer to drop a local record ---------------------------------------------------------------

  predicate Mentions(inventory: Option<seq<ShareRecord>>, id: string) {
    id != "" && inventory.Some? && exists i | i in inventory.value :: i.id == id
  }

  lemma {:induction false} RecordOfferInformed(r: Row, inventory: seq<ShareRecord>)
    requires RepresentsRecord(r) && r.shown.canRemoveLocalRecord
    ensures var seen := Informed(r, inventory);
            && seen.drift == r.drift && seen.storeCorrupt == r.storeCorrupt && RepresentsRecord(seen)
            && (seen.shown.canRemoveLocalRecord <==> r.drift || r.storeCorrupt || !Mentions(Some(inventory), r.id))
    decreases |inventory|
  {
    if inventory != [] {
      var n := |inventory| - 1;
      RecordOfferInformed(r, inventory[..n]);
      assert inventory == inventory[..n] + [inventory[n]];
    }
  }

  lemma StoreOnlyRowOffers(disk: Disk, s: StoreSnapshot)
    ensures StoreOnlyRow(disk, s).shown.canRemoveLocalRecord
  {
  }

  lemma OurRecordOffers(disk: Disk, units: seq<LiveUnit>, snaps: seq<StoreSnapshot>,
                        inventory: Option<seq<ShareRecord>>, i: nat)
    requires |units| <= i < |RowsOf(disk, units, snaps)|
    ensures var r := OurRows(disk, units, snaps, inventory)[i];
            RepresentsRecord(r)
            && (r.shown.canRemoveLocalRecord <==> r.drift || r.storeCorrupt || !Mentions(inventory, r.id))
  {
    var s := Orphans(units, snaps)[i - |units|];
    var r := StoreOnlyRow(disk, s);
    StoreOnlyRowRepresents(disk, s);
    StoreOnlyRowOffers(disk, s);
    RowsOfAt(disk, units, snaps, i);
    if inventory.Some? { RecordOfferInformed(r, inventory.value); }
  }

  lemma RecordRemoval(r: Row)
    requires RepresentsRecord(r)
    ensures RowRemoval(r) == RemoveRecord <==> r.shown.canRemoveLocalRecord
  {
  }

  /**
   * A record no unit claims can be removed, with one exception the code makes: when the
   * inventory lists its id after all (the unit appeared after the scan), a record that is
   * neither drifted nor corrupt loses the offer until the next refresh.
   */
  lemma RecordOfferIsKeptUnlessInventoried(disk: Disk, units: seq<LiveUnit>, snaps: seq<StoreSnapshot>,
                                           inventory: Option<seq<ShareRecord>>, mounts: Option<seq<MountEntry>>, i: nat)
    requires |units| <= i < |RowsOf(disk, units, snaps)| <= |Refresh(disk, units, snaps, inventory, mounts)|
    ensures var r := Refresh(disk, units, snaps, inventory, mounts)[i];
            r.removal == RemoveRecord <==> r.drift || r.storeCorrupt || !Mentions(inventory, r.id)
  {
    RefreshAt(disk, units, snaps, inventory, mounts, i);
    OurRecordOffers(disk, units, snaps, inventory, i);
    RecordRemoval(OurRows(disk, units, snaps, inventory)[i]);
  }
}
