/**
 * Arming and stopping one share's trigger (src/root/arming.cpp), on top of the
 * runtime reading of src/core/verify.cpp.
 */
module Trigger {
  import opened Types
  import opened World
  import opened Host
  import opened Arming

  /**
   * inspectRuntime. A fault anywhere reads as Indeterminate, or as Untrusted for
   * the recorded id. `seen` is the mount that mountinfo showed over the trigger. Each
   * reading is true of its own moment; Trusted is read last and is true at the end.
   */
  method InspectRuntime(h: Host, n: string, what: string) returns (snap: Snapshot, ghost seen: Option<Cover>)
    requires Inv(h.w)
    modifies h
    ensures h.Looked(n) && Inv(h.w)
    ensures snap.automount == Inactive ==> Since(old(h.w), h.w, n)
    ensures snap.mount == Present && snap.verification == Match ==> seen.Some? && seen.value.source == Some(what)
    ensures snap.automount == Active && snap.mount == Absent && snap.trust == Trusted ==>
              h.alive && OnRecord(h.w, n) && n !in h.w.covers
    ensures h.Calm() ==>
              (snap.automount == Active ==> n in h.w.live) && (snap.automount == Inactive ==> n !in h.w.live)
    ensures h.Calm() ==>
              (snap.mount == Present ==> n in h.w.covers) && (snap.mount == Absent ==> n !in h.w.covers)
    ensures h.Calm() && snap.mount == Present && snap.verification == Match ==> h.w.covers[n].source == Some(what)
    ensures h.quiet && old(h.alive) ==> snap == Reading(old(h.w), n, what)
  {
    ghost var start := h.w;
    var automount := h.ShowAutomount(n);
    MeddledKeeps(start, h.w, n);
    ghost var shown := h.w;
    var mounts := h.ReadMount(n);
    MeddledTrans(start, shown, h.w, n);
    MeddledKeeps(start, h.w, n);
    var mount, verification, trust := MountIndeterminate, VerificationIndeterminate, TrustNotApplicable;
    seen := None;
    if mounts.Some? {
      seen := mounts.value;
      mount := if mounts.value.Some? then Present else Absent;
      verification := if mounts.value.None? then NotApplicable
                      else if mounts.value.value.source == Some(what) then Match else Mismatch;
    }
    if automount == Active {
      trust := CompareIds(h, n, start);
    }
    snap := Snapshot(automount, mount, verification, trust);
  }

  /** The recorded id against the id of the topmost mount; 0 on either side is no match. */
  method CompareIds(h: Host, n: string, ghost start: World) returns (trust: Trust)
    requires Inv(start) && Inv(h.w) && Meddled(start, h.w, n)
    modifies h
    ensures h.Looked(n) && Inv(h.w) && Meddled(start, h.w, n)
    ensures trust == Trusted ==> h.alive && n in h.w.records && h.w.records[n] == TopId(h.w, n) != 0
    ensures trust == Trusted ==> OnRecord(h.w, n)
    ensures trust == Trusted && n !in old(h.w).covers ==> n !in h.w.covers
    ensures trust == Trusted || trust == Untrusted
    ensures h.quiet && old(h.alive) ==>
              (trust == Trusted <==> n in h.w.records && h.w.records[n] != 0 && h.w.records[n] == TopId(h.w, n))
  {
    var recordOk := h.Fallible();
    var recorded := if recordOk && n in h.w.records then h.w.records[n] else 0;
    var current := h.UniqueMountId(n);
    MeddledTrans(start, old(h.w), h.w, n);
    MeddledKeeps(start, h.w, n);
    trust := if recorded != 0 && current != 0 && recorded == current then Trusted else Untrusted;
    if trust == Trusted { TopIdOnRecord(h.w, n); }
  }

  datatype StopResult = Stopped | NothingRunning | Busy | Mismatched | Unknown

  /** The two results after which a caller may go on to delete. */
  predicate StopProven(r: StopResult) {
    r.Stopped? || r.NothingRunning?
  }

  /** A foreign instance that no arming call ever put on record. */
  predicate Stranger(w: World, n: string) {
    n in w.live && w.live[n] in w.foreign && w.live[n] !in w.raced
  }

  /**
   * safeStop. Whoever owns the trigger, after a proven stop nothing runs that ran
   * before. Without a matching mount in sight the only foreign instances it can hit are
   * those on record and those started during this very call. Left alone it stops a
   * stranger exactly under a mount of the expected share.
   */
  method SafeStop(h: Host, n: string, what: string) returns (r: StopResult, ghost seen: Option<Cover>)
    requires Inv(h.w)
    modifies h
    ensures Inv(h.w) && h.Touched(n)
    ensures StopProven(r) ==> h.alive && Since(old(h.w), h.w, n)
    ensures old(h.violations) <= h.violations
    ensures forall x :: x in h.violations && x !in old(h.violations) ==>
              x in h.w.foreign && (x >= old(h.w).nextId || x in old(h.w).raced)
    ensures h.Calm() ==> h.w == old(h.w).(live := h.w.live, covers := h.w.covers)
    ensures h.Calm() ==> h.w.live in {old(h.w).live, old(h.w).live - {n}}
    ensures h.Calm() ==> h.w.covers in {old(h.w).covers, old(h.w).covers - {n}}
    ensures h.Calm() && StopProven(r) ==> n !in h.w.live && n !in h.w.covers
    ensures h.Calm() && old(Stranger(h.w, n)) && n !in h.w.live ==>
              n in old(h.w).covers && old(h.w).covers[n].source == Some(what)
    ensures var hit := if old(n in h.w.live && n !in h.w.covers && h.w.live[n] in h.w.foreign) && n !in h.w.live
                       then {old(h.w.live[n])} else {};
            h.Calm() ==> h.violations == old(h.violations) + hit
    ensures h.quiet && old(h.alive) ==> (StopProven(r) <==> StopReady(old(h.w), n, what))
    ensures h.quiet && old(h.alive) && !StopProven(r) ==> h.w == old(h.w)
    ensures h.quiet && old(Stranger(h.w, n)) && old(h.alive) ==>
              (n !in h.w.live <==> n in old(h.w).covers && old(h.w).covers[n].source == Some(what))
  {
    var snap;
    snap, seen := InspectRuntime(h, n, what);
    match EvaluateStopPrecheck(snap)
    case StopIndeterminate => r := Unknown;
    case CorrelationMismatch => r := Mismatched;
    case AlreadyInactive => r := if h.alive then NothingRunning else Unknown;
    case ShouldStop =>
      if snap.mount != Present && n in h.w.live { RecordedIsOurs(h.w, n); }
      var ok := StopBoth(h, n, snap.mount == Present, old(h.w));
      r := if ok then Stopped else Busy;
  }

  /** The mount unit, then the automount unit; both are tried. */
  method StopBoth(h: Host, n: string, justified: bool, ghost start: World) returns (ok: bool)
    requires Inv(start) && Inv(h.w) && Meddled(start, h.w, n)
    requires !justified && n in h.w.live ==> h.w.live[n] !in h.w.foreign || h.w.live[n] in h.w.raced
    modifies h
    ensures Inv(h.w) && Meddled(start, h.w, n) && h.Touched(n)
    ensures ok ==> h.alive && n !in h.w.live
    ensures old(h.violations) <= h.violations
    ensures forall x :: x in h.violations && x !in old(h.violations) ==>
              x in h.w.foreign && (x >= old(h.w).nextId || x in old(h.w).raced)
    ensures h.Calm() ==> h.w == old(h.w).(live := h.w.live, covers := h.w.covers)
    ensures h.Calm() ==> h.w.live in {old(h.w).live, old(h.w).live - {n}}
    ensures h.Calm() ==> h.w.covers in {old(h.w).covers, old(h.w).covers - {n}}
    ensures h.Calm() && ok ==> n !in h.w.covers
    ensures var hit := if old(n in h.w.live && h.w.live[n] in h.w.foreign) && n !in h.w.live && !justified
                       then {old(h.w.live[n])} else {};
            h.Calm() ==> h.violations == old(h.violations) + hit
    ensures h.quiet && old(h.alive) ==> ok
  {
    ghost var entry := h.w;
    var mountOk := h.StopMount(n);
    MeddledTrans(start, entry, h.w, n);
    ghost var mid := h.w;
    var automountOk := h.StopAutomount(n, justified);
    MeddledTrans(start, mid, h.w, n);
    MeddledTrans(entry, mid, h.w, n);
    MeddledKeeps(start, h.w, n);
    ok := mountOk && automountOk;
  }

  // --- what arming may touch -----------------------------------------------------------

  /** The process lives on or dies; the dead do nothing. */
  twostate predicate Lived(h: Host)
    reads h
  {
    && (h.alive ==> old(h.alive)) && (!old(h.alive) ==> h.w == old(h.w))
    && (h.quiet && old(h.alive) ==> h.alive)
    && old(h.violations) <= h.violations
  }

  /** What recording or undoing a start may touch: n's record, n's runtime, bookkeeping. */
  ghost predicate Worked(a: World, b: World, n: string) {
    && b == a.(live := b.live, covers := b.covers, nextId := b.nextId, foreign := b.foreign,
               raced := b.raced, records := b.records,
               roots := b.roots, sureRoots := b.sureRoots, maybeRoots := b.maybeRoots)
    && MovedAt(a, b, n)
    && b.records - {n} == a.records - {n}
    && RootsGrow(a, b) && a.raced <= b.raced
    && forall x :: x in b.raced && x !in a.raced ==> x >= a.nextId || (n in a.live && x == a.live[n])
  }

  lemma WorkedTrans(a: World, b: World, c: World, n: string)
    requires Worked(a, b, n) && Worked(b, c, n)
    ensures Worked(a, c, n)
  {
  }

  lemma MeddledIsWorked(a: World, b: World, n: string)
    requires Meddled(a, b, n)
    ensures Worked(a, b, n)
  {
  }

  /** Foreign triggers this call stopped unasked: started since it began, or the one named by `at`. */
  twostate predicate OnlyHits(h: Host, at: set<nat>)
    reads h
  {
    forall x :: x in h.violations && x !in old(h.violations) ==> x in h.w.foreign && (x >= old(h.w).nextId || x in at)
  }

  function Running(w: World, n: string): set<nat> {
    if n in w.live then {w.live[n]} else {}
  }

  method DropRecordOf(h: Host, n: string) returns (ok: bool)
    requires Inv(h.w)
    modifies h
    ensures Inv(h.w) && h.Ran() && RootsGrow(old(h.w), h.w)
    ensures h.w == old(h.w).(records := h.w.records, roots := h.w.roots, sureRoots := h.w.sureRoots,
                             maybeRoots := h.w.maybeRoots)
    ensures h.w.records == old(h.w).records || h.w.records == old(h.w).records - {n}
    ensures ok ==> h.alive && h.w.records == old(h.w).records - {n}
    ensures h.quiet && old(h.alive) ==> ok
  {
    DropRecordKeeps(h.w, n);
    ghost var before := h.w;
    ok := h.RemoveRecord(n);
    if Opened(before, h.w, RecordRoot) { OpenedKeeps(before, h.w, RecordRoot); }
  }

  /**
   * stopStartedAutomount: compensation for the trigger whose id was read as
   * `startedId`. An id that cannot be read, or that changed, is no authority to stop by
   * name: another instance that was running already is never hit, unless what carried
   * the id is a mount that covers it.
   */
  method StopStarted(h: Host, n: string, startedId: nat) returns (stopped: bool)
    requires Inv(h.w) && startedId < h.w.nextId
    modifies h
    ensures Inv(h.w) && Lived(h) && Worked(old(h.w), h.w, n) && h.w.raced == old(h.w).raced
    ensures stopped ==> n !in h.w.live
    ensures OnlyHits(h, {startedId} + if n in old(h.w).covers && old(h.w).covers[n].id == startedId
                                      then Running(old(h.w), n) else {})
    ensures h.Calm() ==> h.w.covers == old(h.w).covers && h.w.foreign == old(h.w).foreign
    ensures h.Calm() && (startedId == 0 || TopId(old(h.w), n) != startedId) ==>
              !stopped && h.w == old(h.w) && h.violations == old(h.violations)
    ensures h.Calm() ==> h.w.live in {old(h.w).live, old(h.w).live - {n}}
    ensures h.quiet && old(h.alive) ==> (stopped <==> startedId != 0 && TopId(old(h.w), n) == startedId)
    ensures n in h.w.records ==> n in old(h.w).records && h.w.records[n] == old(h.w).records[n]
  {
    if startedId == 0 { return false; }
    ghost var start := h.w;
    var currentId := h.UniqueMountId(n);
    MeddledKeeps(start, h.w, n);
    MeddledIsWorked(start, h.w, n);
    if currentId == 0 || currentId != startedId { return false; }
    ghost var mid := h.w;
    stopped := StopAndForget(h, n);
    WorkedTrans(start, mid, h.w, n);
  }

  /** Stops by name; once that is proven, a stale record is no authority problem and goes too, if it can. */
  method StopAndForget(h: Host, n: string) returns (stopped: bool)
    requires Inv(h.w)
    modifies h
    ensures Inv(h.w) && Lived(h) && Worked(old(h.w), h.w, n) && h.w.raced == old(h.w).raced
    ensures stopped ==> n !in h.w.live
    ensures OnlyHits(h, Running(old(h.w), n))
    ensures h.Calm() ==> h.w.covers == old(h.w).covers && h.w.foreign == old(h.w).foreign
    ensures h.Calm() ==> h.w.live in {old(h.w).live, old(h.w).live - {n}}
    ensures h.quiet && old(h.alive) ==> stopped
    ensures n in h.w.records ==> n in old(h.w).records && h.w.records[n] == old(h.w).records[n]
  {
    ghost var start := h.w;
    stopped := h.StopAutomount(n, false);
    MeddledKeeps(start, h.w, n);
    MeddledIsWorked(start, h.w, n);
    if stopped {
      ghost var mid := h.w;
      var _ := DropRecordOf(h, n);
      WorkedTrans(start, mid, h.w, n);
    }
  }

  /**
   * systemctl start reported failure: that alone does not prove nothing started. What
   * runs now is taken for the result of this call and compensated by its id.
   */
  method FailedStart(h: Host, n: string, what: string) returns (safe: bool)
    requires Inv(h.w)
    modifies h
    ensures Inv(h.w) && Lived(h) && Worked(old(h.w), h.w, n) && h.w.raced == old(h.w).raced
    ensures h.alive && safe ==> Since(old(h.w), h.w, n) && Loose(h.w, n)
    ensures OnlyHits(h, Running(old(h.w), n))
    ensures h.Calm() ==> h.w.covers == old(h.w).covers && h.w.foreign == old(h.w).foreign
    ensures h.Calm() && h.alive && safe ==> n !in h.w.live
    ensures h.Calm() ==> h.w.live in {old(h.w).live, old(h.w).live - {n}}
  {
    ghost var start := h.w;
    var after, _ := InspectRuntime(h, n, what);
    MeddledIsWorked(start, h.w, n);
    if after.automount == Active && after.mount == Absent {
      ghost var mid := h.w;
      var startedId := h.UniqueMountId(n);
      MeddledTrans(start, mid, h.w, n);
      MeddledKeeps(start, h.w, n);
      MeddledIsWorked(start, h.w, n);
      mid := h.w;
      safe := StopStarted(h, n, startedId);
      WorkedTrans(start, mid, h.w, n);
    } else {
      safe := after.automount == Inactive && after.mount == Absent;
    }
  }

  /** Writes down the id of what is topmost at n; if that is a foreign trigger, it has raced with this call. */
  method RecordId(h: Host, n: string, id: nat) returns (ok: bool)
    requires Inv(h.w) && BothHalves(h.w.units, n) && id == TopId(h.w, n)
    modifies h
    ensures Inv(h.w) && h.Ran() && Worked(old(h.w), h.w, n)
    ensures h.w == old(h.w).(records := h.w.records, raced := h.w.raced,
                             roots := h.w.roots, sureRoots := h.w.sureRoots, maybeRoots := h.w.maybeRoots)
    ensures ok ==> h.alive && n in h.w.records && h.w.records[n] == id
    ensures h.quiet && old(h.alive) ==> ok
  {
    PutRecordKeeps(h.w, n, id);
    ghost var before := h.w;
    ok := h.WriteRecord(n, id);
    if Opened(before, h.w, RecordRoot) {
      OpenedKeeps(before, h.w, RecordRoot);
      OpenedIsWorked(before, h.w, n);
    }
  }

  lemma OpenedIsWorked(a: World, b: World, n: string)
    requires OnlyRoots(a, b)
    ensures Worked(a, b, n)
  {
  }

  lemma PutRecordKeeps(w: World, n: string, id: nat)
    requires Inv(w) && BothHalves(w.units, n) && id == TopId(w, n)
    ensures Inv(PutRecord(w, n, id)) && Worked(w, PutRecord(w, n, id), n)
  {
    MadeKeeps(w, RecordRoot);
    RecordInRoot(MakeRoot(w, RecordRoot), n, id);
    PutRecordWorked(w, n, id);
  }

  lemma RecordInRoot(w: World, n: string, id: nat)
    requires Inv(w) && RecordRoot in w.roots && BothHalves(w.units, n) && id == TopId(w, n)
    ensures Inv(PutRecord(w, n, id))
  {
    var b := PutRecord(w, n, id);
    assert Ids(b);
    forall m | !Loose(b, m) ensures BothHalves(b.units, m) {
      if m != n { assert !Loose(w, m); }
    }
  }

  lemma PutRecordWorked(w: World, n: string, id: nat)
    requires Inv(w) && id == TopId(w, n)
    ensures Worked(w, PutRecord(w, n, id), n)
  {
    var made := MakeRoot(w, RecordRoot);
    MadeIsOnlyRoots(w, RecordRoot);
    OpenedIsWorked(w, made, n);
    RecordIsWorked(w, made, n, id);
    WorkedTrans(w, made, PutRecord(w, n, id), n);
  }

  lemma RecordIsWorked(w: World, made: World, n: string, id: nat)
    requires Inv(w) && made == MakeRoot(w, RecordRoot) && id == TopId(w, n)
    ensures Worked(made, PutRecord(w, n, id), n)
  {
    assert PutRecord(w, n, id).records - {n} == made.records - {n};
  }

  /**
   * Whose id is on record: that of what runs, exactly when it runs bare; ours or a
   * stranger's, exactly when that is whose it is.
   */
  ghost predicate OnRecord(w: World, n: string) {
    && n in w.records && w.records[n] == TopId(w, n)
    && (Recorded(w, n) <==> n in w.live && n !in w.covers)
    && (w.records[n] in w.foreign <==> n in w.live && w.live[n] in w.foreign && n !in w.covers)
    && (w.records[n] in w.ours <==> n in w.live && w.live[n] in w.ours && n !in w.covers)
  }

  lemma TopIdOnRecord(w: World, n: string)
    requires Inv(w) && n in w.records && w.records[n] == TopId(w, n)
    ensures OnRecord(w, n)
  {
    assert n in w.live ==> w.live[n] in w.ours + w.foreign;
  }

  /**
   * Records the instance just started, or takes it down again. The record is that of the
   * instance that ran when this began exactly when it still runs, uncovered, at the moment
   * its id is read.
   */
  method RecordStarted(h: Host, n: string) returns (recorded: bool, safe: bool)
    requires Inv(h.w) && BothHalves(h.w.units, n)
    modifies h
    ensures Inv(h.w) && Lived(h) && Worked(old(h.w), h.w, n)
    ensures recorded ==> h.alive && OnRecord(h.w, n)
    ensures recorded && n in old(h.w).live ==>
              (h.w.records[n] == old(h.w).live[n] <==>
                 n in h.w.live && h.w.live[n] == old(h.w).live[n] && n !in h.w.covers)
    ensures h.alive && !recorded && safe ==> n !in h.w.live
    ensures OnlyHits(h, Running(old(h.w), n))
    ensures h.Calm() ==> h.w.covers == old(h.w).covers && h.w.foreign == old(h.w).foreign
    ensures h.Calm() ==> h.w.live in {old(h.w).live, old(h.w).live - {n}} && (recorded ==> h.w.live == old(h.w).live)
    ensures h.quiet && old(h.alive) ==> recorded
  {
    ghost var start := h.w;
    var id := h.UniqueMountId(n);
    MeddledKeeps(start, h.w, n);
    MeddledIsWorked(start, h.w, n);
    recorded, safe := false, false;
    if id != 0 {
      ghost var mid := h.w;
      recorded, safe := RecordOrStop(h, n, id);
      WorkedTrans(start, mid, h.w, n);
    }
  }

  method RecordOrStop(h: Host, n: string, id: nat) returns (recorded: bool, safe: bool)
    requires Inv(h.w) && BothHalves(h.w.units, n) && id == TopId(h.w, n) != 0
    modifies h
    ensures Inv(h.w) && Lived(h) && Worked(old(h.w), h.w, n)
    ensures recorded ==> h.alive && OnRecord(h.w, n)
    ensures recorded && n in old(h.w).live ==>
              (h.w.records[n] == old(h.w).live[n] <==>
                 n in h.w.live && h.w.live[n] == old(h.w).live[n] && n !in h.w.covers)
    ensures h.alive && !recorded && safe ==> n !in h.w.live
    ensures OnlyHits(h, Running(old(h.w), n))
    ensures h.Calm() ==> h.w.covers == old(h.w).covers && h.w.foreign == old(h.w).foreign
    ensures h.Calm() ==> h.w.live in {old(h.w).live, old(h.w).live - {n}} && (recorded ==> h.w.live == old(h.w).live)
    ensures h.quiet && old(h.alive) ==> recorded
  {
    ghost var start := h.w;
    recorded := RecordId(h, n, id);
    safe := true;
    if recorded {
      TopIdOnRecord(h.w, n);
    } else {
      ghost var mid := h.w;
      safe := StopStarted(h, n, id);
      WorkedTrans(start, mid, h.w, n);
    }
  }

  // --- arming --------------------------------------------------------------------------

  datatype ArmOutcome = Armed | WasArmed | NeedsAttention

  datatype ArmResult = ArmResult(outcome: ArmOutcome, cleanupSafe: bool)

  /** The credential file is what the kind of authentication asks for. */
  predicate CredFits(w: World, id: string, authentication: Authentication) {
    if authentication == Credentials then id in w.creds && id !in w.drifted else id !in w.creds
  }

  predicate ArmReady(w: World, n: string, id: string, authentication: Authentication) {
    n !in w.live && n !in w.covers && CredFits(w, id, authentication)
  }

  /** Looking and, while at it, making the private directory. */
  ghost predicate Gated(a: World, b: World, n: string) {
    && b == a.(live := b.live, covers := b.covers, nextId := b.nextId, foreign := b.foreign,
               roots := b.roots, sureRoots := b.sureRoots, maybeRoots := b.maybeRoots)
    && MovedAt(a, b, n) && RootsGrow(a, b)
  }

  lemma GatedKeeps(a: World, b: World, n: string)
    requires Inv(a) && Gated(a, b, n) && Inv(b)
    ensures Loose(a, n) ==> Loose(b, n)
  {
  }

  /**
   * Runtime first, then the credential: healthy for an authenticated share, absent
   * for a guest. Nothing is touched before the runtime has been judged.
   */
  method ArmGate(h: Host, n: string, id: string, authentication: Authentication, what: string)
    returns (pre: ArmPrecheck)
    requires Inv(h.w)
    modifies h
    ensures Inv(h.w) && Lived(h) && Gated(old(h.w), h.w, n) && h.violations == old(h.violations)
    ensures h.Calm() ==> h.w == old(h.w).(roots := h.w.roots, sureRoots := h.w.sureRoots, maybeRoots := h.w.maybeRoots)
    ensures pre == AlreadyArmed ==> h.alive && OnRecord(h.w, n) && n !in h.w.covers
    ensures h.Calm() && pre == AlreadyArmed ==> Recorded(h.w, n)
    ensures pre == ReadyToArm ==> h.alive && Since(old(h.w), h.w, n)
    ensures h.Calm() && pre == ReadyToArm ==> n !in h.w.live && n !in h.w.covers
    ensures h.quiet && old(h.alive) ==> (pre == AlreadyArmed <==> n !in old(h.w).covers && Recorded(old(h.w), n))
    ensures h.quiet && old(h.alive) ==> (pre == ReadyToArm <==> ArmReady(old(h.w), n, id, authentication))
  {
    var snap, _ := InspectRuntime(h, n, what);
    pre := EvaluateArmPrecheck(snap);
    if pre == ReadyToArm {
      var credOk := CheckCredential(h, id, authentication);
      if !credOk { pre := Blocked; }
    }
  }

  method CheckCredential(h: Host, id: string, authentication: Authentication) returns (ok: bool)
    requires Inv(h.w)
    modifies h
    ensures Inv(h.w) && h.Ran() && Opened(old(h.w), h.w, CredentialRoot)
    ensures ok ==> h.alive && CredFits(h.w, id, authentication)
    ensures h.quiet && old(h.alive) ==> (ok <==> CredFits(old(h.w), id, authentication))
  {
    if authentication == Credentials {
      ok := h.CredHealthy(id);
    } else {
      ok := h.CredAbsent(id);
    }
    OpenedKeeps(old(h.w), h.w, CredentialRoot);
  }

  /** What arming n may touch: the runtime of n, its record, and bookkeeping. */
  ghost predicate ArmFrame(a: World, b: World, n: string) {
    && b == a.(live := b.live, covers := b.covers, nextId := b.nextId, ours := b.ours, foreign := b.foreign,
               raced := b.raced, records := b.records,
               roots := b.roots, sureRoots := b.sureRoots, maybeRoots := b.maybeRoots)
    && a.nextId <= b.nextId
    && b.live - {n} == a.live - {n} && b.covers - {n} == a.covers - {n} && b.records - {n} == a.records - {n}
    && RootsGrow(a, b) && a.ours <= b.ours && a.raced <= b.raced && Newcomers(a, b)
    && (forall x :: x in b.ours && x !in a.ours ==> x >= a.nextId)
    && (forall x :: x in b.raced && x !in a.raced ==> x >= a.nextId)
    && (n in b.live ==> (n in a.live && a.live[n] == b.live[n]) || b.live[n] >= a.nextId)
    && (n in b.covers ==> (n in a.covers && a.covers[n] == b.covers[n]) || b.covers[n].id >= a.nextId)
  }

  lemma GatedIsArmFrame(a: World, b: World, n: string)
    requires Gated(a, b, n)
    ensures ArmFrame(a, b, n)
  {
  }

  lemma StartIsArmFrame(a: World, gated: World, before: World, started: World, n: string)
    requires Gated(a, gated, n) && Since(a, gated, n) && Meddled(gated, before, n)
    requires started == before || started == Launch(before, n)
    ensures ArmFrame(a, started, n) && Since(a, started, n)
  {
    assert started.live - {n} == before.live - {n};
  }

  lemma ArmWorked(a: World, started: World, b: World, n: string)
    requires ArmFrame(a, started, n) && Since(a, started, n) && Worked(started, b, n)
    ensures ArmFrame(a, b, n) && Since(a, b, n)
  {
  }

  /** A trigger of n that is running now and was started since. */
  twostate predicate StartedHere(h: Host, n: string)
    reads h
  {
    n in h.w.live && h.w.live[n] in h.w.ours && h.w.live[n] >= old(h.w).nextId
  }

  /** The part of armShare after every gate has passed; `start` is the state before the gate. */
  method StartAndRecord(h: Host, n: string, what: string, ghost start: World) returns (r: ArmResult)
    requires Inv(start) && Inv(h.w) && BothHalves(h.w.units, n) && Gated(start, h.w, n) && Since(start, h.w, n)
    modifies h
    ensures Inv(h.w) && Lived(h) && ArmFrame(start, h.w, n) && Since(start, h.w, n)
    ensures forall x :: x in h.violations && x !in old(h.violations) ==> x in h.w.foreign && x >= start.nextId
    ensures r.outcome == Armed ==> h.alive && OnRecord(h.w, n)
    ensures r.outcome != WasArmed
    ensures h.alive && r.outcome == NeedsAttention && r.cleanupSafe ==> Loose(h.w, n)
    ensures h.Calm() ==> h.w.covers == old(h.w).covers && h.w.foreign == old(h.w).foreign
    ensures h.Calm() && n !in old(h.w).live ==> n !in h.w.live || StartedHere(h, n)
    ensures h.Calm() && n !in old(h.w).live && r.outcome == Armed ==> StartedHere(h, n)
    ensures h.Calm() && h.alive && r.outcome == NeedsAttention && r.cleanupSafe ==> n !in h.w.live
    ensures h.quiet && old(h.alive) ==> r.outcome == Armed
  {
    var started := Start(h, n, start);
    ghost var launched := h.w;
    r := AfterStart(h, n, what, started);
    ArmWorked(start, launched, h.w, n);
  }

  method Start(h: Host, n: string, ghost start: World) returns (started: bool)
    requires Inv(start) && Inv(h.w) && BothHalves(h.w.units, n) && Gated(start, h.w, n) && Since(start, h.w, n)
    modifies h
    ensures Inv(h.w) && h.Ran() && ArmFrame(start, h.w, n) && Since(start, h.w, n)
    ensures h.w.units == old(h.w).units
    ensures h.Calm() ==> h.w.covers == old(h.w).covers && h.w.foreign == old(h.w).foreign
    ensures h.Calm() && n !in old(h.w).live ==> n !in h.w.live || StartedHere(h, n)
    ensures h.Calm() && started ==> n in h.w.live
    ensures h.quiet && old(h.alive) ==> started
  {
    ghost var gated := h.w;
    ghost var before;
    started, before := h.StartAutomount(n);
    MeddledKeeps(gated, before, n);
    LaunchKeeps(before, n);
    StartIsArmFrame(start, gated, before, h.w, n);
  }

  method AfterStart(h: Host, n: string, what: string, started: bool) returns (r: ArmResult)
    requires Inv(h.w) && BothHalves(h.w.units, n)
    modifies h
    ensures Inv(h.w) && Lived(h) && Worked(old(h.w), h.w, n)
    ensures OnlyHits(h, Running(old(h.w), n))
    ensures r.outcome == Armed ==> started && h.alive && OnRecord(h.w, n)
    ensures r.outcome != WasArmed
    ensures h.alive && r.outcome == NeedsAttention && r.cleanupSafe ==> Loose(h.w, n)
    ensures h.Calm() ==> h.w.covers == old(h.w).covers && h.w.foreign == old(h.w).foreign
    ensures h.Calm() ==> h.w.live in {old(h.w).live, old(h.w).live - {n}}
    ensures h.Calm() && r.outcome == Armed ==> h.w.live == old(h.w).live
    ensures h.Calm() && h.alive && r.outcome == NeedsAttention && r.cleanupSafe ==> n !in h.w.live
    ensures h.quiet && old(h.alive) && started ==> r.outcome == Armed
  {
    if started {
      var recorded, safe := RecordStarted(h, n);
      r := ArmResult(if recorded then Armed else NeedsAttention, safe);
    } else {
      var safe := FailedStart(h, n, what);
      r := ArmResult(NeedsAttention, safe);
    }
  }

  /**
   * armShare. Whatever others do meanwhile, what runs at n in the end was there before or
   * was started during this call; a foreign instance is put on record, or stopped, only
   * if its start fell into this call. The walk of the mount point is its own component;
   * here only its verdict matters.
   */
  method ArmShare(h: Host, n: string, id: string, authentication: Authentication, what: string, walkOk: bool)
    returns (r: ArmResult)
    requires Inv(h.w) && BothHalves(h.w.units, n)
    modifies h
    ensures Inv(h.w) && Lived(h) && ArmFrame(old(h.w), h.w, n) && OnlyHits(h, {})
    ensures r.outcome != NeedsAttention ==> h.alive && OnRecord(h.w, n)
    ensures r.outcome == Armed || (r.outcome == WasArmed && old(Loose(h.w, n))) ==> Since(old(h.w), h.w, n)
    ensures r.outcome == WasArmed ==> h.w.records == old(h.w).records && h.w.ours == old(h.w).ours && n !in h.w.covers
    ensures h.alive && r.outcome == NeedsAttention && r.cleanupSafe ==> (old(Loose(h.w, n)) ==> Loose(h.w, n))
    ensures h.Calm() ==> h.w.covers == old(h.w).covers && h.w.foreign == old(h.w).foreign
    ensures h.Calm() ==> h.w.live == old(h.w).live || (n !in old(h.w).live && StartedHere(h, n))
    ensures h.Calm() && r.outcome == Armed ==> StartedHere(h, n) && Recorded(h.w, n)
    ensures h.Calm() && r.outcome == WasArmed ==> Recorded(old(h.w), n) && h.w.live == old(h.w).live
    ensures h.Calm() && h.alive && r.outcome == NeedsAttention && r.cleanupSafe ==> h.w.live == old(h.w).live
    ensures h.quiet && old(h.alive) ==>
              (r.outcome == WasArmed <==> n !in old(h.w).covers && Recorded(old(h.w), n))
    ensures h.quiet && old(h.alive) ==>
              (r.outcome == Armed <==> walkOk && ArmReady(old(h.w), n, id, authentication))
    ensures h.quiet && old(h.alive) && r.outcome != Armed ==>
              h.w == old(h.w).(roots := h.w.roots, sureRoots := h.w.sureRoots, maybeRoots := h.w.maybeRoots)
  {
    var pre := ArmGate(h, n, id, authentication, what);
    GatedKeeps(old(h.w), h.w, n);
    GatedIsArmFrame(old(h.w), h.w, n);
    if pre == AlreadyArmed { return ArmResult(WasArmed, true); }
    if pre == Blocked || !walkOk { return ArmResult(NeedsAttention, true); }
    r := StartAndRecord(h, n, what, old(h.w));
    SameWithout(h.w.live, old(h.w).live, n);
  }

  lemma SameWithout(a: map<string, nat>, b: map<string, nat>, n: string)
    requires a - {n} == b - {n}
    ensures n !in a && n !in b ==> a == b
  {
    if n !in a && n !in b {
      assert a == a - {n} && b == b - {n};
    }
  }
}
