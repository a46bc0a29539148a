/**
 * Where the guarantees end: for each promise that needs a condition, a run of the
 * operations themselves in which it fails without it.
 */
module Limits {
  import opened Types
  import opened World
  import opened Host
  import opened Disk
  import opened Trigger
  import opened Operations
  import opened PurgeRules
  import opened Uninstall
  import opened Runs

  /** A host on which nasmount has never run. */
  function Bare(): World {
    World(map[], {}, {}, {}, {}, map[], map[], map[], {}, {}, {}, {}, 1, 2, {}, {}, {}, map[], {}, {}, {})
  }

  lemma BareIsSafe()
    ensures Inv(Bare()) && DurablyVisible(Bare()) && Visible(Bare())
  {
  }

  /** Every history that starts on a host where nasmount has never run keeps all promises. */
  method FreshInstall(events: seq<Event>) returns (trace: seq<World>, hits: seq<set<nat>>)
    requires forall e :: e in events && e.DefineShare? ==> |e.input.candidates| == 8
    ensures |trace| == |events| + 1 && |hits| == |events| && trace[0] == Bare()
    ensures forall i :: 0 <= i < |trace| ==> Told(trace, events, hits, i) && |trace[i].temps| <= Defines(events, i)
    ensures forall i :: 0 <= i < |trace| && NoIntrusion(trace, events, i) ==> trace[i].raced == {}
  {
    BareIsSafe();
    trace, hits := Run(Bare(), events);
    forall i | 0 <= i < |trace| ensures |trace[i].temps| <= Defines(events, i) {
      assert Told(trace, events, hits, i);
    }
    forall i | 0 <= i < |trace| && NoIntrusion(trace, events, i) ensures trace[i].raced == {} {
      assert Told(trace, events, hits, i);
    }
  }

  const PLACE := "/mnt/nas"

  const ADDRESS := "//nas/media"

  const SHARE := DefineInput(PLACE, 1000, 1000, ADDRESS, Credentials, ReadWrite, true, [])

  function HalvesOf(id: string): map<File, UnitFile> {
    map[File(PLACE, MountHalf) := NewHalf(SHARE, id, MountHalf),
        File(PLACE, AutomountHalf) := NewHalf(SHARE, id, AutomountHalf)]
  }

  /** One authenticated share, fully synced, its trigger not running. */
  function OneShare(id: string): World {
    Bare().(units := HalvesOf(id), sureUnits := HalvesOf(id), maybeUnits := HalvesOf(id).Keys,
            creds := {id}, sureCreds := {id}, maybeCreds := {id},
            roots := {CredentialRoot}, sureRoots := {CredentialRoot}, maybeRoots := {CredentialRoot})
  }

  lemma OneShareIsSafe(id: string)
    ensures var w := OneShare(id);
            Inv(w) && DurablyVisible(w) && BothHalves(w.units, PLACE) && ShareInspected(w, id)
  {
    var w := OneShare(id);
    var f := File(PLACE, MountHalf);
    assert f in w.sureUnits && Carries(w.sureUnits[f], id);
  }

  predicate ShareInspected(w: World, id: string) {
    Inspect(w, PLACE, 1000) == DefinitionCheck(Pair, Some(NewMarker(SHARE, id)), ADDRESS)
  }

  /**
   * An unlink of the secret whose directory fsync failed, then a remove without any fault:
   * the retry finds the file missing and syncs nothing, so the next power loss can
   * bring back a secret to which no unit leads.
   */
  method UnsyncedUnlinkLetsASecretReturn(id: string) returns (dirty: World, ok: bool, removed: World)
    ensures dirty == DropCred(OneShare(id), id, false) && Inv(dirty) && DurablyVisible(dirty)
    ensures Lapse(dirty, RemoveShare(PLACE, 1000))
    ensures ok && Removed(dirty, removed, PLACE, id) && Visible(removed) && !DurablyVisible(removed)
  {
    OneShareIsSafe(id);
    dirty := DropCred(OneShare(id), id, false);
    ghost var f := File(PLACE, MountHalf);
    assert f in dirty.sureUnits && Carries(dirty.sureUnits[f], id);
    assert Inspect(dirty, PLACE, 1000) == Inspect(OneShare(id), PLACE, 1000);
    assert !CarriedElsewhere(dirty.units, PLACE, id);
    var h := new Host(dirty, true, true);
    ok := Remove(h, PLACE, 1000);
    removed := h.w;
  }

  /** purge deletes units before credentials: killed in between, it hides a secret. */
  method PurgeCutShortHidesASecret(id: string) returns (ok: bool, cut: World)
    ensures ok && Inv(cut) && cut.creds == {id} && cut.units == map[] && !Visible(cut)
    ensures CutShort(OneShare(id), PurgeAll(1000), cut) && PurgeFrame(OneShare(id), cut, 1000)
    ensures Exempt(OneShare(id), PurgeAll(1000), cut) == {id}
  {
    OneShareIsSafe(id);
    OneSharePurgeable(OneShare(id), id);
    var h := new Host(OneShare(id), true, true);
    ok := RemoveBoth(h, PLACE, id);
    cut := h.w;
    CutShare(OneShare(id), cut, id);
    OnlySecretNamed(id);
    assert id in cut.creds && !Carried(cut.units, id);
    assert File(PLACE, MountHalf) in OneShare(id).units;
  }

  lemma OnlySecretNamed(id: string)
    ensures NamedCreds(OneShare(id), 1000) == {id}
  {
    var w := OneShare(id);
    ManagedShare(w, id);
    assert Managed(w.units).Keys == {PLACE};
    assert NamesCred(w, PLACE, 1000, id);
  }

  /** The share's own trigger, started and then crossed by a user. */
  method StartedAndCrossed(id: string) returns (crossed: World)
    ensures var w := OneShare(id);
            crossed == Launch(w, PLACE).(covers := map[PLACE := Cover(w.nextId + 1, Some(ADDRESS))],
                                         nextId := w.nextId + 2)
    ensures Inv(crossed) && BothHalves(crossed.units, PLACE) && crossed.live[PLACE] in crossed.ours
  {
    OneShareIsSafe(id);
    var h := new Host(OneShare(id), true, true);
    LaunchKeeps(h.w, PLACE);
    var _, _ := h.StartAutomount(PLACE);
    crossed := h.w.(covers := h.w.covers[PLACE := Cover(h.w.nextId, Some(ADDRESS))], nextId := h.w.nextId + 1);
  }

  /**
   * A user who walks into the trigger between the start and the reading of its id
   * gets the id of the new mount recorded: the share is armed, but untrusted as
   * soon as that mount goes.
   */
  method CrossedTriggerIsNotRecorded(id: string) returns (recorded: bool, armed: World)
    ensures recorded && Inv(armed) && PLACE in armed.live && armed.live[PLACE] in armed.ours
    ensures !Recorded(armed, PLACE) && StopReady(armed, PLACE, ADDRESS)
    ensures !StopReady(Unmounted(armed, PLACE), PLACE, ADDRESS)
    ensures armed.units == HalvesOf(id) && armed.dropIns == {} && armed.intruders == {}
  {
    var crossed := StartedAndCrossed(id);
    var h := new Host(crossed, true, true);
    var safe;
    recorded, safe := RecordStarted(h, PLACE);
    armed := h.w;
  }

  /**
   * A purge of that share that is killed right after the mount was stopped cannot be
   * finished by any retry: what runs bare is not what is on record.
   */
  method CrossedTriggerBlocksTheRetry(id: string) returns (armed: World, unmounted: World, ok: bool)
    ensures Inv(armed) && armed.units == HalvesOf(id) && StopReady(armed, PLACE, ADDRESS)
    ensures unmounted == Unmounted(armed, PLACE) && !ok
  {
    var recorded;
    recorded, armed := CrossedTriggerIsNotRecorded(id);
    var h := new Host(armed, true, true);
    var _ := h.StopMount(PLACE);
    unmounted := Unmounted(armed, PLACE);
    ManagedShare(unmounted, id);
    var retry := new Host(unmounted, true, true);
    UnmountedKeeps(armed);
    var removedShares;
    ok, removedShares := Purge(retry, 1000);
  }

  lemma UnmountedKeeps(w: World)
    requires Inv(w)
    ensures Inv(Unmounted(w, PLACE))
  {
    forall m | !Loose(Unmounted(w, PLACE), m) ensures BothHalves(w.units, m) {
      assert !Loose(w, m);
    }
  }

  lemma ManagedShare(w: World, id: string)
    requires w.units == HalvesOf(id) && w.dropIns == {}
    ensures PLACE in Managed(w.units) && ShareInspected(w, id)
  {
    assert ScanOf(w.units, File(PLACE, MountHalf)).Some?;
  }

  /**
   * Somebody stops the trigger just started and starts one of their own before its id
   * is read: theirs goes on record, and the next stop takes it for ours.
   */
  method RacedStartIsTakenForOurs(id: string) returns (raced: World, recorded: bool, r: StopResult, hits: set<nat>)
    ensures recorded && Inv(raced) && Recorded(raced, PLACE) && raced.live[PLACE] in raced.foreign
    ensures StopProven(r) && hits == {raced.live[PLACE]}
  {
    OneShareIsSafe(id);
    var first := new Host(OneShare(id), true, true);
    LaunchKeeps(first.w, PLACE);
    var _, _ := first.StartAutomount(PLACE);
    var swapped := StartForeign(Halt(first.w, PLACE), PLACE);
    assert swapped.live[PLACE] == 3 && swapped.foreign == {3};
    var second := new Host(swapped, true, true);
    var safe;
    recorded, safe := RecordStarted(second, PLACE);
    raced := second.w;
    var third := new Host(raced, true, true);
    r := StopUnmounted(third, PLACE, ADDRESS);
    hits := third.violations;
  }

  /** safeStop of what runs bare and on record, left alone. */
  method StopUnmounted(h: Host, n: string, what: string) returns (r: StopResult)
    requires Inv(h.w) && h.quiet && h.alive && n !in h.w.covers && Recorded(h.w, n) && h.violations == {}
    modifies h
    ensures StopProven(r) && n !in h.w.live
    ensures h.violations == if old(h.w.live[n]) in old(h.w).foreign then {old(h.w.live[n])} else {}
  {
    ghost var seen;
    r, seen := SafeStop(h, n, what);
  }

  /** A foreign trigger under a mount of the expected share: safeStop unmounts it and stops it. */
  method ForeignTriggerUnderOurMountIsStopped(id: string) returns (before: World, r: StopResult, after: World)
    ensures Inv(before) && Stranger(before, PLACE)
    ensures PLACE in before.covers && before.covers[PLACE].source == Some(ADDRESS)
    ensures StopProven(r) && PLACE !in after.live && PLACE !in after.covers
  {
    OneShareIsSafe(id);
    var started := StartForeign(OneShare(id), PLACE);
    StrangerKeeps(OneShare(id), PLACE);
    before := started.(covers := map[PLACE := Cover(started.nextId, Some(ADDRESS))], nextId := started.nextId + 1);
    assert Inv(before);
    var h := new Host(before, true, true);
    ghost var seen;
    r, seen := SafeStop(h, PLACE, ADDRESS);
    after := h.w;
  }

  /**
   * Units whose unlink was never synced are no longer enumerated: a purge without any
   * fault says it is done, and a power loss can bring a managed unit back.
   */
  method PurgeForgetsAnUnsyncedUnlink(id: string)
    returns (dirty: World, ok: bool, purged: World, image: map<File, UnitFile>)
    ensures Inv(dirty) && dirty.units == map[] && dirty.maybeUnits == HalvesOf(id).Keys
    ensures ok && Purged(purged) && PossibleImage(purged, image, {}, false)
    ensures File(PLACE, MountHalf) in image && HasMarker(image[File(PLACE, MountHalf)])
  {
    dirty := Bare().(maybeUnits := HalvesOf(id).Keys);
    NothingManaged(dirty);
    var h := new Host(dirty, true, true);
    var removedShares;
    ok, removedShares := Purge(h, 1000);
    purged := h.w;
    image := HalvesOf(id);
  }

  lemma NothingManaged(w: World)
    requires w.units == map[] && w.intruders == {} && w.creds == {}
    ensures Managed(w.units) == map[] && Purgeable(w, 1000)
  {
  }

  /**
   * The removal of the credential root whose sync failed: a purge that finds it gone syncs
   * nothing and says it is done, and a power loss can bring the directory back.
   */
  method PurgeForgetsAnUnsyncedRmdir() returns (dirty: World, ok: bool, purged: World)
    ensures dirty == ClearRoot(MakeRoot(Bare(), CredentialRoot), CredentialRoot, false) && Inv(dirty)
    ensures ok && Purged(purged) && Synced(purged)
    ensures PossibleImage(purged, map[], {}, true) && !Purged(Rebooted(purged, map[], {}, true))
  {
    dirty := ClearRoot(MakeRoot(Bare(), CredentialRoot), CredentialRoot, false);
    GoneUnsynced(dirty);
    var h := new Host(dirty, true, true);
    var removedShares;
    ok, removedShares := Purge(h, 1000);
    purged := h.w;
    ComesBack(purged);
  }

  lemma GoneUnsynced(w: World)
    requires w == ClearRoot(MakeRoot(Bare(), CredentialRoot), CredentialRoot, false)
    ensures w == Bare().(maybeRoots := {CredentialRoot}) && Inv(w) && Purgeable(w, 1000) && Managed(w.units) == map[]
  {
    assert w == Bare().(maybeRoots := {CredentialRoot});
    NothingManaged(w);
  }

  lemma ComesBack(w: World)
    requires Bounds(w) && Purged(w) && w.units == map[] && w.maybeUnits == {} && CredentialRoot in w.maybeRoots
    ensures Synced(w) && PossibleImage(w, map[], {}, true) && !Purged(Rebooted(w, map[], {}, true))
  {
    assert Rebooted(w, map[], {}, true).roots == {CredentialRoot};
  }

  /**
   * The credential root was made and the sync of its entry failed. A define without any
   * fault finds it in place and syncs only what is inside, so a power loss can leave the
   * share it reports without its credential.
   */
  method DefinedShareCanLoseItsCredential(input: DefineInput)
    returns (half: World, out: DefineOutput, defined: World)
    requires |input.candidates| == 8 && Encodable(input) && input.walkOk && input.authentication == Credentials
    ensures half == HalfRoot(Bare(), CredentialRoot) && Inv(half)
    ensures out.ok && out.id in defined.creds && DurablyThere(defined, input, out.id)
    ensures PossibleImage(defined, defined.units, {}, false)
  {
    half := HalfRoot(Bare(), CredentialRoot);
    HalfKeeps(Bare(), CredentialRoot);
    NothingInTheWay(half, input);
    var h := new Host(half, true, true);
    out := Define(h, input);
    defined := h.w;
  }

  lemma NothingInTheWay(w: World, input: DefineInput)
    requires w.units == map[] && w.dropIns == {} && w.creds == {} && w.live == map[] && w.covers == map[]
    requires input.walkOk && Encodable(input) && input.candidates != []
    ensures DefineReady(w, input)
  {
    assert Inspect(w, input.name, input.uid).state == Undefined;
    assert input.candidates[0] in input.candidates && !IdInUse(w, input.candidates[0]);
  }

  /**
   * A share whose credential file was given another mode. Purge can delete it by its id;
   * killed right after the two halves went, it leaves that file to the removal of the
   * directory, which refuses it, whoever retries.
   */
  method SpoiltCredentialBlocksTheRetry(id: string) returns (spoilt: World, cut: World, ok: bool)
    ensures spoilt == OneShare(id).(drifted := {id}) && Inv(spoilt) && Purgeable(spoilt, 1000)
    ensures PurgeFrame(spoilt, cut, 1000) && CalmFrame(spoilt, cut) && !ok
  {
    OneShareIsSafe(id);
    spoilt := OneShare(id).(drifted := {id});
    OneSharePurgeable(spoilt, id);
    var h := new Host(spoilt, true, true);
    var _ := RemoveBoth(h, PLACE, id);
    cut := h.w;
    CutShare(spoilt, cut, id);
    SpoiltOrphan(cut, id);
    var retry := new Host(cut, true, true);
    var removedShares;
    ok, removedShares := Purge(retry, 1000);
  }

  lemma OneSharePurgeable(w: World, id: string)
    requires w.units == HalvesOf(id) && w.dropIns == {} && w.live == map[] && w.covers == map[] && w.intruders == {}
    requires w.creds <= {id}
    ensures Purgeable(w, 1000)
  {
    ManagedShare(w, id);
    assert Managed(w.units).Keys == {PLACE};
    assert UnitValid(w, PLACE, 1000);
    assert NamesCred(w, PLACE, 1000, id);
  }

  /** Both halves of the share unlinked: a state in which purge may be killed. */
  lemma CutShare(a: World, b: World, id: string)
    requires a.units == HalvesOf(id) && Purgeable(a, 1000) && a.live == map[] && a.covers == map[]
    requires b == a.(units := b.units, sureUnits := b.sureUnits, maybeUnits := b.maybeUnits)
    requires b.units == a.units - {File(PLACE, MountHalf), File(PLACE, AutomountHalf)} && b.maybeUnits <= a.maybeUnits
    ensures b.units == map[] && PurgeFrame(a, b, 1000) && CalmFrame(a, b)
  {
    assert b.units == map[];
    assert RuntimeMoved(a, a, Managed(a.units).Keys) && DiskShrunk(a, b);
  }

  lemma SpoiltOrphan(w: World, id: string)
    requires w.units == map[] && id in Spoilt(w)
    ensures !Purgeable(w, 1000)
  {
    assert Managed(w.units) == map[];
    assert id !in NamedCreds(w, 1000);
  }
}
