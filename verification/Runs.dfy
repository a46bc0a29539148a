/**
 * Whole histories of one host: root operations one after another under the root
 * lock, each of which may fail anywhere or be killed anywhere, interleaved with
 * other people's triggers, users' traffic, reboots and power losses.
 */
module Runs {
  import opened Types
  import opened World
  import opened Host
  import opened Disk
  import opened Operations
  import opened Uninstall
  import opened PurgeRules
  import opened Boot

  datatype Event =
    | DefineShare(input: DefineInput)
    | RemoveShare(name: string, uid: nat)
    | PurgeAll(uid: nat)
    | BootCoordinator(around: Surroundings)
    | ForeignStart(name: string)
    | ForeignStop(name: string)
    | UserTraffic(name: string)
    | Chmod(id: string, spoilt: bool)
    | PowerLoss(units: map<File, UnitFile>, creds: set<string>, root: bool)

  /** Somebody else starts a trigger where none runs. */
  function StartForeign(w: World, n: string): World {
    if n in w.live then w
    else w.(live := w.live[n := w.nextId], foreign := w.foreign + {w.nextId}, nextId := w.nextId + 1)
  }

  /** Somebody changes the owner or mode of a credential file, or puts it right. */
  function Chmodded(w: World, id: string, spoilt: bool): World {
    w.(drifted := if spoilt then w.drifted + {id} else w.drifted - {id})
  }

  /** The machine comes back with one of the images its disk may hold, `root` or not; /run is empty. */
  function Rebooted(w: World, units: map<File, UnitFile>, creds: set<string>, root: bool): World {
    var there := if root then {CredentialRoot} else {};
    w.(units := units, sureUnits := units, maybeUnits := units.Keys,
       creds := creds, sureCreds := creds, maybeCreds := creds, temps := if root then w.temps else {},
       live := map[], covers := map[], records := map[],
       roots := there, sureRoots := there, maybeRoots := there, intruders := w.intruders * there)
  }

  predicate PossibleImage(w: World, units: map<File, UnitFile>, creds: set<string>, root: bool) {
    && units.Keys <= w.maybeUnits && (forall f | f in w.sureUnits :: f in units && units[f] == w.sureUnits[f])
    && (root ==> CredentialRoot in w.maybeRoots) && (CredentialRoot in w.sureRoots ==> root)
    && creds <= w.maybeCreds && if root then w.sureCreds <= creds else creds == {}
  }

  /** A remove that sets out while an earlier unlink of its secret was never synced. */
  ghost predicate Lapse(w: World, e: Event) {
    e.RemoveShare? && var def := Inspect(w, e.name, e.uid); def.marker.Some? && !Clean(w, def.marker.value.id)
  }

  /** A purge that did something and did not finish. */
  ghost predicate CutShort(w: World, e: Event, w': World) {
    e.PurgeAll? && !DiskUntouched(w, w') && !Purged(w')
  }

  /** A foreign trigger was started while one of our operations was under way. */
  ghost predicate Intruded(w: World, e: Event, w': World) {
    !e.ForeignStart? && w'.foreign != w.foreign
  }

  /** The credentials a cut purge may have orphaned: of those it had validated, and in fact at most one. */
  ghost function Exempt(w: World, e: Event, w': World): set<string> {
    if CutShort(w, e, w') then NamedCreds(w, e.uid) else {}
  }

  /** And, for what a power loss may bring back, the secret a remove lapsed on. */
  ghost function ExemptDurably(w: World, e: Event, w': World): set<string> {
    Exempt(w, e, w') + if Lapse(w, e) then {Inspect(w, e.name, e.uid).marker.value.id} else {}
  }

  /** Some event from m to n - 1 passes the test. */
  ghost predicate Ever(trace: seq<World>, events: seq<Event>, m: nat, n: nat, test: (World, Event, World) -> bool)
    requires n <= |events| && n < |trace|
  {
    exists j :: m <= j < n && test(trace[j], events[j], trace[j + 1])
  }

  ghost function Exempts(id: string): (World, Event, World) -> bool {
    (w, e, w') => id in Exempt(w, e, w')
  }

  ghost function ExemptsDurably(id: string): (World, Event, World) -> bool {
    (w, e, w') => id in ExemptDurably(w, e, w')
  }

  ghost predicate NoIntrusion(trace: seq<World>, events: seq<Event>, n: nat)
    requires n <= |events| && n < |trace|
  {
    forall j :: 0 <= j < n ==> !Intruded(trace[j], events[j], trace[j + 1])
  }

  predicate NoPowerLoss(events: seq<Event>, m: nat, n: nat)
    requires n <= |events|
  {
    forall j :: m <= j < n ==> !events[j].PowerLoss?
  }

  /** Shares defined, or attempted to be, among the first n events. */
  function Defines(events: seq<Event>, n: nat): nat
    requires n <= |events|
  {
    if n == 0 then 0 else Defines(events, n - 1) + if events[n - 1].DefineShare? then 1 else 0
  }

  /** Nothing is hidden here: the history begins, or a purge has just finished. */
  ghost predicate CleanSlate(trace: seq<World>, events: seq<Event>, m: nat)
    requires m < |trace| && m <= |events|
  {
    m == 0 || (events[m - 1].PurgeAll? && Purged(trace[m]))
  }

  lemma PurgedIsVisible(w: World)
    requires Purged(w)
    ensures Visible(w) && DurablyVisible(w)
  {
  }

  /** A sure carrier is a carrier. */
  lemma CarriedNow(w: World, id: string)
    requires Bounds(w) && Carried(w.sureUnits, id)
    ensures Carried(w.units, id)
  {
    var f :| f in w.sureUnits && Carries(w.sureUnits[f], id);
    assert f in w.units && Carries(w.units[f], id);
  }

  lemma VisibleNow(w: World)
    requires Bounds(w) && DurablyVisible(w)
    ensures Visible(w)
  {
    forall id | id in w.creds ensures Carried(w.units, id) {
      CarriedNow(w, id);
    }
  }

  lemma SurvivesPowerLoss(w: World, units: map<File, UnitFile>, creds: set<string>, root: bool)
    requires Inv(w) && PossibleImage(w, units, creds, root)
    ensures Inv(Rebooted(w, units, creds, root)) && KeepsSeenDurably(w, Rebooted(w, units, creds, root), {})
    ensures DurablyVisible(w) ==> DurablyVisible(Rebooted(w, units, creds, root))
  {
    var b := Rebooted(w, units, creds, root);
    forall id | id in creds && Carried(w.sureUnits, id) ensures Carried(units, id) {
      var f :| f in w.sureUnits && Carries(w.sureUnits[f], id);
      assert f in units && Carries(units[f], id);
    }
    assert KeepsSeenDurably(w, b, {});
    KeepsVisible(w, b);
  }

  /** The image that holds what is there now. */
  lemma PresentIsPossible(w: World)
    requires Bounds(w)
    ensures PossibleImage(w, w.units, w.creds, CredentialRoot in w.roots)
  {
  }

  /** A power loss brings no unit file back exactly when no unlink of one is unsynced. */
  lemma NothingComesBackIffSynced(w: World)
    requires Inv(w)
    ensures w.maybeUnits == w.units.Keys <==>
            forall units, creds, root :: PossibleImage(w, units, creds, root) ==> units.Keys <= w.units.Keys
  {
    if w.maybeUnits != w.units.Keys {
      var image := EverythingBack(w);
      PresentIsPossible(w);
      assert PossibleImage(w, image, w.creds, CredentialRoot in w.roots);
      var f :| f in w.maybeUnits && f !in w.units;
      assert f in image.Keys;
    }
  }

  function EverythingBack(w: World): (image: map<File, UnitFile>)
    ensures image.Keys == w.maybeUnits
  {
    map f | f in w.maybeUnits :: if f in w.units then w.units[f] else UnitFile(NoMarker, true, true, true, 0)
  }

  /** Every image leaves a purged host purged, and its other units as they are. */
  ghost predicate PurgedForGood(w: World) {
    forall units, creds, root :: PossibleImage(w, units, creds, root) ==>
      Purged(Rebooted(w, units, creds, root)) && units == w.units
  }

  /**
   * What a finished purge leaves stays so over every power loss exactly when neither an
   * unlink in the unit directory nor the removal of the credential root is unsynced.
   */
  lemma PurgedForGoodIffSynced(w: World)
    requires Inv(w) && Purged(w)
    ensures PurgedForGood(w) <==> Synced(w) && CredentialRoot !in w.maybeRoots
  {
    PresentIsPossible(w);
    if CredentialRoot in w.maybeRoots {
      assert PossibleImage(w, w.units, {}, true);
      assert Rebooted(w, w.units, {}, true).roots != {};
    } else if w.maybeUnits != w.units.Keys {
      assert PossibleImage(w, EverythingBack(w), {}, false);
      assert EverythingBack(w) != w.units;
    } else if w.sureUnits != w.units {
      assert PossibleImage(w, w.sureUnits, {}, false);
    } else {
      forall units, creds, root | PossibleImage(w, units, creds, root)
        ensures Purged(Rebooted(w, units, creds, root)) && units == w.units
      {
        assert units.Keys == w.units.Keys;
      }
    }
  }

  /** Every image still holds the whole definition. */
  ghost predicate DefinedForGood(w: World, input: DefineInput, id: string) {
    forall units, creds, root :: PossibleImage(w, units, creds, root) ==>
      BothNew(units, input, id) && (input.authentication == Credentials ==> id in creds)
  }

  /**
   * A defined share survives every power loss exactly when it has no secret or the
   * credential root's own entry was synced. A root found in place is never synced again,
   * whoever made it, so a failed sync of its creation is never made good.
   */
  lemma DefinedForGoodIff(w: World, input: DefineInput, id: string)
    requires Inv(w) && DurablyThere(w, input, id)
    ensures DefinedForGood(w, input, id) <==> input.authentication == Guest || CredentialRoot in w.sureRoots
  {
    if input.authentication == Credentials && CredentialRoot !in w.sureRoots {
      assert PossibleImage(w, w.units, {}, false);
    }
  }

  /** What one event does to identities and leftovers. */
  ghost predicate Advanced(w: World, e: Event, w': World, hits: set<nat>) {
    && Newcomers(w, w')
    && (forall x :: x in w'.raced ==> x in w.raced || x !in w.foreign)
    && (w'.foreign == w.foreign || e.ForeignStart? ==> w'.raced == w.raced)
    && (forall x :: x in hits ==> x in w'.foreign && (x !in w.foreign || x in w.raced))
    && (e.ForeignStart? ==> hits == {})
    && (if e.DefineShare? then OneTempMore(w, w') else w'.temps <= w.temps)
  }

  lemma AdvancedOperation(w: World, e: Event, w': World, hits: set<nat>)
    requires Inv(w) && Inv(w') && Newcomers(w, w') && !e.ForeignStart? && w.raced <= w'.raced
    requires forall x :: x in w'.raced ==> x in w.raced || x >= w.nextId
    requires forall x :: x in hits ==> x in w'.foreign && (x >= w.nextId || x in w.raced)
    requires if e.DefineShare? then OneTempMore(w, w') else w'.temps <= w.temps
    ensures Advanced(w, e, w', hits)
  {
  }

  /** One event, executed by a process of its own; the state it leaves behind, and the foreign triggers it hit. */
  method Execute(w: World, e: Event) returns (w': World, hits: set<nat>)
    requires Inv(w) && (e.DefineShare? ==> |e.input.candidates| == 8)
    ensures Inv(w') && Advanced(w, e, w', hits)
    ensures !e.PowerLoss? ==> KeepsSeen(w, w', Exempt(w, e, w'))
    ensures KeepsSeenDurably(w, w', ExemptDurably(w, e, w'))
    ensures e.PurgeAll? ==> HidesAtMostOne(w, w', e.uid)
  {
    match e {
      case DefineShare(_) => w', hits := ExecuteDefine(w, e);
      case RemoveShare(_, _) => w', hits := ExecuteRemove(w, e);
      case PurgeAll(_) => w', hits := ExecutePurge(w, e);
      case BootCoordinator(_) => w', hits := ExecuteBoot(w, e);
      case _ => w', hits := ExecuteOthers(w, e);
    }
  }

  method ExecuteDefine(w: World, e: Event) returns (w': World, hits: set<nat>)
    requires Inv(w) && e.DefineShare? && |e.input.candidates| == 8
    ensures Inv(w') && Advanced(w, e, w', hits) && KeepsSeen(w, w', {}) && KeepsSeenDurably(w, w', {})
  {
    var h := new Host(w, false, false);
    var _ := Define(h, e.input);
    w', hits := h.w, h.violations;
    AdvancedOperation(w, e, w', hits);
  }

  method ExecuteRemove(w: World, e: Event) returns (w': World, hits: set<nat>)
    requires Inv(w) && e.RemoveShare?
    ensures Inv(w') && Advanced(w, e, w', hits)
    ensures KeepsSeen(w, w', {}) && KeepsSeenDurably(w, w', ExemptDurably(w, e, w'))
  {
    var h := new Host(w, false, false);
    var _ := Remove(h, e.name, e.uid);
    w', hits := h.w, h.violations;
    AdvancedOperation(w, e, w', hits);
  }

  method ExecutePurge(w: World, e: Event) returns (w': World, hits: set<nat>)
    requires Inv(w) && e.PurgeAll?
    ensures Inv(w') && Advanced(w, e, w', hits) && HidesAtMostOne(w, w', e.uid)
    ensures KeepsSeen(w, w', Exempt(w, e, w')) && KeepsSeenDurably(w, w', ExemptDurably(w, e, w'))
  {
    var h := new Host(w, false, false);
    var _, _ := Purge(h, e.uid);
    w', hits := h.w, h.violations;
    PurgedSeen(w, w', e.uid);
    AdvancedOperation(w, e, w', hits);
  }

  lemma PurgedSeen(w: World, w': World, uid: nat)
    requires HidesAtMostOne(w, w', uid)
    ensures KeepsSeen(w, w', NamedCreds(w, uid)) && KeepsSeenDurably(w, w', NamedCreds(w, uid))
    ensures DiskUntouched(w, w') || Purged(w') ==> KeepsSeen(w, w', {}) && KeepsSeenDurably(w, w', {})
  {
    var hidden: set<string> :| hidden <= NamedCreds(w, uid) && |hidden| <= 1 && KeepsSeen(w, w', hidden);
  }

  method ExecuteBoot(w: World, e: Event) returns (w': World, hits: set<nat>)
    requires Inv(w) && e.BootCoordinator?
    ensures Inv(w') && Advanced(w, e, w', hits) && KeepsSeen(w, w', {}) && KeepsSeenDurably(w, w', {})
  {
    var h := new Host(w, false, false);
    var _, _ := BootRun(h, e.around);
    w', hits := h.w, h.violations;
    AdvancedOperation(w, e, w', hits);
  }

  /** What is not ours to do: other people, and the power. */
  method ExecuteOthers(w: World, e: Event) returns (w': World, hits: set<nat>)
    requires Inv(w) && (e.ForeignStart? || e.ForeignStop? || e.UserTraffic? || e.Chmod? || e.PowerLoss?)
    ensures Inv(w') && Advanced(w, e, w', hits)
    ensures (!e.PowerLoss? ==> KeepsSeen(w, w', {})) && KeepsSeenDurably(w, w', {})
  {
    hits := {};
    match e {
      case ForeignStart(n) =>
        StrangerKeeps(w, n);
        w' := StartForeign(w, n);
      case ForeignStop(n) => w' := Halt(w, n);
      case UserTraffic(n) => w' := Walk(w, n);
      case Chmod(id, spoilt) => w' := Chmodded(w, id, spoilt);
      case PowerLoss(units, creds, root) =>
        w' := w;
        if PossibleImage(w, units, creds, root) {
          SurvivesPowerLoss(w, units, creds, root);
          w' := Rebooted(w, units, creds, root);
        }
    }
  }

  /** Users walk into a trigger, or their mount goes. */
  method Walk(w: World, n: string) returns (w': World)
    requires Inv(w)
    ensures Inv(w') && w' == w.(covers := w'.covers, nextId := w'.nextId)
  {
    var comes: bool := *;
    var source: Option<string> := *;
    w' := if comes then w.(covers := w.covers[n := Cover(w.nextId, source)], nextId := w.nextId + 1)
          else Unmounted(w, n);
  }

  lemma StrangerKeeps(w: World, n: string)
    requires Inv(w)
    ensures Inv(StartForeign(w, n)) && Newcomers(w, StartForeign(w, n))
  {
    var b := StartForeign(w, n);
    forall m | !Loose(b, m) ensures BothHalves(b.units, m) {
      assert !Loose(w, m);
    }
  }

  /** What holds after every event of every history. */
  ghost predicate Safe(w: World) {
    && (forall n :: n in w.live && w.live[n] in w.ours ==> BothHalves(w.units, n))
    && (forall n :: Recorded(w, n) ==> w.live[n] in w.ours || w.live[n] in w.raced)
  }

  lemma InvMeansSafe(w: World)
    requires Inv(w)
    ensures Safe(w)
  {
    forall n | Recorded(w, n) ensures w.live[n] in w.ours || w.live[n] in w.raced {
      RecordedIsOurs(w, n);
    }
  }

  /** Every credential that no unit half leads to now was exempt at some event since m. */
  ghost predicate SeenBarring(w: World, trace: seq<World>, events: seq<Event>, m: nat, i: nat)
    requires i <= |events| && i < |trace|
  {
    forall id :: id in w.creds ==> Carried(w.units, id) || Ever(trace, events, m, i, Exempts(id))
  }

  ghost predicate SeenDurablyBarring(w: World, trace: seq<World>, events: seq<Event>, m: nat, i: nat)
    requires i <= |events| && i < |trace|
  {
    forall id :: id in w.maybeCreds ==> Carried(w.sureUnits, id) || Ever(trace, events, m, i, ExemptsDurably(id))
  }

  /** Visibility at i, credential by credential, as far as it follows from m. */
  ghost predicate VisibleSince(trace: seq<World>, events: seq<Event>, m: nat, i: nat)
    requires m <= i < |trace| && i <= |events|
  {
    && (NoPowerLoss(events, m, i) ==> SeenBarring(trace[i], trace, events, m, i))
    && SeenDurablyBarring(trace[i], trace, events, m, i)
  }

  /** Where nothing was cut short and nothing lapsed since, everything is visible. */
  lemma VisibleUnlessExempt(trace: seq<World>, events: seq<Event>, m: nat, i: nat)
    requires m <= i < |trace| && i <= |events| && VisibleSince(trace, events, m, i) && Bounds(trace[i])
    requires forall j :: m <= j < i ==> !CutShort(trace[j], events[j], trace[j + 1])
    ensures NoPowerLoss(events, m, i) ==> Visible(trace[i])
    ensures (forall j :: m <= j < i ==> !Lapse(trace[j], events[j])) ==> Visible(trace[i]) && DurablyVisible(trace[i])
  {
    if forall j :: m <= j < i ==> !Lapse(trace[j], events[j]) {
      forall id ensures !Ever(trace, events, m, i, ExemptsDurably(id)) {
      }
      VisibleNow(trace[i]);
    }
  }

  /** Everything Run promises about the state before event i, and about event i - 1. */
  ghost predicate Told(trace: seq<World>, events: seq<Event>, hits: seq<set<nat>>, i: nat)
    requires i < |trace| && i <= |events| && i <= |hits|
  {
    && Safe(trace[i])
    && (forall m :: 0 <= m <= i && CleanSlate(trace, events, m) ==> VisibleSince(trace, events, m, i))
    && (NoIntrusion(trace, events, i) ==> trace[i].raced == trace[0].raced)
    && (i > 0 ==> Explained(trace, events, hits, i - 1))
    && |trace[i].temps| <= |trace[0].temps| + Defines(events, i)
  }

  /**
   * The foreign triggers event k stopped without a mount of the share in sight: started
   * while it was under way, or put on record by an earlier call in the same way.
   */
  ghost predicate Explained(trace: seq<World>, events: seq<Event>, hits: seq<set<nat>>, k: nat)
    requires k + 1 < |trace| && k < |hits| && k < |events|
  {
    && (forall x :: x in hits[k] ==> x in trace[k + 1].foreign && (x !in trace[k].foreign || x in trace[k].raced))
    && (NoIntrusion(trace, events, k + 1) && trace[0].raced == {} ==> hits[k] == {})
  }

  /**
   * The protocol's guarantees over whole histories. `trace[i]` is the host before
   * event i and `hits[i]` what that event stopped unasked. A trigger of ours keeps both its
   * halves. Unless a foreign start fell into one of our operations, a matching record is
   * ours and no foreign trigger is stopped without a mount of the expected share on it.
   * No installed credential is invisible since the last clean slate but those a cut purge
   * had been about to delete, at most one each; nor does a power loss make one so, but
   * those and the one a remove deleted over an unlink that was never synced. Each define
   * leaves at most one temporary file.
   */
  method Run(start: World, events: seq<Event>) returns (trace: seq<World>, hits: seq<set<nat>>)
    requires Inv(start) && DurablyVisible(start)
    requires forall e :: e in events && e.DefineShare? ==> |e.input.candidates| == 8
    ensures |trace| == |events| + 1 && |hits| == |events| && trace[0] == start
    ensures forall i :: 0 <= i < |trace| ==> Told(trace, events, hits, i)
  {
    trace, hits := [start], [];
    VisibleNow(start);
    InvMeansSafe(start);
    for k := 0 to |events|
      invariant |trace| == k + 1 && |hits| == k && trace[0] == start
      invariant Inv(trace[k])
      invariant forall i :: 0 <= i <= k ==> Told(trace, events, hits, i)
    {
      var next, hit := Execute(trace[k], events[k]);
      ToldNext(trace, events, hits, k, next, hit);
      trace, hits := trace + [next], hits + [hit];
    }
  }

  lemma ToldEarlier(trace: seq<World>, events: seq<Event>, hits: seq<set<nat>>, k: nat, next: World, hit: set<nat>,
                    i: nat)
    requires |trace| == k + 1 <= |events| && |hits| == k && i <= k && Told(trace, events, hits, i)
    ensures Told(trace + [next], events, hits + [hit], i)
  {
    var longer, more := trace + [next], hits + [hit];
    assert forall j :: 0 <= j <= k ==> longer[j] == trace[j];
    assert forall j :: 0 <= j < k ==> more[j] == hits[j];
    forall m | 0 <= m <= i && CleanSlate(longer, events, m) ensures VisibleSince(longer, events, m, i) {
      assert CleanSlate(trace, events, m) && VisibleSince(trace, events, m, i);
      VisibleLonger(trace, longer, events, m, i);
    }
    if NoIntrusion(longer, events, i) { assert NoIntrusion(trace, events, i); }
    if i > 0 {
      assert Explained(trace, events, hits, i - 1);
      if NoIntrusion(longer, events, i) { assert NoIntrusion(trace, events, i); }
      assert Explained(longer, events, more, i - 1);
    }
  }

  lemma VisibleNext(trace: seq<World>, events: seq<Event>, k: nat, m: nat)
    requires k + 1 < |trace| && k < |events| && m <= k + 1 && CleanSlate(trace, events, m)
    requires m <= k ==> VisibleSince(trace, events, m, k)
    requires var w, e, w' := trace[k], events[k], trace[k + 1];
             && (!e.PowerLoss? ==> KeepsSeen(w, w', Exempt(w, e, w')))
             && KeepsSeenDurably(w, w', ExemptDurably(w, e, w'))
    ensures VisibleSince(trace, events, m, k + 1)
  {
    if m == k + 1 {
      PurgedIsVisible(trace[m]);
    } else {
      SeenNext(trace, events, k, m);
      SeenDurablyNext(trace, events, k, m);
    }
  }

  lemma EverNext(trace: seq<World>, events: seq<Event>, m: nat, k: nat, test: (World, Event, World) -> bool)
    requires m <= k < |events| && k + 1 < |trace|
    ensures Ever(trace, events, m, k + 1, test) <==>
            Ever(trace, events, m, k, test) || test(trace[k], events[k], trace[k + 1])
  {
  }

  /** What happened in a history happened in every longer one. */
  lemma EverLonger(trace: seq<World>, longer: seq<World>, events: seq<Event>, m: nat, n: nat,
                   test: (World, Event, World) -> bool)
    requires n < |trace| <= |longer| && n <= |events| && trace <= longer
    ensures Ever(trace, events, m, n, test) <==> Ever(longer, events, m, n, test)
  {
    assert forall j :: 0 <= j < |trace| ==> longer[j] == trace[j];
  }

  lemma SeenNext(trace: seq<World>, events: seq<Event>, k: nat, m: nat)
    requires k + 1 < |trace| && k < |events| && m <= k && VisibleSince(trace, events, m, k)
    requires !events[k].PowerLoss? ==> KeepsSeen(trace[k], trace[k + 1], Exempt(trace[k], events[k], trace[k + 1]))
    ensures NoPowerLoss(events, m, k + 1) ==> SeenBarring(trace[k + 1], trace, events, m, k + 1)
  {
    if NoPowerLoss(events, m, k + 1) {
      assert NoPowerLoss(events, m, k);
      var w' := trace[k + 1];
      forall id | id in w'.creds && !Carried(w'.units, id) ensures Ever(trace, events, m, k + 1, Exempts(id)) {
        EverNext(trace, events, m, k, Exempts(id));
      }
    }
  }

  lemma SeenDurablyNext(trace: seq<World>, events: seq<Event>, k: nat, m: nat)
    requires k + 1 < |trace| && k < |events| && m <= k && VisibleSince(trace, events, m, k)
    requires KeepsSeenDurably(trace[k], trace[k + 1], ExemptDurably(trace[k], events[k], trace[k + 1]))
    ensures SeenDurablyBarring(trace[k + 1], trace, events, m, k + 1)
  {
    var w' := trace[k + 1];
    forall id | id in w'.maybeCreds && !Carried(w'.sureUnits, id)
      ensures Ever(trace, events, m, k + 1, ExemptsDurably(id))
    {
      EverNext(trace, events, m, k, ExemptsDurably(id));
    }
  }

  lemma VisibleLonger(trace: seq<World>, longer: seq<World>, events: seq<Event>, m: nat, i: nat)
    requires m <= i < |trace| <= |longer| && i <= |events| && trace <= longer
    requires VisibleSince(trace, events, m, i)
    ensures VisibleSince(longer, events, m, i)
  {
    var w := trace[i];
    assert longer[i] == w;
    forall test
      ensures Ever(trace, events, m, i, test) <==> Ever(longer, events, m, i, test)
    {
      EverLonger(trace, longer, events, m, i, test);
    }
  }

  lemma ExplainedNext(trace: seq<World>, events: seq<Event>, hits: seq<set<nat>>, k: nat)
    requires k + 1 < |trace| && k < |hits| && k < |events|
    requires Advanced(trace[k], events[k], trace[k + 1], hits[k])
    requires NoIntrusion(trace, events, k) ==> trace[k].raced == trace[0].raced
    ensures Explained(trace, events, hits, k)
    ensures NoIntrusion(trace, events, k + 1) ==> trace[k + 1].raced == trace[0].raced
  {
    if NoIntrusion(trace, events, k + 1) {
      assert NoIntrusion(trace, events, k) && !Intruded(trace[k], events[k], trace[k + 1]);
    }
  }

  lemma FewTemps(w: World, e: Event, w': World, hits: set<nat>)
    requires Advanced(w, e, w', hits)
    ensures |w'.temps| <= |w.temps| + if e.DefineShare? then 1 else 0
  {
    if !e.DefineShare? {
      Subset(w'.temps, w.temps);
    } else if w'.temps != w.temps {
      var t :| w'.temps == w.temps + {t};
    }
  }

  lemma Subset(a: set<string>, b: set<string>)
    requires a <= b
    ensures |a| <= |b|
  {
    assert b == a + (b - a) && a !! (b - a);
  }

  lemma ToldNext(trace: seq<World>, events: seq<Event>, hits: seq<set<nat>>, k: nat, next: World, hit: set<nat>)
    requires |trace| == k + 1 <= |events| && |hits| == k && Inv(next)
    requires forall i :: 0 <= i <= k ==> Told(trace, events, hits, i)
    requires Advanced(trace[k], events[k], next, hit)
    requires !events[k].PowerLoss? ==> KeepsSeen(trace[k], next, Exempt(trace[k], events[k], next))
    requires KeepsSeenDurably(trace[k], next, ExemptDurably(trace[k], events[k], next))
    ensures forall i :: 0 <= i <= k + 1 ==> Told(trace + [next], events, hits + [hit], i)
  {
    var longer, more := trace + [next], hits + [hit];
    forall i | 0 <= i <= k ensures Told(longer, events, more, i) {
      ToldEarlier(trace, events, hits, k, next, hit, i);
    }
    assert longer[k] == trace[k] && longer[k + 1] == next && more[k] == hit && longer[0] == trace[0];
    assert Told(longer, events, more, k);
    InvMeansSafe(next);
    forall m | 0 <= m <= k + 1 && CleanSlate(longer, events, m) ensures VisibleSince(longer, events, m, k + 1) {
      VisibleNext(longer, events, k, m);
    }
    ExplainedNext(longer, events, more, k);
    FewTemps(trace[k], events[k], next, hit);
  }
}
