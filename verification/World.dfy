/**
 * Everything the privileged half of nasmount shares with the rest of the host:
 * unit files, credential files, recorded automount ids, live triggers and the
 * mounts users put over them. Pure state, its invariants, and what an observer
 * (src/core/verify.cpp, src/core/packagestate.cpp) reads off it.
 *
 * A unit is named by its mount point: systemd-escape is injective, so the model
 * takes the escaped name and the path to be the same string.
 */
module World {
  import opened Types
  import opened Pairing

  datatype Half = MountHalf | AutomountHalf

  datatype File = File(name: string, half: Half)

  /** The body, read by the restricted template: the mount point it is valid for, and its What=. */
  datatype Body = Body(where: string, what: string)

  /** What a whole-file search for Where= and What= finds, and the valid body if there is one. */
  datatype Places = Places(scanWhere: string, scanWhat: string, body: Option<Body>)

  /** What a unit file's text amounts to; without any Where= no body can be valid. */
  datatype Text = NoMarker | BadMarker | Marked(marker: Marker, places: Option<Places>)

  datatype UnitFile = UnitFile(text: Text, regular: bool, rootOnly: bool, readable: bool, size: nat)

  datatype Root = CredentialRoot | LockRoot | RecordRoot

  /** A mount covering a trigger; `source` is None when it is not a CIFS mount. */
  datatype Cover = Cover(id: nat, source: Option<string>)

  datatype World = World(
    units: map<File, UnitFile>,
    dropIns: set<File>,
    creds: set<string>,
    drifted: set<string>,          // credential files whose owner or mode is no longer what it should be
    temps: set<string>,            // temporary files that may hold a secret, now or in some power-loss image
    records: map<string, nat>,
    live: map<string, nat>,
    covers: map<string, Cover>,
    roots: set<Root>,
    sureRoots: set<Root>,          // those every power-loss image contains
    maybeRoots: set<Root>,         // those some power-loss image contains
    intruders: set<Root>,          // roots holding an entry that may not be deleted
    baseId: nat,                   // the mount id of the bare file system
    nextId: nat,                   // kernel mount ids are handed out once, ascending
    ours: set<nat>,                // trigger instances started by this tool
    foreign: set<nat>,             // trigger instances started by anyone else
    raced: set<nat>,               // foreign instances whose id was nevertheless recorded
    sureUnits: map<File, UnitFile>, // entries every power-loss image contains
    maybeUnits: set<File>,         // entries some power-loss image contains
    sureCreds: set<string>,        // credentials every image with the credential root contains
    maybeCreds: set<string>)       // credentials some power-loss image contains

  // --- observers -----------------------------------------------------------

  predicate ProbeOk(u: UnitFile) {
    u.regular && u.rootOnly && u.readable
  }

  predicate HasMarker(u: UnitFile) {
    !u.text.NoMarker?
  }

  function ScanOf(units: map<File, UnitFile>, f: File): Option<Scan> {
    if f in units && ProbeOk(units[f]) && units[f].text.Marked? && units[f].text.places.Some?
    then Some(Scan(units[f].text.marker, units[f].text.places.value.scanWhere,
                   if f.half == MountHalf then units[f].text.places.value.scanWhat else ""))
    else None
  }

  function GroupOf(units: map<File, UnitFile>, n: string): Group {
    Group(ScanOf(units, File(n, MountHalf)), ScanOf(units, File(n, AutomountHalf)))
  }

  /** The scan of the unit directory, grouped by base name. */
  function Managed(units: map<File, UnitFile>): (gs: map<string, Group>)
    ensures forall n :: n in gs ==> Occupied(gs[n])
    ensures forall n :: n in gs <==> Occupied(GroupOf(units, n))
  {
    var names := set f | f in units :: f.name;
    assert forall n :: Occupied(GroupOf(units, n)) ==>
        n in names by {
      forall n | Occupied(GroupOf(units, n)) ensures n in names {
        assert File(n, MountHalf) in units || File(n, AutomountHalf) in units;
      }
    }
    map n | n in names && Occupied(GroupOf(units, n)) :: GroupOf(units, n)
  }

  datatype Side = NotPresent | Unmarked | Broken | Valid(marker: Marker, what: string)

  function SideOf(units: map<File, UnitFile>, f: File, uid: nat): Side {
    if f !in units then NotPresent
    else match units[f].text
      case NoMarker => Unmarked
      case BadMarker => Broken
      case Marked(m, places) =>
        if m.uid != uid || places.None? || places.value.body.None? || places.value.body.value.where != f.name
        then Broken
        else Valid(m, if f.half == MountHalf then places.value.body.value.what else "")
  }

  datatype DefinitionCheck = DefinitionCheck(state: Definition, marker: Option<Marker>, what: string)

  predicate Unsafe(w: World, f: File) {
    (f in w.units && !ProbeOk(w.units[f])) || f in w.dropIns
  }

  /** inspectDefinition: the two halves of n, judged for the owner uid. */
  function Inspect(w: World, n: string, uid: nat): DefinitionCheck {
    var mf, af := File(n, MountHalf), File(n, AutomountHalf);
    if Unsafe(w, mf) || Unsafe(w, af) then DefinitionCheck(Tampered, None, "")
    else
      var m, a := SideOf(w.units, mf, uid), SideOf(w.units, af, uid);
      if m == NotPresent && a == NotPresent then DefinitionCheck(Undefined, None, "")
      else if m == Broken || a == Broken then DefinitionCheck(Tampered, None, "")
      else if m == Unmarked || a == Unmarked then DefinitionCheck(NotOurs, None, "")
      else if m.Valid? && a.Valid? then
        if m.marker != a.marker then DefinitionCheck(Tampered, None, "")
        else DefinitionCheck(Pair, Some(m.marker), m.what)
      else if m.Valid? then DefinitionCheck(Partial, Some(m.marker), m.what)
      else DefinitionCheck(Partial, Some(a.marker), "")
  }

  predicate BothHalves(units: map<File, UnitFile>, n: string) {
    File(n, MountHalf) in units && File(n, AutomountHalf) in units
  }

  // --- who can see a credential ----------------------------------------------

  predicate Carries(u: UnitFile, id: string) {
    u.readable && u.text.Marked? && u.text.marker.id == id
  }

  /** Some readable unit half names this credential in its marker. */
  ghost predicate Carried(units: map<File, UnitFile>, id: string) {
    exists f :: f in units && Carries(units[f], id)
  }

  ghost predicate CarriedElsewhere(units: map<File, UnitFile>, n: string, id: string) {
    exists f :: f in units && f.name != n && Carries(units[f], id)
  }

  ghost predicate Seen(ids: set<string>, units: map<File, UnitFile>) {
    forall id :: id in ids ==> Carried(units, id)
  }

  /** Every credential but `id` is visible without the files of `n`. */
  ghost predicate SeenBut(ids: set<string>, units: map<File, UnitFile>, n: string, id: string) {
    forall x :: x in ids && x != id ==> CarriedElsewhere(units, n, x)
  }

  /** No installed credential file that no unit half leads to. */
  ghost predicate Visible(w: World) {
    Seen(w.creds, w.units)
  }

  /** The same, for every image the next power loss may leave behind. */
  ghost predicate DurablyVisible(w: World) {
    Seen(w.maybeCreds, w.sureUnits)
  }

  /** Every credential that was visible, or is new, is visible; but for these. */
  ghost predicate KeepsSeen(a: World, b: World, but: set<string>) {
    forall id :: id in b.creds && id !in but && (id in a.creds ==> Carried(a.units, id)) ==> Carried(b.units, id)
  }

  /** The same for every image the next power loss may leave behind. */
  ghost predicate KeepsSeenDurably(a: World, b: World, but: set<string>) {
    forall id :: id in b.maybeCreds && id !in but && (id in a.maybeCreds ==> Carried(a.sureUnits, id)) ==>
      Carried(b.sureUnits, id)
  }

  lemma KeepsVisible(a: World, b: World)
    ensures Visible(a) && KeepsSeen(a, b, {}) ==> Visible(b)
    ensures DurablyVisible(a) && KeepsSeenDurably(a, b, {}) ==> DurablyVisible(b)
  {
  }

  // --- invariants --------------------------------------------------------------

  ghost predicate Submap(a: map<File, UnitFile>, b: map<File, UnitFile>) {
    forall f :: f in a ==> f in b && a[f] == b[f]
  }

  ghost predicate Ids(w: World) {
    && w.ours !! w.foreign && w.raced <= w.foreign
    && 0 < w.baseId < w.nextId && w.baseId !in w.ours + w.foreign
    && (forall x :: x in w.ours + w.foreign ==> 0 < x < w.nextId)
    && (forall n :: n in w.live ==> w.live[n] in w.ours + w.foreign)
    && (forall n :: n in w.records ==>
          w.records[n] < w.nextId && (w.records[n] in w.foreign ==> w.records[n] in w.raced))
    && (forall n :: n in w.covers ==> 0 < w.covers[n].id < w.nextId && w.covers[n].id !in w.ours + w.foreign)
  }

  /** What runs at n is neither ours nor on record. */
  predicate Loose(w: World, n: string) {
    n in w.live ==> w.live[n] !in w.ours && !Recorded(w, n)
  }

  /** A live trigger this tool started, or has on record, still has both unit halves on disk. */
  ghost predicate Backed(w: World) {
    forall n :: !Loose(w, n) ==> BothHalves(w.units, n)
  }

  ghost predicate Bounds(w: World) {
    && Submap(w.sureUnits, w.units)
    && w.units.Keys <= w.maybeUnits
    && w.sureCreds <= w.creds <= w.maybeCreds && w.sureRoots <= w.roots <= w.maybeRoots
    && (CredentialRoot !in w.roots ==> w.maybeCreds == {} && w.temps == {})
    && (RecordRoot !in w.roots ==> w.records == map[])
    && w.intruders <= w.roots
  }

  ghost predicate Inv(w: World) {
    Ids(w) && Backed(w) && Bounds(w)
  }

  /** The recorded id is that of the running instance. */
  predicate Recorded(w: World, n: string) {
    n in w.live && n in w.records && w.records[n] == w.live[n]
  }

  /** A matching record points at an instance this tool started, or at one whose start raced with its own. */
  lemma RecordedIsOurs(w: World, n: string)
    requires Inv(w) && Recorded(w, n)
    ensures w.live[n] in w.ours || w.live[n] in w.raced
  {
    assert w.live[n] in w.ours + w.foreign;
  }

  /** With nothing defined at n, no trigger this tool started or recorded can be live there. */
  lemma UndefinedMeansNotOurs(w: World, n: string, uid: nat)
    requires Inv(w) && Inspect(w, n, uid).state == Undefined
    ensures Loose(w, n) && (n in w.live ==> w.live[n] in w.foreign)
    ensures !BothHalves(w.units, n)
  {
    assert SideOf(w.units, File(n, MountHalf), uid) == NotPresent;
    assert SideOf(w.units, File(n, AutomountHalf), uid) == NotPresent;
  }

  // --- other people ------------------------------------------------------------------

  /**
   * Between a and b somebody else was busy at n: users walked into the trigger or their
   * mount went, triggers were stopped, and triggers of their own were started.
   */
  ghost predicate MovedAt(a: World, b: World, n: string) {
    && a.nextId <= b.nextId
    && b.covers - {n} == a.covers - {n} && b.live - {n} == a.live - {n}
    && (n in b.covers ==> (n in a.covers && a.covers[n] == b.covers[n]) || b.covers[n].id >= a.nextId)
    && (n in b.live ==> (n in a.live && a.live[n] == b.live[n]) || (b.live[n] >= a.nextId && b.live[n] in b.foreign))
    && Newcomers(a, b)
  }

  /** What runs at n was started since. */
  predicate Since(a: World, b: World, n: string) {
    n in b.live ==> b.live[n] >= a.nextId
  }

  /** A mount at n has to be that of the share; a bare trigger has to be the one on record. */
  predicate StopReady(w: World, n: string, what: string) {
    if n in w.covers then w.covers[n].source == Some(what) else n in w.live ==> Recorded(w, n)
  }

  /** Every foreign instance that b knows and a does not was started in between. */
  ghost predicate Newcomers(a: World, b: World) {
    a.foreign <= b.foreign && forall x :: x in b.foreign && x !in a.foreign ==> x >= a.nextId
  }

  ghost predicate Meddled(a: World, b: World, n: string) {
    b == a.(covers := b.covers, nextId := b.nextId, live := b.live, foreign := b.foreign) && MovedAt(a, b, n)
  }

  lemma MeddledTrans(a: World, b: World, c: World, n: string)
    requires Meddled(a, b, n) && Meddled(b, c, n)
    ensures Meddled(a, c, n)
  {
  }

  /** Nobody of ours and nothing on record runs at n once everything that ran there was started by others since. */
  lemma SinceIsLoose(a: World, b: World, n: string)
    requires Inv(a) && Meddled(a, b, n) && Since(a, b, n) && Ids(b)
    ensures Loose(b, n)
  {
  }

  /** At most one temporary file more. */
  ghost predicate OneTempMore(a: World, b: World) {
    b.temps == a.temps || exists t :: b.temps == a.temps + {t}
  }

  lemma MeddledKeeps(a: World, b: World, n: string)
    requires Inv(a) && Meddled(a, b, n) && Ids(b)
    ensures Inv(b) && (Loose(a, n) ==> Loose(b, n))
  {
    forall m | !Loose(b, m) ensures !Loose(a, m) {
      if m != n { assert m in b.live - {n}; }
    }
  }

  // --- effects of the durable primitives ------------------------------------------

  /** createAndVerifyDir: a directory that is there already is opened, and nothing is synced. */
  function MakeRoot(w: World, r: Root): World {
    if r in w.roots then w
    else w.(roots := w.roots + {r}, sureRoots := w.sureRoots + {r}, maybeRoots := w.maybeRoots + {r})
  }

  /** The directory was made, its entry in the parent not synced. */
  function HalfRoot(w: World, r: Root): World {
    if r in w.roots then w else w.(roots := w.roots + {r}, maybeRoots := w.maybeRoots + {r})
  }

  /** Private directories only come into being; one that was there unsynced is never synced later. */
  predicate RootsGrow(a: World, b: World) {
    && a.roots <= b.roots && a.sureRoots <= b.sureRoots && a.maybeRoots <= b.maybeRoots
    && forall r | r in b.sureRoots && r !in a.sureRoots :: r !in a.roots
  }

  /** Only credential files and private directories changed. */
  ghost predicate SecretFrame(a: World, b: World) {
    && b == a.(creds := b.creds, drifted := b.drifted, temps := b.temps, sureCreds := b.sureCreds,
               maybeCreds := b.maybeCreds, roots := b.roots, sureRoots := b.sureRoots, maybeRoots := b.maybeRoots)
    && RootsGrow(a, b)
  }

  /** Nothing but private directories came into being. */
  ghost predicate OnlyRoots(a: World, b: World) {
    b == a.(roots := b.roots, sureRoots := b.sureRoots, maybeRoots := b.maybeRoots) && RootsGrow(a, b)
  }

  /** Opening a private directory, whatever came of it. */
  predicate Opened(a: World, b: World, r: Root) {
    b == a || b == MakeRoot(a, r) || b == HalfRoot(a, r)
  }

  /** durableReplace in the unit directory; `synced` when its directory fsync succeeded. */
  function PutUnit(w: World, f: File, u: UnitFile, synced: bool): World {
    w.(units := w.units[f := u],
       sureUnits := if synced then w.units[f := u] else w.sureUnits - {f},
       maybeUnits := if synced then w.units.Keys + {f} else w.maybeUnits + {f})
  }

  function DropUnit(w: World, f: File, synced: bool): World {
    w.(units := w.units - {f},
       sureUnits := if synced then w.units - {f} else w.sureUnits - {f},
       maybeUnits := if synced then w.units.Keys - {f} else w.maybeUnits)
  }

  function PutCred(w: World, id: string, synced: bool): World {
    MakeRoot(w, CredentialRoot).(
      creds := w.creds + {id},
      drifted := w.drifted - {id},
      sureCreds := if synced then w.creds + {id} else w.sureCreds - {id},
      maybeCreds := if synced then w.creds + {id} else w.maybeCreds + {id})
  }

  function DropCred(w: World, id: string, synced: bool): World {
    MakeRoot(w, CredentialRoot).(
      creds := w.creds - {id},
      sureCreds := if synced then w.creds - {id} else w.sureCreds - {id},
      maybeCreds := if synced then w.creds - {id} else w.maybeCreds)
  }

  /** The temporary file of a write that did not come to its end. */
  function Leak(w: World, temp: string): World {
    MakeRoot(w, CredentialRoot).(temps := w.temps + {temp})
  }

  function PutRecord(w: World, n: string, id: nat): World {
    MakeRoot(w, RecordRoot).(
      records := w.records[n := id],
      raced := if id in w.foreign then w.raced + {id} else w.raced)
  }

  function DropRecord(w: World, n: string): World {
    MakeRoot(w, RecordRoot).(records := w.records - {n})
  }

  function Launch(w: World, n: string): World {
    if n in w.live then w
    else w.(live := w.live[n := w.nextId], ours := w.ours + {w.nextId}, nextId := w.nextId + 1)
  }

  function Halt(w: World, n: string): World {
    w.(live := w.live - {n})
  }

  lemma RootsKeep(w: World, v: World)
    requires Inv(w) && v == w.(roots := v.roots, sureRoots := v.sureRoots, maybeRoots := v.maybeRoots)
    requires w.roots <= v.roots && v.sureRoots <= v.roots <= v.maybeRoots
    ensures Inv(v)
  {
    assert Ids(v);
    assert forall n :: Loose(v, n) <==> Loose(w, n);
  }

  lemma MadeIsOnlyRoots(w: World, r: Root)
    ensures OnlyRoots(w, MakeRoot(w, r))
  {
  }

  lemma HalfIsOnlyRoots(w: World, r: Root)
    ensures OnlyRoots(w, HalfRoot(w, r))
  {
  }

  lemma MadeKeeps(w: World, r: Root)
    requires Inv(w)
    ensures Inv(MakeRoot(w, r)) && OnlyRoots(w, MakeRoot(w, r))
  {
    MadeIsOnlyRoots(w, r);
    var v := MakeRoot(w, r);
    assert v.sureRoots <= v.roots <= v.maybeRoots;
    RootsKeep(w, v);
  }

  lemma HalfKeeps(w: World, r: Root)
    requires Inv(w)
    ensures Inv(HalfRoot(w, r)) && OnlyRoots(w, HalfRoot(w, r))
  {
    HalfIsOnlyRoots(w, r);
    var v := HalfRoot(w, r);
    assert v.sureRoots <= v.roots <= v.maybeRoots;
    RootsKeep(w, v);
  }

  lemma OpenedKeeps(a: World, b: World, r: Root)
    requires Inv(a) && Opened(a, b, r)
    ensures Inv(b) && OnlyRoots(a, b)
  {
    MadeKeeps(a, r);
    HalfKeeps(a, r);
  }

  /** Credential files and their leftovers are nobody else's business. */
  lemma SecretsKeep(w: World, v: World)
    requires Inv(w) && v == w.(creds := v.creds, drifted := v.drifted, temps := v.temps,
                               sureCreds := v.sureCreds, maybeCreds := v.maybeCreds)
    requires v.sureCreds <= v.creds <= v.maybeCreds && CredentialRoot in w.roots
    ensures Inv(v)
  {
    assert Ids(v);
    assert forall n :: Loose(v, n) <==> Loose(w, n);
  }

  lemma LeakKeeps(w: World, temp: string)
    requires Inv(w)
    ensures Inv(Leak(w, temp)) && SecretFrame(w, Leak(w, temp))
  {
    MadeKeeps(w, CredentialRoot);
    SecretsKeep(MakeRoot(w, CredentialRoot), Leak(w, temp));
  }

  lemma PutCredKeeps(w: World, id: string, synced: bool)
    requires Inv(w)
    ensures Inv(PutCred(w, id, synced)) && SecretFrame(w, PutCred(w, id, synced))
  {
    MadeKeeps(w, CredentialRoot);
    SecretsKeep(MakeRoot(w, CredentialRoot), PutCred(w, id, synced));
  }

  lemma DropCredKeeps(w: World, id: string, synced: bool)
    requires Inv(w)
    ensures Inv(DropCred(w, id, synced)) && SecretFrame(w, DropCred(w, id, synced))
  {
    MadeKeeps(w, CredentialRoot);
    SecretsKeep(MakeRoot(w, CredentialRoot), DropCred(w, id, synced));
  }

  lemma SecretFrameTrans(a: World, b: World, c: World)
    requires SecretFrame(a, b) && SecretFrame(b, c)
    ensures SecretFrame(a, c)
  {
  }

  lemma DropRecordKeeps(w: World, n: string)
    requires Inv(w)
    ensures Inv(DropRecord(w, n)) && RootsGrow(w, DropRecord(w, n))
  {
    MadeKeeps(w, RecordRoot);
    var v := DropRecord(w, n);
    assert Ids(v);
    assert forall m :: Loose(w, m) ==> Loose(v, m);
  }

  lemma LaunchKeeps(w: World, n: string)
    requires Inv(w) && BothHalves(w.units, n)
    ensures Inv(Launch(w, n))
    ensures Launch(w, n).live - {n} == w.live - {n}
  {
    assert n !in w.live ==> w.live[n := w.nextId] - {n} == w.live - {n};
  }

  /** Neither the trigger nor the record nor the mount of n moved. */
  predicate SameAt(a: World, b: World, n: string) {
    && (n in a.live <==> n in b.live)
    && (n in a.live && n in b.live ==> a.live[n] == b.live[n])
    && (n in a.records <==> n in b.records)
    && (n in a.records && n in b.records ==> a.records[n] == b.records[n])
    && (n in a.covers <==> n in b.covers)
    && (n in a.covers && n in b.covers ==> a.covers[n] == b.covers[n])
  }

  lemma ElsewhereSame(a: World, b: World, n: string)
    requires a.live - {n} == b.live - {n} && a.records - {n} == b.records - {n} && a.covers - {n} == b.covers - {n}
    ensures forall m :: m != n ==> SameAt(a, b, m)
  {
    forall m | m != n ensures SameAt(a, b, m) {
      assert m in a.live - {n} <==> m in b.live - {n};
      assert m in a.records - {n} <==> m in b.records - {n};
      assert m in a.covers - {n} <==> m in b.covers - {n};
      if m in a.covers { assert (a.covers - {n})[m] == (b.covers - {n})[m]; }
      if m in a.live { assert (a.live - {n})[m] == (b.live - {n})[m]; }
      if m in a.records { assert (a.records - {n})[m] == (b.records - {n})[m]; }
    }
  }
}
