/**
 * The protocol's durable primitives, carried out by the syscalls beneath them: what
 * Host assumes of a unit or credential file is what DurableFs guarantees.
 */
module Refinement {
  import opened Types
  import opened DurableFs
  import World
  import Runs
  import Uninstall
  import PurgeRules

  /** Which file of the directory is which unit, and what its bytes amount to. */
  datatype Naming = Naming(unit: World.File -> string, read: seq<byte> -> World.UnitFile, cred: string -> string)

  ghost predicate Injective(n: Naming) {
    && (forall f, g :: n.unit(f) == n.unit(g) ==> f == g)
    && (forall a, b :: n.cred(a) == n.cred(b) ==> a == b)
  }

  /** The unit directory agrees with the protocol's view: now, and in every image a crash may leave. */
  ghost predicate ShowsUnit(d: Directory, n: Naming, w: World.World, f: World.File) {
    && (f in w.units <==> n.unit(f) in d.names)
    && (f in w.units ==> Content(d, n.unit(f)).Some? && w.units[f] == n.read(Content(d, n.unit(f)).value))
    && (forall r :: CrashGives(d, n.unit(f), r) && r.Some? ==> f in w.maybeUnits)
    && (f in w.sureUnits ==> forall r :: CrashGives(d, n.unit(f), r) ==> r.Some? && n.read(r.value) == w.sureUnits[f])
    && Settled(d, n.unit(f))
  }

  ghost predicate ShowsUnits(d: Directory, n: Naming, w: World.World) {
    Valid(d) && forall f: World.File :: ShowsUnit(d, n, w, f)
  }

  ghost predicate ShowsCred(d: Directory, n: Naming, w: World.World, id: string) {
    && (id in w.creds <==> n.cred(id) in d.names)
    && (forall r :: CrashGives(d, n.cred(id), r) && r.Some? ==> id in w.maybeCreds)
    && (id in w.sureCreds ==> forall r :: CrashGives(d, n.cred(id), r) ==> r.Some?)
  }

  /** Whatever else the directory holds, now or after a crash, is known as a temporary file. */
  ghost predicate ShowsTemp(d: Directory, n: Naming, w: World.World, x: string) {
    (exists id :: n.cred(id) == x) || x in w.temps || forall r :: CrashGives(d, x, r) ==> r.None?
  }

  ghost predicate ShowsCreds(d: Directory, n: Naming, w: World.World) {
    && Valid(d)
    && (forall id: string :: ShowsCred(d, n, w, id))
    && (forall x: string :: ShowsTemp(d, n, w, x))
  }

  /** The credential root's own entry in its parent. */
  ghost predicate ShowsRoot(p: Directory, name: string, w: World.World) {
    && Valid(p) && (World.CredentialRoot in w.roots <==> name in p.names)
    && (forall r :: CrashGives(p, name, r) && r.Some? ==> World.CredentialRoot in w.maybeRoots)
    && (World.CredentialRoot in w.sureRoots ==> forall r :: CrashGives(p, name, r) ==> r.Some?)
  }

  // --- entries nobody touched ---------------------------------------------------------------

  lemma UntouchedUnit(a: Directory, b: Directory, n: Naming, w: World.World, f: World.File)
    requires Valid(a) && Valid(b) && ShowsUnit(a, n, w, f) && NotWorse(a, b, n.unit(f))
    ensures ShowsUnit(b, n, w, f)
  {
    NotWorseMeans(a, b, n.unit(f), None);
    forall r | CrashGives(b, n.unit(f), r) ensures CrashGives(a, n.unit(f), r) {
      NotWorseMeans(a, b, n.unit(f), r);
    }
    forall i: nat | Some(i) in OnDisk(b, n.unit(f)) && i in b.inodes ensures b.inodes[i].synced {
      assert Some(i) in OnDisk(a, n.unit(f));
    }
  }

  lemma UntouchedCred(a: Directory, b: Directory, n: Naming, w: World.World, id: string)
    requires Valid(a) && Valid(b) && ShowsCred(a, n, w, id) && NotWorse(a, b, n.cred(id))
    ensures ShowsCred(b, n, w, id)
  {
    forall r | CrashGives(b, n.cred(id), r) ensures CrashGives(a, n.cred(id), r) {
      NotWorseMeans(a, b, n.cred(id), r);
    }
  }

  lemma UntouchedTemp(a: Directory, b: Directory, n: Naming, w: World.World, x: string)
    requires Valid(a) && Valid(b) && ShowsTemp(a, n, w, x) && NotWorse(a, b, x)
    ensures ShowsTemp(b, n, w, x)
  {
    forall r | CrashGives(b, x, r) ensures CrashGives(a, x, r) {
      NotWorseMeans(a, b, x, r);
    }
  }

  /** After a directory sync a crash gives what is there. */
  lemma SyncedShows(d: Directory, x: string, r: Option<seq<byte>>)
    requires Valid(d) && d.pending == map[] && CrashGives(d, x, r)
    ensures r.Some? <==> x in d.names
    ensures Settled(d, x) ==> r == Content(d, x)
  {
    assert OnDisk(d, x) == {Entry(d, x)};
  }

  // --- unit files -------------------------------------------------------------------------------

  /** durableReplace does what the protocol takes writing a unit to do: all, all but the sync, or nothing. */
  method WriteUnit(m: Machine, n: Naming, ghost w: World.World, f: World.File, content: seq<byte>, mode: nat,
                   candidates: seq<string>)
    returns (ok: bool, ghost w': World.World)
    requires Injective(n) && ShowsUnits(m.d, n, w) && |candidates| == 8
    requires forall g :: n.unit(g) !in candidates
    modifies m
    ensures ShowsUnits(m.d, n, w')
    ensures var u := n.read(content);
            w' in {w, World.PutUnit(w, f, u, true), World.PutUnit(w, f, u, false)}
            && (ok ==> w' == World.PutUnit(w, f, u, true))
  {
    ghost var start := m.d;
    ghost var u := n.read(content);
    ghost var renamed, created;
    ok, renamed, created := DurableReplace(m, n.unit(f), content, mode, candidates);
    w' := if ok then World.PutUnit(w, f, u, true) else if renamed then World.PutUnit(w, f, u, false) else w;
    assert ShowsUnit(start, n, w, f);
    forall g: World.File | g != f || !renamed ensures NotWorse(start, m.d, n.unit(g)) {
      assert g != f ==> n.unit(g) != n.unit(f);
    }
    AllUnits(start, m.d, n, w, w', f, u, renamed, ok);
  }

  lemma AllUnits(a: Directory, b: Directory, n: Naming, w: World.World, w': World.World, f: World.File,
                 u: World.UnitFile, renamed: bool, ok: bool)
    requires ShowsUnits(a, n, w) && Valid(b) && (ok ==> renamed && b.pending == map[])
    requires forall g: World.File :: g != f || !renamed ==> NotWorse(a, b, n.unit(g))
    requires w' == if renamed then World.PutUnit(w, f, u, ok) else w
    requires renamed ==> n.unit(f) in b.names && Settled(b, n.unit(f)) && Content(b, n.unit(f)).Some?
                         && n.read(Content(b, n.unit(f)).value) == u
    ensures ShowsUnits(b, n, w')
  {
    forall g: World.File ensures ShowsUnit(b, n, w', g) {
      assert ShowsUnit(a, n, w, g);
      if g == f && renamed {
        WrittenUnit(b, n, w', f, u, ok);
      } else {
        OtherUnit(a, b, n, w, w', g, ok);
      }
    }
  }

  lemma WrittenUnit(d: Directory, n: Naming, w: World.World, f: World.File, u: World.UnitFile, ok: bool)
    requires Valid(d) && Settled(d, n.unit(f)) && f in w.units && w.units[f] == u && f in w.maybeUnits
    requires n.unit(f) in d.names && Content(d, n.unit(f)).Some? && n.read(Content(d, n.unit(f)).value) == u
    requires if ok then d.pending == map[] && w.sureUnits == w.units && w.maybeUnits == w.units.Keys
             else f !in w.sureUnits
    ensures ShowsUnit(d, n, w, f)
  {
    if ok { SyncedUnit(d, n, w, f); }
  }

  lemma OtherUnit(a: Directory, b: Directory, n: Naming, w: World.World, w': World.World, g: World.File, ok: bool)
    requires Valid(a) && Valid(b) && ShowsUnit(a, n, w, g) && NotWorse(a, b, n.unit(g))
    requires (g in w.units <==> g in w'.units) && (g in w.units ==> w.units[g] == w'.units[g])
    requires if ok then b.pending == map[] && w'.sureUnits == w'.units && w'.maybeUnits == w'.units.Keys
             else (g in w'.sureUnits ==> g in w.sureUnits && w'.sureUnits[g] == w.sureUnits[g])
                  && (g in w.maybeUnits ==> g in w'.maybeUnits)
    ensures ShowsUnit(b, n, w', g)
  {
    UntouchedUnit(a, b, n, w, g);
    if ok { SyncedUnit(b, n, w', g); }
  }

  lemma SyncedUnit(d: Directory, n: Naming, w: World.World, g: World.File)
    requires Valid(d) && d.pending == map[] && Settled(d, n.unit(g)) && w.sureUnits == w.units
    requires w.maybeUnits == w.units.Keys
    requires g in w.units <==> n.unit(g) in d.names
    requires g in w.units ==> Content(d, n.unit(g)).Some? && w.units[g] == n.read(Content(d, n.unit(g)).value)
    ensures ShowsUnit(d, n, w, g)
  {
    forall r | CrashGives(d, n.unit(g), r) && r.Some? ensures g in w.maybeUnits {
      SyncedShows(d, n.unit(g), r);
    }
    forall r | g in w.sureUnits && CrashGives(d, n.unit(g), r) ensures r.Some? && n.read(r.value) == w.sureUnits[g] {
      SyncedShows(d, n.unit(g), r);
    }
  }

  /** durableUnlink does what the protocol takes removing a unit to do; a missing file is removed unsynced. */
  method RemoveUnit(m: Machine, n: Naming, ghost w: World.World, f: World.File)
    returns (ok: bool, ghost w': World.World)
    requires Injective(n) && ShowsUnits(m.d, n, w)
    modifies m
    ensures ShowsUnits(m.d, n, w')
    ensures w' in {w, World.DropUnit(w, f, true), World.DropUnit(w, f, false)}
    ensures ok ==> w' == if f in w.units then World.DropUnit(w, f, true) else w
  {
    ghost var start := m.d;
    assert ShowsUnit(start, n, w, f);
    ok := DurableUnlink(m, n.unit(f), true);
    ghost var gone := f in w.units && n.unit(f) !in m.d.names;
    w' := if gone then World.DropUnit(w, f, ok) else w;
    forall g: World.File ensures ShowsUnit(m.d, n, w', g) {
      assert ShowsUnit(start, n, w, g);
      if g != f {
        assert n.unit(g) != n.unit(f);
        UntouchedUnit(start, m.d, n, w, g);
      } else if n.unit(f) in m.d.names {
        UntouchedUnit(start, m.d, n, w, f);
      }
      if gone && ok { SyncedUnit(m.d, n, w', g); }
    }
  }

  // --- credential files ---------------------------------------------------------------------------

  /**
   * The secret is written into a temporary file first. Unless the call succeeds that file
   * may stay, or be what a crash brings back; it is the one the protocol counts.
   */
  method WriteCred(m: Machine, n: Naming, ghost w: World.World, id: string, content: seq<byte>, mode: nat,
                   candidates: seq<string>)
    returns (ok: bool, ghost w': World.World, ghost temp: string)
    requires Injective(n) && ShowsCreds(m.d, n, w) && World.CredentialRoot in w.roots
    requires |candidates| == 8 && forall x :: n.cred(x) !in candidates
    modifies m
    ensures ShowsCreds(m.d, n, w')
    ensures w' in {World.Leak(w, temp), World.PutCred(w, id, true), World.PutCred(World.Leak(w, temp), id, false)}
    ensures ok ==> w' == World.PutCred(w, id, true)
  {
    ghost var start := m.d;
    ghost var renamed;
    ok, renamed, temp := DurableReplace(m, n.cred(id), content, mode, candidates);
    ghost var leaked := World.Leak(w, temp);
    w' := if ok then World.PutCred(w, id, true) else if renamed then World.PutCred(leaked, id, false) else leaked;
    forall x: string ensures ShowsCred(m.d, n, w', x) {
      assert ShowsCred(start, n, w, x);
      if x != id || !renamed {
        assert n.cred(x) != n.cred(id) || !renamed;
        UntouchedCred(start, m.d, n, w, x);
      }
      if ok { SyncedCred(m.d, n, w', x); }
    }
    forall x: string ensures ShowsTemp(m.d, n, w', x) {
      TempAfterWrite(start, m.d, n, w, w', id, x, temp, ok);
    }
  }

  lemma TempAfterWrite(a: Directory, b: Directory, n: Naming, w: World.World, w': World.World, id: string, x: string,
                       temp: string, ok: bool)
    requires Valid(a) && Valid(b) && ShowsTemp(a, n, w, x) && w.temps <= w'.temps && (!ok ==> temp in w'.temps)
    requires x != temp && x != n.cred(id) ==> NotWorse(a, b, x)
    requires ok ==> b.pending == map[] && temp !in b.names
    ensures ShowsTemp(b, n, w', x)
  {
    if x != temp && x != n.cred(id) {
      UntouchedTemp(a, b, n, w, x);
    } else if x == temp && ok {
      forall r | CrashGives(b, x, r) ensures r.None? {
        SyncedShows(b, x, r);
      }
    }
  }

  lemma SyncedCred(d: Directory, n: Naming, w: World.World, x: string)
    requires Valid(d) && d.pending == map[] && w.maybeCreds == w.creds == w.sureCreds
    requires x in w.creds <==> n.cred(x) in d.names
    ensures ShowsCred(d, n, w, x)
  {
    forall r | CrashGives(d, n.cred(x), r) ensures r.Some? <==> x in w.maybeCreds {
      SyncedShows(d, n.cred(x), r);
    }
  }

  /** A credential whose unlink was not synced may come back: it stays among those some image contains. */
  method RemoveCred(m: Machine, n: Naming, ghost w: World.World, id: string)
    returns (ok: bool, ghost w': World.World)
    requires Injective(n) && ShowsCreds(m.d, n, w) && World.CredentialRoot in w.roots
    modifies m
    ensures ShowsCreds(m.d, n, w')
    ensures w' in {w, World.DropCred(w, id, true), World.DropCred(w, id, false)}
    ensures ok ==> w' == if id in w.creds then World.DropCred(w, id, true) else w
  {
    ghost var start := m.d;
    assert ShowsCred(start, n, w, id);
    ok := DurableUnlink(m, n.cred(id), true);
    ghost var gone := id in w.creds && n.cred(id) !in m.d.names;
    w' := if gone then World.DropCred(w, id, ok) else w;
    forall x: string ensures ShowsCred(m.d, n, w', x) {
      assert ShowsCred(start, n, w, x);
      if x != id {
        assert n.cred(x) != n.cred(id);
        UntouchedCred(start, m.d, n, w, x);
      }
      if gone && ok { SyncedCred(m.d, n, w', x); }
    }
    forall x: string ensures ShowsTemp(m.d, n, w', x) {
      assert ShowsTemp(start, n, w, x);
      if x != n.cred(id) { UntouchedTemp(start, m.d, n, w, x); }
    }
  }

  // --- the credential root ------------------------------------------------------------------------

  /** createAndVerifyDir does what the protocol takes opening the credential root to do. */
  method OpenRoot(parent: Machine, name: string, mode: nat, ghost w: World.World)
    returns (ok: bool, ghost w': World.World)
    requires ShowsRoot(parent.d, name, w) && World.Bounds(w)
    modifies parent
    ensures ShowsRoot(parent.d, name, w') && World.Opened(w, w', World.CredentialRoot)
    ensures ok ==> w' == World.MakeRoot(w, World.CredentialRoot)
    ensures parent.quiet && old(parent.alive) ==> (ok <==> IsSingleComponent(name))
  {
    ghost var start := parent.d;
    ok := CreateAndVerifyDir(parent, name, mode);
    w' := if parent.d == start then w
          else if ok then World.MakeRoot(w, World.CredentialRoot) else World.HalfRoot(w, World.CredentialRoot);
    forall r | ok && name !in start.names && CrashGives(parent.d, name, r) ensures r.Some? {
      SyncedShows(parent.d, name, r);
    }
  }

  /** Which entries the removal of the directory accepts: of the installed credentials, those that are not spoilt. */
  ghost predicate Recognises(d: Directory, n: Naming, w: World.World, removable: set<string>) {
    && (forall id :: id in w.creds ==> (n.cred(id) in removable <==> id !in w.drifted))
    && (World.CredentialRoot in w.intruders <==> exists x :: Intruder(d, n, removable, x))
  }

  ghost predicate Intruder(d: Directory, n: Naming, removable: set<string>, x: string) {
    x in d.names && x !in removable && !exists id :: n.cred(id) == x
  }

  lemma RefusedMeans(d: Directory, n: Naming, w: World.World, removable: set<string>)
    requires Injective(n) && ShowsCreds(d, n, w) && Recognises(d, n, w, removable)
    ensures Uninstall.Refused(w, World.CredentialRoot) <==> !(d.names.Keys <= removable)
  {
    if !(d.names.Keys <= removable) {
      var x :| x in d.names && x !in removable;
      if id :| n.cred(id) == x {
        assert ShowsCred(d, n, w, id);
        assert id in w.creds * w.drifted;
      } else {
        assert Intruder(d, n, removable, x);
      }
    } else {
      forall id ensures id !in PurgeRules.Spoilt(w) {
        assert ShowsCred(d, n, w, id);
      }
    }
  }

  /** The credentials still there. */
  ghost function Kept(d: Directory, n: Naming, w: World.World): set<string> {
    set id | id in w.creds && n.cred(id) in d.names
  }

  /** Some entries unlinked, nothing synced: the credentials that are left, and no other image but theirs. */
  lemma ThinShows(a: Directory, b: Directory, n: Naming, w: World.World, removable: set<string>)
    requires ShowsCreds(a, n, w) && Valid(b) && Thinned(a, b, removable)
    ensures ShowsCreds(b, n, Uninstall.ThinRoot(w, World.CredentialRoot, Kept(b, n, w)))
  {
    var v := Uninstall.ThinRoot(w, World.CredentialRoot, Kept(b, n, w));
    forall id: string ensures ShowsCred(b, n, v, id) {
      assert ShowsCred(a, n, w, id);
      if n.cred(id) in b.names { UntouchedCred(a, b, n, w, id); }
    }
    forall x: string ensures ShowsTemp(b, n, v, x) {
      assert ShowsTemp(a, n, w, x);
    }
  }

  lemma EmptyShows(d: Directory, n: Naming, w: World.World)
    requires Valid(d) && d.names == map[] && d.pending == map[]
    requires w.creds == {} && w.sureCreds == {} && w.maybeCreds == {}
    ensures ShowsCreds(d, n, w)
  {
    forall x, r | CrashGives(d, x, r) ensures r.None? {
      SyncedShows(d, x, r);
    }
  }

  ghost predicate Refused(w: World.World) {
    Uninstall.Refused(w, World.CredentialRoot)
  }

  /**
   * durableRemoveTree on the credential root does what the protocol takes it to do: it
   * refuses exactly an intruder or a spoilt credential, which then stays; some entries
   * unlinked, all of them, the directory too, or that for good; and what it does not
   * find it does not sync.
   */
  method RemoveTree(parent: Machine, name: string, m: Machine, n: Naming, removable: set<string>, ghost w: World.World)
    returns (ok: bool, ghost w': World.World, ghost kept: set<string>)
    requires parent != m && ShowsRoot(parent.d, name, w) && World.Bounds(w)
    requires Injective(n) && ShowsCreds(m.d, n, w) && Recognises(m.d, n, w, removable)
    modifies parent, m
    ensures ShowsRoot(parent.d, name, w') && ShowsCreds(m.d, n, w')
    ensures Uninstall.TreeOutcome(w, w', World.CredentialRoot, kept, ok)
    ensures parent.quiet && m.quiet && old(parent.alive) && old(m.alive) && World.CredentialRoot in w.roots ==>
              (ok <==> IsSingleComponent(name) && !Refused(w))
  {
    ghost var start, above := m.d, parent.d;
    RefusedMeans(start, n, w, removable);
    ok := DurableRemoveTree(parent, name, m, removable);
    kept := Kept(m.d, n, w);
    KeptSpoilt(start, m.d, n, w, removable);
    w' := AfterTree(m.d, n, w, parent.d != above, ok);
    AfterTreeShows(start, m.d, above, parent.d, n, name, w, removable, ok);
    AfterTreeAllowed(m.d, n, w, parent.d != above, ok);
  }

  /** What the removal leaves, told by what it left of the two directories. */
  ghost function AfterTree(d: Directory, n: Naming, w: World.World, reached: bool, ok: bool): World.World {
    if World.CredentialRoot !in w.roots then w
    else if reached then Uninstall.ClearRoot(w, World.CredentialRoot, ok)
    else if !Refused(w) && d.names == map[] && d.pending == map[] then Uninstall.EmptyRoot(w, World.CredentialRoot)
    else Uninstall.ThinRoot(w, World.CredentialRoot, Kept(d, n, w))
  }

  lemma AfterTreeShows(a: Directory, b: Directory, above: Directory, below: Directory, n: Naming, name: string,
                       w: World.World, removable: set<string>, ok: bool)
    requires ShowsRoot(above, name, w) && ShowsCreds(a, n, w)
    requires Valid(b) && Thinned(a, b, removable) && Valid(below) && Unnamed(above, below, name)
    requires below != above ==> b.names == map[] && b.pending == map[]
    requires below != above && ok ==> below.pending == map[]
    requires World.CredentialRoot !in w.roots ==> b == a && below == above
    ensures var w' := AfterTree(b, n, w, below != above, ok); ShowsRoot(below, name, w') && ShowsCreds(b, n, w')
  {
    if World.CredentialRoot in w.roots {
      if below != above {
        ClearedShows(b, n, w, ok);
        RootAfter(above, below, name, w, ok);
      } else if !Refused(w) && b.names == map[] && b.pending == map[] {
        EmptiedShows(b, above, n, name, w);
      } else {
        ThinShows(a, b, n, w, removable);
        SameRoot(above, name, w, Uninstall.ThinRoot(w, World.CredentialRoot, Kept(b, n, w)));
      }
    }
  }

  lemma SameRoot(p: Directory, name: string, w: World.World, w': World.World)
    requires ShowsRoot(p, name, w)
    requires w'.roots == w.roots && w'.sureRoots == w.sureRoots && w'.maybeRoots == w.maybeRoots
    ensures ShowsRoot(p, name, w')
  {
  }

  lemma EmptiedShows(d: Directory, p: Directory, n: Naming, name: string, w: World.World)
    requires Valid(d) && d.names == map[] && d.pending == map[] && ShowsRoot(p, name, w)
    ensures ShowsCreds(d, n, Uninstall.EmptyRoot(w, World.CredentialRoot))
    ensures ShowsRoot(p, name, Uninstall.EmptyRoot(w, World.CredentialRoot))
  {
    EmptyShows(d, n, Uninstall.EmptyRoot(w, World.CredentialRoot));
    SameRoot(p, name, w, Uninstall.EmptyRoot(w, World.CredentialRoot));
  }

  lemma ClearedShows(d: Directory, n: Naming, w: World.World, synced: bool)
    requires Valid(d) && d.names == map[] && d.pending == map[]
    ensures ShowsCreds(d, n, Uninstall.ClearRoot(w, World.CredentialRoot, synced))
  {
    EmptyShows(d, n, Uninstall.ClearRoot(w, World.CredentialRoot, synced));
  }

  lemma AfterTreeAllowed(d: Directory, n: Naming, w: World.World, reached: bool, ok: bool)
    requires PurgeRules.Spoilt(w) <= Kept(d, n, w)
    requires World.CredentialRoot in w.roots && (ok || reached) ==> !Refused(w)
    requires World.CredentialRoot in w.roots && ok ==> reached
    ensures Uninstall.TreeOutcome(w, AfterTree(d, n, w, reached, ok), World.CredentialRoot, Kept(d, n, w), ok)
  {
  }

  lemma KeptSpoilt(a: Directory, b: Directory, n: Naming, w: World.World, removable: set<string>)
    requires ShowsCreds(a, n, w) && Thinned(a, b, removable) && Recognises(a, n, w, removable)
    ensures PurgeRules.Spoilt(w) <= Kept(b, n, w)
  {
    forall id | id in PurgeRules.Spoilt(w) ensures id in Kept(b, n, w) {
      assert ShowsCred(a, n, w, id);
    }
  }

  lemma RootAfter(a: Directory, b: Directory, name: string, w: World.World, ok: bool)
    requires ShowsRoot(a, name, w) && Valid(b) && Unnamed(a, b, name) && b != a
    requires ok ==> b.pending == map[]
    ensures ShowsRoot(b, name, Uninstall.ClearRoot(w, World.CredentialRoot, ok))
  {
    forall r | ok && CrashGives(b, name, r) ensures r.None? {
      SyncedShows(b, name, r);
    }
  }

  // --- power loss ------------------------------------------------------------------------------------

  /** What a reader finds at f after a crash now, in one of the ways the crash may go. */
  ghost predicate UnitAfterCrash(d: Directory, n: Naming, image: map<World.File, World.UnitFile>, f: World.File) {
    exists r :: && CrashGives(d, n.unit(f), r)
                && (f in image <==> r.Some?)
                && (r.Some? ==> image[f] == n.read(r.value))
  }

  /** The same for a credential, and for the directory of all of them. */
  ghost predicate CredAfterCrash(d: Directory, n: Naming, creds: set<string>, id: string) {
    exists r :: CrashGives(d, n.cred(id), r) && (id in creds <==> r.Some?)
  }

  ghost predicate RootAfterCrash(p: Directory, name: string, root: bool) {
    exists r :: CrashGives(p, name, r) && (root <==> r.Some?)
  }

  /** Whatever a crash leaves in the three directories is an image the protocol's power loss allows for. */
  lemma CrashIsAPossibleImage(unitDir: Directory, credDir: Directory, parent: Directory, name: string, n: Naming,
                              w: World.World, image: map<World.File, World.UnitFile>, creds: set<string>, root: bool)
    requires ShowsUnits(unitDir, n, w) && ShowsCreds(credDir, n, w) && ShowsRoot(parent, name, w)
    requires forall f: World.File :: UnitAfterCrash(unitDir, n, image, f)
    requires RootAfterCrash(parent, name, root)
    requires if root then forall id :: CredAfterCrash(credDir, n, creds, id) else creds == {}
    ensures Runs.PossibleImage(w, image, creds, root)
    ensures forall x, r :: CrashGives(credDir, x, r) && r.Some? ==> x in w.temps || exists id :: n.cred(id) == x
  {
    forall x, r | CrashGives(credDir, x, r) && r.Some? ensures x in w.temps || exists id :: n.cred(id) == x {
      assert ShowsTemp(credDir, n, w, x);
    }
    forall f | f in w.sureUnits ensures f in image && image[f] == w.sureUnits[f] {
      assert ShowsUnit(unitDir, n, w, f) && UnitAfterCrash(unitDir, n, image, f);
    }
    forall f | f in image ensures f in w.maybeUnits {
      assert ShowsUnit(unitDir, n, w, f) && UnitAfterCrash(unitDir, n, image, f);
    }
    forall id | root ensures (id in creds ==> id in w.maybeCreds) && (id in w.sureCreds ==> id in creds) {
      assert ShowsCred(credDir, n, w, id) && CredAfterCrash(credDir, n, creds, id);
    }
  }
}
