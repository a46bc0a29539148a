/**
 * The authenticated uninstall purge (src/root/operations.cpp) and the package gate
 * that has to be satisfied by it (src/core/packagestate.cpp).
 */
module Uninstall {
  import opened Types
  import opened World
  import opened Host
  import opened Trigger
  import opened Operations
  import opened Pairing
  import opened Enumeration
  import opened PurgeRules
  import opened Disk

  predicate Owned(u: OwnedUnit, uid: nat) {
    u.state != Tampered && u.uid == uid
  }

  predicate Rechecked(w: World, u: OwnedUnit, uid: nat) {
    u.mountPoint == u.unitName && Agrees(u, Inspect(w, u.unitName, uid), uid)
  }

  ghost predicate AllOwned(units: seq<OwnedUnit>, uid: nat) {
    forall i :: 0 <= i < |units| ==> Owned(units[i], uid)
  }

  ghost predicate AllRechecked(w: World, units: seq<OwnedUnit>, uid: nat) {
    forall i :: 0 <= i < |units| ==> Rechecked(w, units[i], uid)
  }

  method CheckOwners(units: seq<OwnedUnit>, uid: nat) returns (ok: bool, names: seq<string>)
    ensures ok <==> AllOwned(units, uid)
    ensures ok ==> names == Names(units)
  {
    names := [];
    for i := 0 to |units|
      invariant |names| == i && forall j :: 0 <= j < i ==> names[j] == units[j].unitName && Owned(units[j], uid)
    {
      if !Owned(units[i], uid) { return false, names; }
      names := names + [units[i].unitName];
    }
    ok := true;
  }

  method CheckStrays(w: World) returns (ok: bool)
    ensures ok <==> NoStrays(w)
  {
    var rest := w.units.Keys;
    while rest != {}
      invariant rest <= w.units.Keys
      invariant forall f :: f in w.units && f !in rest ==> !Stray(w, f)
      decreases |rest|
    {
      var f :| f in rest;
      if Stray(w, f) { return false; }
      rest := rest - {f};
    }
    ok := true;
  }

  method CheckDefinitions(w: World, units: seq<OwnedUnit>, uid: nat) returns (ok: bool)
    ensures ok <==> AllRechecked(w, units, uid)
  {
    for i := 0 to |units|
      invariant forall j :: 0 <= j < i ==> Rechecked(w, units[j], uid)
    {
      if !Rechecked(w, units[i], uid) { return false; }
    }
    ok := true;
  }

  lemma ReportDecidesValidity(w: World, units: seq<OwnedUnit>, uid: nat)
    requires Reports(Managed(w.units), units)
    ensures UnitsValid(w, uid) <==> AllOwned(units, uid) && AllRechecked(w, units, uid)
  {
    var gs := Managed(w.units);
    forall i | 0 <= i < |units|
      ensures units[i].unitName in gs
      ensures UnitValid(w, units[i].unitName, uid) <==> Owned(units[i], uid) && Rechecked(w, units[i], uid)
    {
    }
    forall n | n in gs ensures exists i :: 0 <= i < |units| && units[i].unitName == n {
    }
  }

  ghost predicate NamesExactly(names: seq<string>, gs: map<string, Group>) {
    |names| == |gs| && forall n :: n in names <==> n in gs
  }

  /** All validation, before anything is stopped or deleted. */
  method Validate(w: World, uid: nat) returns (ok: bool, names: seq<string>)
    ensures ok <==> PurgeValid(w, uid)
    ensures ok ==> NamesExactly(names, Managed(w.units))
  {
    var units := EnumerateManagedUnits(w.units);
    ReportDecidesValidity(w, units, uid);
    ReportSize(Managed(w.units), units);
    ok, names := CheckOwners(units, uid);
    if ok { ok := CheckStrays(w); }
    if ok { ok := CheckDefinitions(w, units, uid); }
  }

  ghost predicate Fewer(a: map<string, nat>, b: map<string, nat>) {
    forall n :: n in b ==> n in a && a[n] == b[n]
  }

  ghost predicate FewerCovers(a: map<string, Cover>, b: map<string, Cover>) {
    forall n :: n in b ==> n in a && a[n] == b[n]
  }

  /** From a to b only the runtime moved: at these names by us and others, elsewhere not at all. */
  ghost predicate RuntimeMoved(a: World, b: World, names: set<string>) {
    && b == a.(live := b.live, covers := b.covers, nextId := b.nextId, foreign := b.foreign)
    && a.nextId <= b.nextId && Newcomers(a, b)
    && (forall n :: n in b.live ==>
          (n in a.live && a.live[n] == b.live[n]) || (n in names && b.live[n] >= a.nextId && b.live[n] in b.foreign))
    && (forall n :: n in b.covers ==>
          (n in a.covers && a.covers[n] == b.covers[n]) || (n in names && b.covers[n].id >= a.nextId))
    && (forall n :: n !in names ==> (n in a.live <==> n in b.live) && (n in a.covers <==> n in b.covers))
  }

  lemma MovedOnceMore(a: World, b: World, c: World, names: set<string>, n: string)
    requires RuntimeMoved(a, b, names) && Meddled(b, c, n) && n in names
    ensures RuntimeMoved(a, c, names)
    ensures forall m :: Since(a, b, m) && m != n ==> Since(a, c, m)
    ensures Since(a, b, n) || Since(b, c, n) ==> Since(a, c, n)
  {
    forall m | m != n
      ensures (m in b.live <==> m in c.live) && (m in b.live ==> b.live[m] == c.live[m])
      ensures (m in b.covers <==> m in c.covers) && (m in b.covers ==> b.covers[m] == c.covers[m])
    {
      assert m in b.live - {n} <==> m in c.live - {n};
      assert m in b.covers - {n} <==> m in c.covers - {n};
      if m in b.live { assert (b.live - {n})[m] == (c.live - {n})[m]; }
      if m in b.covers { assert (b.covers - {n})[m] == (c.covers - {n})[m]; }
    }
  }

  /** What a stop gate left alone does to the whole runtime: it takes away. */
  ghost predicate TakenAway(a: World, b: World) {
    && b == a.(live := b.live, covers := b.covers)
    && Fewer(a.live, b.live) && FewerCovers(a.covers, b.covers)
  }

  /** How far an undisturbed and faultless stop of the names has got. */
  ghost predicate StoppedSoFar(a: World, b: World, names: seq<string>) {
    && TakenAway(a, b)
    && (forall n :: n in names ==> n !in b.live && n !in b.covers)
    && (forall n :: n !in names ==> (n in a.live <==> n in b.live) && (n in a.covers <==> n in b.covers))
  }

  lemma StopReadyStays(a: World, b: World, names: seq<string>, n: string, what: string)
    requires StoppedSoFar(a, b, names)
    ensures StopReady(a, n, what) ==> StopReady(b, n, what)
    ensures n !in names && StopReady(b, n, what) ==> StopReady(a, n, what)
  {
  }

  lemma StoppedOneMore(a: World, b: World, c: World, names: seq<string>, n: string)
    requires StoppedSoFar(a, b, names) && c == b.(live := b.live - {n}, covers := b.covers - {n})
    ensures StoppedSoFar(a, c, names + [n])
  {
  }

  /** safeStop of the next name, seen from the start of the loop. */
  method StopNext(h: Host, n: string, what: string, ghost start: World, ghost names: set<string>)
    returns (ok: bool)
    requires Inv(start) && Inv(h.w) && RuntimeMoved(start, h.w, names) && n in names
    modifies h
    ensures Inv(h.w) && Lived(h) && RuntimeMoved(start, h.w, names)
    ensures forall x :: x in h.violations && x !in old(h.violations) ==>
              x in h.w.foreign && (x >= start.nextId || x in start.raced)
    ensures old(h.w).foreign <= h.w.foreign
    ensures forall m :: m != n && Since(start, old(h.w), m) ==> Since(start, h.w, m)
    ensures Since(start, old(h.w), n) || ok ==> Since(start, h.w, n)
    ensures ok ==> h.alive
    ensures h.Calm() ==> TakenAway(old(h.w), h.w)
    ensures h.Calm() && ok ==> n !in h.w.live && n !in h.w.covers
    ensures h.quiet && old(h.alive) ==> (ok <==> StopReady(old(h.w), n, what))
    ensures h.quiet && old(h.alive) && ok ==>
              h.w == old(h.w).(live := old(h.w).live - {n}, covers := old(h.w).covers - {n})
  {
    ghost var before := h.w;
    var stop, _ := SafeStop(h, n, what);
    ok := StopProven(stop);
    MovedOnceMore(start, before, h.w, names, n);
    if h.Calm() && ok {
      GoneAlready(before.live, h.w.live, n);
      CoverGoneAlready(before.covers, h.w.covers, n);
    }
  }

  lemma GoneAlready(a: map<string, nat>, b: map<string, nat>, n: string)
    requires b in {a, a - {n}} && n !in b
    ensures b == a - {n}
  {
  }

  lemma CoverGoneAlready(a: map<string, Cover>, b: map<string, Cover>, n: string)
    requires b in {a, a - {n}} && n !in b
    ensures b == a - {n}
  {
  }

  /** Where the loop over the stop gates stands. */
  ghost predicate Stopping(h: Host, start: World, names: set<string>, done: seq<string>)
    reads h
  {
    && Inv(start) && Inv(h.w) && RuntimeMoved(start, h.w, names)
    && (done == [] || h.alive)
    && (forall n :: n in done ==> Since(start, h.w, n))
    && (h.Calm() ==> TakenAway(start, h.w) && forall n :: n in done ==> n !in h.w.live && n !in h.w.covers)
  }

  ghost predicate AllReady(w: World, names: seq<string>, uid: nat) {
    forall n :: n in names ==> StopReady(w, n, Inspect(w, n, uid).what)
  }

  /** One turn of it. */
  method StopTurn(h: Host, n: string, uid: nat, ghost start: World, ghost names: set<string>, ghost done: seq<string>)
    returns (ok: bool)
    requires Stopping(h, start, names, done) && n in names
    modifies h
    ensures Stopping(h, start, names, if ok then done + [n] else []) && Lived(h) && old(h.w).foreign <= h.w.foreign
    ensures forall x :: x in h.violations && x !in old(h.violations) ==>
              x in h.w.foreign && (x >= start.nextId || x in start.raced)
    ensures h.quiet && old(h.alive) && StoppedSoFar(start, old(h.w), done) && AllReady(start, done, uid) ==>
              (ok <==> AllReady(start, done + [n], uid)) && (ok ==> StoppedSoFar(start, h.w, done + [n]))
  {
    ghost var mid := h.w;
    var what := Inspect(h.w, n, uid).what;
    ok := StopNext(h, n, what, start, names);
    SinceStays(start, mid, h.w, n, done, ok);
    if h.Calm() { TakenAwayTrans(start, mid, h.w, done); }
    if h.quiet && old(h.alive) && StoppedSoFar(start, mid, done) && AllReady(start, done, uid) {
      SameInspection(start, mid, n, uid);
      QuietTurn(start, mid, h.w, done, n, uid, ok);
    }
  }

  lemma SinceStays(start: World, mid: World, end: World, n: string, done: seq<string>, ok: bool)
    requires forall m :: m in done ==> Since(start, mid, m)
    requires forall m :: m != n && Since(start, mid, m) ==> Since(start, end, m)
    requires Since(start, mid, n) || ok ==> Since(start, end, n)
    ensures forall m :: m in (if ok then done + [n] else []) ==> Since(start, end, m)
  {
    forall m | m in done ensures Since(start, end, m) {
      assert Since(start, mid, m);
    }
  }

  lemma TakenAwayTrans(a: World, b: World, c: World, done: seq<string>)
    requires TakenAway(a, b) && TakenAway(b, c)
    requires forall n :: n in done ==> n !in b.live && n !in b.covers
    ensures TakenAway(a, c)
    ensures forall n :: n in done ==> n !in c.live && n !in c.covers
  {
  }

  lemma QuietTurn(start: World, mid: World, end: World, done: seq<string>, n: string, uid: nat, ok: bool)
    requires StoppedSoFar(start, mid, done) && AllReady(start, done, uid)
    requires ok <==> StopReady(mid, n, Inspect(start, n, uid).what)
    requires ok ==> end == mid.(live := mid.live - {n}, covers := mid.covers - {n})
    ensures ok <==> AllReady(start, done + [n], uid)
    ensures ok ==> StoppedSoFar(start, end, done + [n])
  {
    StopReadyStays(start, mid, done, n, Inspect(start, n, uid).what);
    if ok { StoppedOneMore(start, mid, end, done, n); }
    forall m | ok && m in done + [n] ensures StopReady(start, m, Inspect(start, m, uid).what) {
    }
    assert n in done + [n];
  }

  /** Every stop gate, still before the first deletion. */
  method StopAll(h: Host, names: seq<string>, uid: nat) returns (ok: bool)
    requires Inv(h.w)
    modifies h
    ensures Inv(h.w) && Lived(h) && RuntimeMoved(old(h.w), h.w, SetOf(names)) && OnlyHits(h, old(h.w).raced)
    ensures ok ==> (names == [] || h.alive) && forall n :: n in names ==> Since(old(h.w), h.w, n)
    ensures h.Calm() ==> TakenAway(old(h.w), h.w)
    ensures h.Calm() && ok ==> forall n :: n in names ==> n !in h.w.live && n !in h.w.covers
    ensures h.quiet && old(h.alive) ==> (ok <==> AllReady(old(h.w), names, uid))
  {
    ok := true;
    ghost var start := h.w;
    for i := 0 to |names|
      invariant Stopping(h, start, SetOf(names), names[..i]) && Lived(h) && OnlyHits(h, start.raced)
      invariant h.quiet && old(h.alive) ==> StoppedSoFar(start, h.w, names[..i]) && AllReady(start, names[..i], uid)
    {
      assert names[..i + 1] == names[..i] + [names[i]];
      ok := StopTurn(h, names[i], uid, start, SetOf(names), names[..i]);
      if !ok { return; }
    }
    assert names[..|names|] == names;
  }

  /** No power-loss image contains a unit file that is not there, or lacks one that is. */
  ghost predicate Synced(w: World) {
    w.sureUnits == w.units && w.maybeUnits == w.units.Keys
  }

  /** Deleting the definitions in `gone` only ever takes things away, and only theirs. */
  ghost predicate Shrunk(a: World, b: World, gone: set<string>) {
    && b == a.(units := b.units, sureUnits := b.sureUnits, maybeUnits := b.maybeUnits,
               creds := b.creds, sureCreds := b.sureCreds, maybeCreds := b.maybeCreds, records := b.records,
               roots := b.roots, sureRoots := b.sureRoots, maybeRoots := b.maybeRoots)
    && Submap(b.units, a.units)
    && (forall f :: f in a.units && f.name !in gone ==> f in b.units)
    && Fewer(a.records, b.records)
    && b.creds <= a.creds && b.maybeCreds <= a.maybeCreds && b.maybeUnits <= a.maybeUnits
    && RootsGrow(a, b)
  }

  predicate HasHalf(w: World, n: string) {
    File(n, MountHalf) in w.units || File(n, AutomountHalf) in w.units
  }

  /** purge's order for one share: units, then the record, then the credential. */
  method DeleteOne(h: Host, n: string, id: string) returns (ok: bool)
    requires Inv(h.w) && (h.alive ==> Loose(h.w, n)) && CarriesOnly(h.w.units, n, id)
    modifies h
    ensures Inv(h.w) && h.Ran() && Shrunk(old(h.w), h.w, {n})
    ensures KeepsSeen(old(h.w), h.w, if ok then {} else {id}) && KeepsSeenDurably(old(h.w), h.w, {id})
    ensures old(h.w).creds - {id} <= h.w.creds && (ok ==> id !in h.w.creds && CredentialRoot in h.w.roots)
    ensures ok ==> if old(HasHalf(h.w, n)) then Synced(h.w)
                   else h.w.units == old(h.w).units && h.w.sureUnits == old(h.w).sureUnits
                        && h.w.maybeUnits == old(h.w).maybeUnits
    ensures ok ==> h.alive && n !in h.w.records && forall f :: f in h.w.units ==> f.name != n
    ensures h.quiet && old(h.alive) ==> ok
  {
    ghost var start := h.w;
    ok := RemoveBoth(h, n, id);
    ghost var mid := h.w;
    if ok {
      ok := DropTraces(h, n, id);
      HalvesGone(start, h.w, n);
    }
    DeletedSeen(start, mid, h.w, n, id);
    ShrunkInTwo(start, mid, h.w, n);
  }

  lemma HalvesGone(a: World, b: World, n: string)
    requires b.units == a.units - {File(n, MountHalf), File(n, AutomountHalf)}
    ensures forall f :: f in b.units ==> f.name != n
  {
    forall f | f in b.units ensures f.name != n {
      match f { case File(_, MountHalf) => case File(_, AutomountHalf) => }
    }
  }

  /** The record, then the credential. */
  method DropTraces(h: Host, n: string, id: string) returns (ok: bool)
    requires Inv(h.w)
    modifies h
    ensures Inv(h.w) && h.Ran() && TracesDropped(old(h.w), h.w, id)
    ensures ok ==> h.alive && id !in h.w.creds && CredentialRoot in h.w.roots && n !in h.w.records
    ensures h.quiet && old(h.alive) ==> ok
  {
    ghost var start := h.w;
    ok := DropRecordOf(h, n);
    ghost var mid := h.w;
    if ok {
      ok := DropCredential(h, id);
      GrowTrans(start, mid, h.w);
    }
  }

  ghost predicate TracesDropped(a: World, b: World, id: string) {
    && b == a.(creds := b.creds, sureCreds := b.sureCreds, maybeCreds := b.maybeCreds, records := b.records,
               roots := b.roots, sureRoots := b.sureRoots, maybeRoots := b.maybeRoots)
    && Fewer(a.records, b.records) && RootsGrow(a, b)
    && b.creds in {a.creds, a.creds - {id}} && b.maybeCreds <= a.maybeCreds && a.sureCreds - {id} <= b.sureCreds
  }

  lemma ShrunkInTwo(a: World, mid: World, b: World, n: string)
    requires mid == a.(units := mid.units, sureUnits := mid.sureUnits, maybeUnits := mid.maybeUnits)
    requires Submap(mid.units, a.units) && mid.maybeUnits <= a.maybeUnits
    requires forall f :: f in a.units && f.name != n ==> f in mid.units
    requires b == mid || exists id :: TracesDropped(mid, b, id)
    ensures Shrunk(a, b, {n})
  {
  }

  /** Dropping one definition and its credential hides at most that credential. */
  lemma DeletedSeen(a: World, mid: World, b: World, n: string, id: string)
    requires Bounds(a) && CarriesOnly(a.units, n, id) && OnlyDefinition(a, mid, n, id)
    requires b.units == mid.units && b.sureUnits == mid.sureUnits && b.maybeUnits == mid.maybeUnits
    requires b.creds - {id} == mid.creds - {id} && b.maybeCreds <= mid.maybeCreds && mid.sureCreds - {id} <= b.sureCreds
    ensures KeepsSeen(a, b, {id}) && KeepsSeenDurably(a, b, {id})
    ensures id !in b.creds ==> KeepsSeen(a, b, {})
  {
    SecretOnly(mid, b, n, id);
    OnlyDefinitionTrans(a, mid, b, n, id);
    StaysVisible(a, b, n, id);
    StaysDurablyVisible(a, b, n, id);
  }

  method DropCredential(h: Host, id: string) returns (ok: bool)
    requires Inv(h.w)
    modifies h
    ensures Inv(h.w) && h.Ran() && SecretFrame(old(h.w), h.w)
    ensures h.w.drifted == old(h.w).drifted && h.w.temps == old(h.w).temps
    ensures h.w.creds in {old(h.w).creds, old(h.w).creds - {id}} && h.w.maybeCreds <= old(h.w).maybeCreds
    ensures old(h.w).sureCreds - {id} <= h.w.sureCreds
    ensures ok ==> h.alive && id !in h.w.creds && CredentialRoot in h.w.roots
    ensures h.quiet && old(h.alive) ==> ok
  {
    ghost var before := h.w;
    DropCredKeeps(h.w, id, true);
    DropCredKeeps(h.w, id, false);
    ok := h.RemoveCred(id);
    if Opened(before, h.w, CredentialRoot) { OpenedKeeps(before, h.w, CredentialRoot); }
    assert id !in before.creds ==> before.creds - {id} == before.creds;
  }

  lemma ShrunkTrans(a: World, b: World, c: World, s: set<string>, t: set<string>)
    requires Shrunk(a, b, s) && Shrunk(b, c, t)
    ensures Shrunk(a, c, s + t)
  {
    forall f | f in a.units && f.name !in s + t ensures f in c.units {
      assert f in b.units;
    }
  }

  function SetOf(names: seq<string>): (s: set<string>)
    ensures forall n :: n in s <==> n in names
  {
    set n | n in names
  }

  /** The definitions and the credentials their deletions will name, in step. */
  ghost predicate InStep(w: World, names: seq<string>, ids: seq<string>) {
    |ids| == |names| && forall i :: 0 <= i < |names| ==> CarriesOnly(w.units, names[i], ids[i])
  }

  /** What the deletions so far did to what is visible and to what is installed. */
  ghost predicate SeenSoFar(a: World, b: World, done: set<string>) {
    && KeepsSeen(a, b, {}) && KeepsSeenDurably(a, b, done)
    && a.creds - done <= b.creds && b.creds !! done
  }

  lemma SeenOneMore(a: World, b: World, c: World, done: set<string>, id: string, ok: bool)
    requires SeenSoFar(a, b, done) && c.creds <= b.creds && c.maybeCreds <= b.maybeCreds
    requires KeepsSeen(b, c, if ok then {} else {id}) && KeepsSeenDurably(b, c, {id})
    requires b.creds - {id} <= c.creds && (ok ==> id !in c.creds)
    ensures ok ==> SeenSoFar(a, c, done + {id})
    ensures KeepsSeen(a, c, {id}) && KeepsSeenDurably(a, c, done + {id})
    ensures a.creds - (done + {id}) <= c.creds
  {
  }

  /** Where the loop over the deletions stands. */
  ghost predicate Deleting(start: World, w: World, names: seq<string>, ids: seq<string>, i: nat)
    requires i <= |names| == |ids|
  {
    && Shrunk(start, w, SetOf(names[..i])) && SeenSoFar(start, w, SetOf(ids[..i]))
    && (if i == 0 then w == start else Synced(w) && CredentialRoot in w.roots)
    && (forall f :: f in w.units ==> f.name !in names[..i])
    && (forall n :: n in names[..i] ==> n !in w.records)
  }

  /** One turn of it. */
  method DeleteNext(h: Host, names: seq<string>, ids: seq<string>, i: nat, ghost start: World) returns (ok: bool)
    requires Inv(h.w) && InStep(start, names, ids) && i < |names| && Deleting(start, h.w, names, ids, i)
    requires h.alive ==> forall n :: n in names ==> Loose(h.w, n)
    requires HasHalf(start, names[0])
    modifies h
    ensures Inv(h.w) && h.Ran() && (h.alive ==> forall n :: n in names ==> Loose(h.w, n))
    ensures ok ==> h.alive && Deleting(start, h.w, names, ids, i + 1)
    ensures Shrunk(start, h.w, SetOf(names)) && KeepsSeen(start, h.w, {ids[i]})
    ensures KeepsSeenDurably(start, h.w, SetOf(ids[..i + 1]))
    ensures h.quiet && old(h.alive) ==> ok
  {
    ghost var mid := h.w;
    StillPaired(start, mid, names, ids);
    ok := DeleteOne(h, names[i], ids[i]);
    SeenOneMore(start, mid, h.w, SetOf(ids[..i]), ids[i], ok);
    ShrunkTrans(start, mid, h.w, SetOf(names[..i]), {names[i]});
    StaysLoose(mid, h.w, names[i]);
    OneFurther(names, i);
    OneFurther(ids, i);
    ShrunkMono(start, h.w, SetOf(names[..i + 1]), SetOf(names));
  }

  /**
   * Deletes every validated share in turn, each with the id its own files carried. Cut
   * short, it hides at most the credential it was about to delete.
   */
  method DeleteAll(h: Host, names: seq<string>, ids: seq<string>)
    returns (ok: bool, removedShares: nat, ghost hidden: set<string>)
    requires Inv(h.w) && InStep(h.w, names, ids) && (h.alive ==> forall n :: n in names ==> Loose(h.w, n))
    requires names != [] ==> HasHalf(h.w, names[0])
    modifies h
    ensures Inv(h.w) && h.Ran() && Shrunk(old(h.w), h.w, SetOf(names))
    ensures hidden <= SetOf(ids) && |hidden| <= 1 && KeepsSeen(old(h.w), h.w, hidden)
    ensures KeepsSeenDurably(old(h.w), h.w, SetOf(ids))
    ensures ok ==> removedShares == |names| && (names == [] || h.alive)
    ensures ok ==> hidden == {} && h.w.creds == old(h.w).creds - SetOf(ids)
    ensures ok ==> forall f :: f in h.w.units ==> f.name !in names
    ensures ok ==> forall n :: n in names ==> n !in h.w.records
    ensures ok ==> if names == [] then h.w == old(h.w) else Synced(h.w) && CredentialRoot in h.w.roots
    ensures h.quiet && old(h.alive) ==> ok
  {
    ok, removedShares, hidden := true, 0, {};
    ghost var start := h.w;
    for i := 0 to |names|
      invariant Inv(h.w) && h.Ran() && Deleting(start, h.w, names, ids, i)
      invariant removedShares == i && (i == 0 || h.alive)
      invariant h.alive ==> forall n :: n in names ==> Loose(h.w, n)
    {
      ok := DeleteNext(h, names, ids, i, start);
      if !ok {
        hidden := {ids[i]};
        DeletedSome(start, h.w, ids, i);
        return;
      }
      removedShares := removedShares + 1;
    }
    DeletedAll(start, h.w, names, ids);
  }

  lemma DeletedSome(start: World, w: World, ids: seq<string>, i: nat)
    requires i < |ids| && KeepsSeenDurably(start, w, SetOf(ids[..i + 1]))
    ensures {ids[i]} <= SetOf(ids) && KeepsSeenDurably(start, w, SetOf(ids))
  {
    OneFurther(ids, i);
  }

  lemma DeletedAll(start: World, w: World, names: seq<string>, ids: seq<string>)
    requires |names| == |ids| && Deleting(start, w, names, ids, |names|)
    ensures Shrunk(start, w, SetOf(names)) && KeepsSeen(start, w, {}) && KeepsSeenDurably(start, w, SetOf(ids))
    ensures w.creds == start.creds - SetOf(ids)
    ensures (forall f :: f in w.units ==> f.name !in names) && (forall n :: n in names ==> n !in w.records)
    ensures if names == [] then w == start else Synced(w) && CredentialRoot in w.roots
  {
    assert names[..|names|] == names && ids[..|ids|] == ids;
  }

  lemma OneFurther(s: seq<string>, i: nat)
    requires i < |s|
    ensures s[..i + 1] == s[..i] + [s[i]]
    ensures SetOf(s[..i + 1]) == SetOf(s[..i]) + {s[i]} && SetOf(s[..i + 1]) <= SetOf(s)
  {
  }

  lemma StillPaired(a: World, b: World, names: seq<string>, ids: seq<string>)
    requires InStep(a, names, ids) && Submap(b.units, a.units)
    ensures InStep(b, names, ids)
  {
  }

  lemma StaysLoose(a: World, b: World, n: string)
    requires Shrunk(a, b, {n})
    ensures forall m :: Loose(a, m) ==> Loose(b, m)
  {
  }

  lemma ShrunkMono(a: World, b: World, s: set<string>, t: set<string>)
    requires Shrunk(a, b, s) && s <= t
    ensures Shrunk(a, b, t)
  {
  }

  // --- the private roots -----------------------------------------------------------

  /** All entries of a root unlinked and its directory synced; the directory still there. */
  function EmptyRoot(w: World, r: Root): World {
    match r
    case CredentialRoot => w.(creds := {}, sureCreds := {}, maybeCreds := {}, temps := {})
    case RecordRoot => w.(records := map[])
    case LockRoot => w
  }

  /** The empty directory removed; `synced` when its parent was. */
  function ClearRoot(w: World, r: Root, synced: bool): World {
    EmptyRoot(w, r).(roots := w.roots - {r}, sureRoots := w.sureRoots - {r},
                     maybeRoots := if synced then w.maybeRoots - {r} else w.maybeRoots)
  }

  /** Some entries of a root unlinked, nothing synced. */
  function ThinRoot(w: World, r: Root, kept: set<string>): World {
    match r
    case CredentialRoot => w.(creds := w.creds * kept, sureCreds := w.sureCreds * kept)
    case RecordRoot => w.(records := map n | n in w.records && n in kept :: w.records[n])
    case LockRoot => w
  }

  /** An entry that may not be deleted stands in the way. */
  predicate Refused(w: World, r: Root) {
    r in w.intruders || (r == CredentialRoot && Spoilt(w) != {})
  }

  /** From a to b only the contents of private roots went, and roots themselves. */
  ghost predicate RootsShrunk(a: World, b: World) {
    && b == a.(creds := b.creds, sureCreds := b.sureCreds, maybeCreds := b.maybeCreds, temps := b.temps,
               records := b.records, roots := b.roots, sureRoots := b.sureRoots, maybeRoots := b.maybeRoots)
    && b.creds <= a.creds && b.maybeCreds <= a.maybeCreds && b.temps <= a.temps && Fewer(a.records, b.records)
    && b.roots <= a.roots && b.maybeRoots <= a.maybeRoots
  }

  lemma EmptyKeeps(w: World, r: Root)
    requires Inv(w)
    ensures Inv(EmptyRoot(w, r)) && RootsShrunk(w, EmptyRoot(w, r))
  {
    var v := EmptyRoot(w, r);
    assert Ids(v);
    assert forall n :: Loose(w, n) ==> Loose(v, n);
  }

  lemma ClearKeeps(w: World, r: Root, synced: bool)
    requires Inv(w) && r !in w.intruders
    ensures Inv(ClearRoot(w, r, synced)) && RootsShrunk(w, ClearRoot(w, r, synced))
  {
    EmptyKeeps(w, r);
    var v := ClearRoot(w, r, synced);
    assert Ids(v);
    assert forall n :: Loose(w, n) ==> Loose(v, n);
  }

  lemma ThinKeeps(w: World, r: Root, kept: set<string>)
    requires Inv(w)
    ensures Inv(ThinRoot(w, r, kept)) && RootsShrunk(w, ThinRoot(w, r, kept))
  {
    var v := ThinRoot(w, r, kept);
    assert Ids(v);
    assert forall n :: Loose(w, n) ==> Loose(v, n);
  }

  /** Some entries unlinked, `kept` being left; all of them, durably, only if none was refused. */
  ghost predicate Unfinished(w: World, w': World, r: Root, kept: set<string>) {
    w' == ThinRoot(w, r, kept) || (!Refused(w, r) && w' == EmptyRoot(w, r))
  }

  /** The directory itself removed, its parent synced or not. */
  ghost predicate Cleared(w: World, w': World, r: Root) {
    w' == ClearRoot(w, r, true) || w' == ClearRoot(w, r, false)
  }

  /** What the removal of a private root may do. A refused entry survives, and a missing root is not synced. */
  ghost predicate TreeOutcome(w: World, w': World, r: Root, kept: set<string>, ok: bool) {
    && Spoilt(w) <= kept
    && (w' == w || (r in w.roots && (Unfinished(w, w', r, kept) || (!Refused(w, r) && Cleared(w, w', r)))))
    && (ok ==> w' == if r in w.roots then ClearRoot(w, r, true) else w)
    && (ok && r in w.roots ==> !Refused(w, r))
  }

  lemma NothingRefused(w: World, r: Root)
    requires Bounds(w) && r !in w.roots
    ensures !Refused(w, r)
  {
  }

  /**
   * durableRemoveTree on one private root: it refuses as soon as it meets an entry it does
   * not recognise, a credential with a wrong owner or mode included; a root that is not
   * there is removed without a sync.
   */
  method RemoveTree(h: Host, r: Root) returns (ok: bool, ghost kept: set<string>)
    requires Inv(h.w)
    modifies h
    ensures Inv(h.w) && h.Ran() && RootsShrunk(old(h.w), h.w) && TreeOutcome(old(h.w), h.w, r, kept, ok)
    ensures ok ==> h.alive
    ensures h.quiet && old(h.alive) ==> (ok <==> !Refused(old(h.w), r))
  {
    var left: set<string> := *;
    left := left + h.w.drifted;
    kept := left;
    ThinKeeps(h.w, r, left);
    EmptyKeeps(h.w, r);
    if r !in h.w.roots {
      NothingRefused(h.w, r);
      ok := h.Fallible();
    } else if Refused(h.w, r) {
      var _ := h.Attempt(ThinRoot(h.w, r, left), h.w);
      ok := false;
    } else {
      ClearKeeps(h.w, r, true);
      ClearKeeps(h.w, r, false);
      var before := h.w;
      ok := h.Attempt(EmptyRoot(before, r), ThinRoot(before, r, left));
      if ok {
        ok := h.Attempt(ClearRoot(before, r, true), ClearRoot(before, r, false));
      }
    }
  }

  method OpenAndRemoveTree(h: Host, r: Root) returns (ok: bool)
    requires Inv(h.w)
    modifies h
    ensures Inv(h.w) && h.Ran() && RootsShrunk(old(h.w), h.w)
    ensures ok ==> h.alive && !Refused(old(h.w), r)
                   && h.w == if r in old(h.w).roots then ClearRoot(old(h.w), r, true) else old(h.w)
    ensures h.quiet && old(h.alive) ==> (ok <==> !Refused(old(h.w), r))
  {
    ok := h.Fallible();
    if ok {
      if r !in h.w.roots { NothingRefused(h.w, r); }
      ghost var kept;
      ok, kept := RemoveTree(h, r);
    }
  }

  /** The private roots go last: credentials, recorded ids, then the lock's own directory. */
  method RemoveRoots(h: Host) returns (ok: bool)
    requires Inv(h.w)
    modifies h
    ensures Inv(h.w) && h.Ran() && RootsShrunk(old(h.w), h.w)
    ensures ok ==> h.alive && h.w.roots == {}
    ensures ok ==> (CredentialRoot in h.w.maybeRoots <==>
                      CredentialRoot in old(h.w).maybeRoots && CredentialRoot !in old(h.w).roots)
    ensures h.quiet && old(h.alive) ==> (ok <==> h.w.intruders == {} && Spoilt(old(h.w)) == {})
  {
    ok := OpenAndRemoveTree(h, CredentialRoot);
    if ok { ok := OpenAndRemoveTree(h, RecordRoot); }
    if ok { ok := OpenAndRemoveTree(h, LockRoot); }
    forall r | ok ensures r !in h.w.roots && r !in h.w.intruders {
      match r { case CredentialRoot => case RecordRoot => case LockRoot => }
    }
  }

  ghost predicate DiskUntouched(a: World, b: World) {
    b == a.(live := b.live, covers := b.covers, nextId := b.nextId, foreign := b.foreign)
  }

  /** What ran at these names in a does not run in b. */
  ghost predicate AllStopped(a: World, b: World, names: set<string>) {
    forall n :: n in names ==> Since(a, b, n)
  }

  /** From a to b the disk lost managed definitions and roots; whatever else is on it stayed. */
  ghost predicate DiskShrunk(a: World, b: World) {
    && b == a.(units := b.units, sureUnits := b.sureUnits, maybeUnits := b.maybeUnits,
               creds := b.creds, sureCreds := b.sureCreds, maybeCreds := b.maybeCreds, temps := b.temps,
               records := b.records, roots := b.roots, sureRoots := b.sureRoots, maybeRoots := b.maybeRoots)
    && Submap(b.units, a.units) && b.maybeUnits <= a.maybeUnits && b.temps <= a.temps
    && b.creds <= a.creds && b.maybeCreds <= a.maybeCreds
    && (forall f :: f in a.units && f.name !in Managed(a.units) ==> f in b.units)
    && Fewer(a.records, b.records)
  }

  /** purge took only what validation had covered, after nothing ran any more that had run. */
  ghost predicate PurgeFrame(a: World, b: World, uid: nat) {
    exists mid :: && RuntimeMoved(a, mid, Managed(a.units).Keys) && DiskShrunk(mid, b)
                  && (b == mid || (PurgeValid(a, uid) && AllStopped(a, mid, Managed(a.units).Keys)))
  }

  /** The same for a purge nobody interfered with. */
  ghost predicate CalmFrame(a: World, b: World) {
    && Fewer(a.live, b.live) && FewerCovers(a.covers, b.covers) && b.foreign == a.foreign && b.nextId == a.nextId
    && (DiskUntouched(a, b) || forall n :: n in Managed(a.units) ==> n !in b.live && n !in b.covers)
  }

  /** Nothing of nasmount is left that a later scan could read. */
  ghost predicate Purged(w: World) {
    && w.roots == {} && w.creds == {} && w.maybeCreds == {} && w.temps == {} && w.records == map[]
    && forall f :: f in w.units && w.units[f].readable ==> !HasMarker(w.units[f])
  }

  lemma NoMarkersLeft(a: World, b: World, uid: nat)
    requires PurgeValid(a, uid) && Submap(b.units, a.units)
    requires forall f :: f in b.units ==> f.name !in Managed(a.units)
    ensures forall f :: f in b.units && b.units[f].readable ==> !HasMarker(b.units[f])
  {
    forall f | f in b.units && b.units[f].readable ensures !HasMarker(b.units[f]) {
      assert !Stray(a, f);
    }
  }

  // --- why an interrupted purge can be finished ------------------------------------------

  lemma FrameShrinks(a: World, b: World, uid: nat)
    requires PurgeFrame(a, b, uid)
    ensures Submap(b.units, a.units) && b.dropIns == a.dropIns && b.intruders == a.intruders
    ensures Spoilt(b) <= Spoilt(a)
  {
  }

  /**
   * Whatever happened meanwhile, what an interrupted purge leaves is purgeable iff its
   * triggers can be stopped and every spoilt credential is still named by a definition.
   */
  lemma PurgeableAgain(a: World, b: World, uid: nat)
    requires Purgeable(a, uid) && PurgeFrame(a, b, uid)
    ensures Purgeable(b, uid) <==> StopsReady(b, uid) && Spoilt(b) <= NamedCreds(b, uid)
  {
    FrameShrinks(a, b, uid);
    ValidShrinks(a, b, uid);
  }

  /** Left alone, all that runs on record and no credential spoilt, every interrupted purge can be finished. */
  lemma StaysFirm(a: World, b: World, uid: nat)
    requires Firm(a, uid) && PurgeFrame(a, b, uid) && CalmFrame(a, b)
    ensures Firm(b, uid)
  {
    FrameShrinks(a, b, uid);
    ValidShrinks(a, b, uid);
    forall n | n in Managed(b.units)
      ensures StopReady(b, n, Inspect(b, n, uid).what) && (n in b.live ==> Recorded(b, n))
    {
      StaysReadyAt(a, b, n, uid);
    }
  }

  lemma StaysReadyAt(a: World, b: World, n: string, uid: nat)
    requires CalmFrame(a, b) && n in Managed(a.units) && StopReady(a, n, Inspect(a, n, uid).what)
    requires n in a.live ==> Recorded(a, n)
    ensures StopReady(b, n, Inspect(b, n, uid).what) && (n in b.live ==> Recorded(b, n))
  {
    if DiskUntouched(a, b) { SameInspection(a, b, n, uid); }
  }

  lemma SameInspection(a: World, b: World, n: string, uid: nat)
    requires b.units == a.units && b.dropIns == a.dropIns
    ensures Inspect(b, n, uid) == Inspect(a, n, uid)
  {
  }

  /** Cut off right after the mount of n was stopped. */
  lemma UnmountedIsAFrame(a: World, n: string, uid: nat)
    requires Inv(a) && n in Managed(a.units)
    ensures PurgeFrame(a, Unmounted(a, n), uid) && CalmFrame(a, Unmounted(a, n))
  {
    var b := Unmounted(a, n);
    assert RuntimeMoved(a, b, Managed(a.units).Keys) && DiskShrunk(b, b);
  }

  /** Everything of the managed names stopped and unmounted, nothing deleted. */
  function AllHalted(a: World): World {
    a.(live := map n | n in a.live && n !in Managed(a.units) :: a.live[n],
       covers := map n | n in a.covers && n !in Managed(a.units) :: a.covers[n])
  }

  /** Cut off right after the two halves of n were unlinked. */
  function CutAt(a: World, n: string): World {
    var w := AllHalted(a);
    DropUnit(DropUnit(w, File(n, MountHalf), true), File(n, AutomountHalf), true)
  }

  lemma CutIsAFrame(a: World, n: string, uid: nat)
    requires Inv(a) && PurgeValid(a, uid) && n in Managed(a.units)
    ensures PurgeFrame(a, CutAt(a, n), uid) && CalmFrame(a, CutAt(a, n))
  {
    var mid, b := AllHalted(a), CutAt(a, n);
    assert RuntimeMoved(a, mid, Managed(a.units).Keys);
    assert AllStopped(a, mid, Managed(a.units).Keys);
    CutShrinks(mid, n);
  }

  lemma CutShrinks(w: World, n: string)
    requires Bounds(w) && n in Managed(w.units)
    ensures DiskShrunk(w, DropUnit(DropUnit(w, File(n, MountHalf), true), File(n, AutomountHalf), true))
  {
    var b := DropUnit(DropUnit(w, File(n, MountHalf), true), File(n, AutomountHalf), true);
    assert b.units == w.units - {File(n, MountHalf)} - {File(n, AutomountHalf)};
  }

  /** What is left no longer names the credential of n. */
  lemma CutOrphans(a: World, n: string, uid: nat, id: string)
    requires Inv(a) && PurgeValid(a, uid) && NamesCred(a, n, uid, id)
    ensures id !in NamedCreds(CutAt(a, n), uid)
  {
    var b := CutAt(a, n);
    forall m ensures !NamesCred(b, m, uid, id) {
      if NamesCred(b, m, uid, id) {
        SlotOfSubmap(b.units, a.units, m);
        if m != n {
          SameAway(a, b, m, n, uid);
          NamedOnce(a, m, n, uid, id);
        }
        assert false;
      }
    }
  }

  lemma SameAway(a: World, b: World, m: string, n: string, uid: nat)
    requires m != n && b == CutAt(a, n)
    ensures Inspect(b, m, uid) == Inspect(a, m, uid)
  {
    assert forall half :: File(m, half) in b.units <==> File(m, half) in a.units;
  }

  /**
   * That condition is exact. A purgeable host on which some managed trigger runs off the
   * record, mounted over by its own share, or on which some credential is spoilt, can be
   * left in a state no retry gets past.
   */
  lemma FirmExactlyWhenEveryRetryWorks(a: World, uid: nat)
    requires Inv(a) && Purgeable(a, uid)
    ensures Firm(a, uid) <==> forall b :: PurgeFrame(a, b, uid) && CalmFrame(a, b) ==> Purgeable(b, uid)
  {
    if Firm(a, uid) {
      forall b | PurgeFrame(a, b, uid) && CalmFrame(a, b) ensures Purgeable(b, uid) {
        StaysFirm(a, b, uid);
      }
    } else if Spoilt(a) != {} {
      SpoiltBlocks(a, uid);
    } else {
      OffRecordBlocks(a, uid);
    }
  }

  ghost predicate SomeRetryFails(a: World, uid: nat) {
    exists b :: PurgeFrame(a, b, uid) && CalmFrame(a, b) && !Purgeable(b, uid)
  }

  lemma OffRecordBlocks(a: World, uid: nat)
    requires Inv(a) && exists n :: n in Managed(a.units) && n in a.live && !Recorded(a, n)
    ensures SomeRetryFails(a, uid)
  {
    var n :| n in Managed(a.units) && n in a.live && !Recorded(a, n);
    var b := Unmounted(a, n);
    UnmountedIsAFrame(a, n, uid);
    assert n in Managed(b.units) && !StopReady(b, n, Inspect(b, n, uid).what);
  }

  lemma SpoiltBlocks(a: World, uid: nat)
    requires Inv(a) && Purgeable(a, uid) && Spoilt(a) != {}
    ensures SomeRetryFails(a, uid)
  {
    var id :| id in Spoilt(a);
    assert id in NamedCreds(a, uid);
    var n :| NamesCred(a, n, uid, id);
    CutIsAFrame(a, n, uid);
    CutOrphans(a, n, uid, id);
    assert id in Spoilt(CutAt(a, n));
  }

  // --- purge -------------------------------------------------------------------------------

  /** A purge, cut short or not, hides at most one credential, one that a validated definition named. */
  ghost predicate HidesAtMostOne(a: World, b: World, uid: nat) {
    && (exists hidden: set<string> :: hidden <= NamedCreds(a, uid) && |hidden| <= 1 && KeepsSeen(a, b, hidden))
    && KeepsSeenDurably(a, b, NamedCreds(a, uid))
  }

  /** What a finished purge leaves for a power loss to bring back. */
  ghost predicate Leftovers(a: World, b: World) {
    && (if Managed(a.units) == map[] then b.units == a.units && b.maybeUnits == a.maybeUnits else Synced(b))
    && (CredentialRoot in b.maybeRoots <==>
          Managed(a.units) == map[] && CredentialRoot in a.maybeRoots && CredentialRoot !in a.roots)
  }

  /**
   * purge. Nothing is deleted before everything is validated and stopped. Success leaves
   * nothing behind; for a power loss it leaves no unit exactly when it found something to
   * delete or nothing older was still unsynced, and no directory likewise.
   */
  method Purge(h: Host, uid: nat) returns (ok: bool, removedShares: nat)
    requires Inv(h.w)
    modifies h
    ensures Inv(h.w) && Lived(h) && OnlyHits(h, old(h.w).raced)
    ensures PurgeFrame(old(h.w), h.w, uid) && (h.Calm() ==> CalmFrame(old(h.w), h.w))
    ensures HidesAtMostOne(old(h.w), h.w, uid)
    ensures ok ==> h.alive && Purged(h.w) && removedShares == |Managed(old(h.w).units)|
    ensures ok ==> Leftovers(old(h.w), h.w)
    ensures h.quiet && old(h.alive) ==> (ok <==> Purgeable(old(h.w), uid))
  {
    var valid, names := Validate(h.w, uid);
    if !valid {
      Untouched(h.w, uid);
      return false, 0;
    }
    EmptyOrNot(h.w, names);
    ok, removedShares := StopThenDelete(h, names, uid);
  }

  lemma EmptyOrNot(w: World, names: seq<string>)
    requires forall n :: n in names <==> n in Managed(w.units)
    ensures Managed(w.units) == map[] <==> names == []
  {
    assert names != [] ==> names[0] in Managed(w.units);
  }

  lemma Untouched(w: World, uid: nat)
    ensures PurgeFrame(w, w, uid) && CalmFrame(w, w) && HidesAtMostOne(w, w, uid)
  {
    assert RuntimeMoved(w, w, Managed(w.units).Keys) && DiskShrunk(w, w);
    NothingHidden(w, w, uid);
  }

  lemma ManagedHasHalf(w: World, n: string)
    requires n in Managed(w.units)
    ensures HasHalf(w, n)
  {
  }

  lemma NothingHidden(a: World, b: World, uid: nat)
    requires b.units == a.units && b.sureUnits == a.sureUnits && b.creds == a.creds && b.maybeCreds == a.maybeCreds
    ensures HidesAtMostOne(a, b, uid)
  {
    var none: set<string> := {};
    assert KeepsSeen(a, b, none) && |none| == 0;
  }

  /** Everything after validation. */
  method StopThenDelete(h: Host, names: seq<string>, uid: nat) returns (ok: bool, removedShares: nat)
    requires Inv(h.w) && PurgeValid(h.w, uid)
    requires forall n :: n in names <==> n in Managed(h.w.units)
    modifies h
    ensures Inv(h.w) && Lived(h) && OnlyHits(h, old(h.w).raced)
    ensures PurgeFrame(old(h.w), h.w, uid) && (h.Calm() ==> CalmFrame(old(h.w), h.w))
    ensures HidesAtMostOne(old(h.w), h.w, uid)
    ensures ok ==> h.alive && Purged(h.w) && removedShares == |names| && Leftovers(old(h.w), h.w)
    ensures h.quiet && old(h.alive) ==>
              (ok <==> && StopsReady(old(h.w), uid) && old(h.w).intruders == {}
                       && Spoilt(old(h.w)) <= NamedCreds(old(h.w), uid))
  {
    ghost var start := h.w;
    removedShares := 0;
    ok := StopValidated(h, names, uid);
    ghost var mid := h.w;
    SameNamed(start, mid, uid);
    if ok {
      ok, removedShares := DeleteAndClear(h, names, uid);
      HidesSince(start, mid, h.w, uid);
    } else {
      NothingHidden(start, mid, uid);
    }
    FrameOf(start, mid, h.w, uid);
  }

  lemma SameNamed(a: World, b: World, uid: nat)
    requires b.units == a.units && b.dropIns == a.dropIns
    ensures NamedCreds(b, uid) == NamedCreds(a, uid)
  {
    forall id ensures id in NamedCreds(a, uid) <==> id in NamedCreds(b, uid) {
      forall n ensures NamesCred(a, n, uid, id) <==> NamesCred(b, n, uid, id) {
        SameInspection(a, b, n, uid);
      }
    }
  }

  lemma HidesSince(a: World, mid: World, b: World, uid: nat)
    requires mid.units == a.units && mid.sureUnits == a.sureUnits && mid.creds == a.creds
    requires mid.maybeCreds == a.maybeCreds && NamedCreds(mid, uid) == NamedCreds(a, uid)
    requires HidesAtMostOne(mid, b, uid)
    ensures HidesAtMostOne(a, b, uid)
  {
    var hidden: set<string> :| hidden <= NamedCreds(mid, uid) && |hidden| <= 1 && KeepsSeen(mid, b, hidden);
    assert KeepsSeen(a, b, hidden);
  }

  /** The stop gates of a validated host. */
  method StopValidated(h: Host, names: seq<string>, uid: nat) returns (ok: bool)
    requires Inv(h.w) && PurgeValid(h.w, uid)
    requires forall n :: n in names <==> n in Managed(h.w.units)
    modifies h
    ensures Inv(h.w) && Lived(h) && RuntimeMoved(old(h.w), h.w, Managed(old(h.w).units).Keys) && PurgeValid(h.w, uid)
    ensures OnlyHits(h, old(h.w).raced)
    ensures ok ==> AllStopped(old(h.w), h.w, Managed(old(h.w).units).Keys)
    ensures ok ==> (names == [] || h.alive) && forall n :: n in names ==> Loose(h.w, n)
    ensures h.Calm() ==> TakenAway(old(h.w), h.w)
    ensures h.Calm() && ok ==> forall n :: n in Managed(h.w.units) ==> n !in h.w.live && n !in h.w.covers
    ensures h.quiet && old(h.alive) ==> (ok <==> StopsReady(old(h.w), uid))
  {
    ghost var start := h.w;
    ok := StopAll(h, names, uid);
    assert SetOf(names) == Managed(start.units).Keys;
    if ok { StoppedAreLoose(start, h.w, names); }
    ValidShrinks(start, h.w, uid);
  }

  lemma StoppedAreLoose(a: World, b: World, names: seq<string>)
    requires Inv(a) && RuntimeMoved(a, b, SetOf(names)) && Ids(b)
    requires forall n :: n in names ==> Since(a, b, n)
    ensures forall n :: n in names ==> Loose(b, n)
  {
    forall n | n in names ensures Loose(b, n) {
      assert Since(a, b, n);
    }
  }

  lemma FrameOf(a: World, mid: World, b: World, uid: nat)
    requires RuntimeMoved(a, mid, Managed(a.units).Keys) && (b == mid || DiskShrunk(mid, b))
    requires b == mid || (PurgeValid(a, uid) && AllStopped(a, mid, Managed(a.units).Keys))
    ensures PurgeFrame(a, b, uid)
    ensures TakenAway(a, mid)
            && (b == mid || forall n :: n in Managed(a.units) ==> n !in mid.live && n !in mid.covers) ==>
              CalmFrame(a, b)
  {
  }

  /** The id each validated definition's own files carry. */
  function IdsOf(w: World, names: seq<string>, uid: nat): (ids: seq<string>)
    ensures |ids| == |names|
  {
    seq(|names|, i requires 0 <= i < |names| =>
      var def := Inspect(w, names[i], uid); if def.marker.Some? then def.marker.value.id else "")
  }

  lemma IdsInStep(w: World, names: seq<string>, uid: nat)
    requires PurgeValid(w, uid) && forall n :: n in names <==> n in Managed(w.units)
    ensures InStep(w, names, IdsOf(w, names, uid)) && SetOf(IdsOf(w, names, uid)) == NamedCreds(w, uid)
  {
    var ids := IdsOf(w, names, uid);
    forall i | 0 <= i < |names| ensures CarriesOnly(w.units, names[i], ids[i]) && NamesCred(w, names[i], uid, ids[i]) {
      assert names[i] in names && UnitValid(w, names[i], uid);
      InspectedCarriesOnly(w, names[i], uid);
    }
    forall id ensures id in SetOf(ids) <==> id in NamedCreds(w, uid) {
      if id in ids {
        var i :| 0 <= i < |ids| && ids[i] == id;
        assert NamesCred(w, names[i], uid, id);
      }
      if id in NamedCreds(w, uid) {
        var n :| NamesCred(w, n, uid, id);
        var i :| 0 <= i < |names| && names[i] == n;
        assert ids[i] == id;
      }
    }
  }

  lemma RootsSeen(a: World, b: World, c: World, hidden: set<string>, named: set<string>)
    requires KeepsSeen(a, b, hidden) && KeepsSeenDurably(a, b, named) && RootsShrunk(b, c)
    ensures KeepsSeen(a, c, hidden) && KeepsSeenDurably(a, c, named)
  {
  }

  /** The destructive half: definitions, reload, private roots. */
  method DeleteAndClear(h: Host, names: seq<string>, uid: nat) returns (ok: bool, removedShares: nat)
    requires Inv(h.w) && PurgeValid(h.w, uid)
    requires forall n :: n in names <==> n in Managed(h.w.units)
    requires h.alive ==> forall n :: n in names ==> Loose(h.w, n)
    modifies h
    ensures Inv(h.w) && h.Ran() && DiskShrunk(old(h.w), h.w) && HidesAtMostOne(old(h.w), h.w, uid)
    ensures ok ==> h.alive && Purged(h.w) && removedShares == |names| && Leftovers(old(h.w), h.w)
    ensures h.quiet && old(h.alive) ==>
              (ok <==> h.w.intruders == {} && Spoilt(old(h.w)) <= NamedCreds(old(h.w), uid))
  {
    removedShares := 0;
    NothingHidden(h.w, h.w, uid);
    ok := h.Fallible();
    if !ok { return; }
    ghost var start := h.w;
    IdsInStep(h.w, names, uid);
    EmptyOrNot(h.w, names);
    if names != [] { ManagedHasHalf(h.w, names[0]); }
    ghost var hidden;
    ok, removedShares, hidden := DeleteAll(h, names, IdsOf(h.w, names, uid));
    ghost var mid := h.w;
    if ok {
      NoMarkersLeft(start, h.w, uid);
      ok := h.Fallible();
    }
    if ok { ok := RemoveRoots(h); }
    ShrunkThenRoots(start, mid, h.w, names, uid, hidden);
  }

  lemma ShrunkThenRoots(a: World, mid: World, b: World, names: seq<string>, uid: nat, hidden: set<string>)
    requires Shrunk(a, mid, SetOf(names)) && (b == mid || RootsShrunk(mid, b))
    requires mid.temps <= a.temps && forall n :: n in names <==> n in Managed(a.units)
    requires hidden <= NamedCreds(a, uid) && |hidden| <= 1 && KeepsSeen(a, mid, hidden)
    requires KeepsSeenDurably(a, mid, NamedCreds(a, uid))
    ensures DiskShrunk(a, b) && HidesAtMostOne(a, b, uid)
  {
    if b != mid { RootsSeen(a, mid, b, hidden, NamedCreds(a, uid)); }
  }

  /**
   * A purge, however it was interrupted, and a retry without faults on exactly what it
   * left. The retry succeeds exactly when the triggers left over can be stopped and no
   * spoilt credential was orphaned; that is certain when nobody interfered, everything
   * that ran was on record, and no credential was spoilt.
   */
  method PurgeAndFinish(w: World, uid: nat, alone: bool)
    returns (interrupted: World, ok: bool, finished: World, removedShares: nat)
    requires Inv(w) && Purgeable(w, uid)
    ensures PurgeFrame(w, interrupted, uid)
    ensures ok <==> StopsReady(interrupted, uid) && Spoilt(interrupted) <= NamedCreds(interrupted, uid)
    ensures alone && Firm(w, uid) ==> ok
    ensures ok ==> Purged(finished) && PurgeFrame(interrupted, finished, uid)
  {
    var first := new Host(w, false, alone);
    var _, _ := Purge(first, uid);
    interrupted := first.w;
    PurgeableAgain(w, interrupted, uid);
    if alone && Firm(w, uid) { StaysFirm(w, interrupted, uid); }
    var second := new Host(interrupted, true, true);
    ok, removedShares := Purge(second, uid);
    finished := second.w;
  }
}
