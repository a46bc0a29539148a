/** The read-only package-removal gate (src/core/packagestate.cpp). */
module PackageState {
  import opened World
  import opened Uninstall

  datatype Classification = Empty | ManagedState | UnsafeState | Indeterminate

  const MAX_UNIT_BYTES := 1024 * 1024

  predicate Examinable(u: UnitFile) {
    u.regular && u.readable && u.size <= MAX_UNIT_BYTES
  }

  /** Every candidate can be read and none is malformed. */
  ghost predicate Sound(w: World) {
    forall f :: f in w.units ==> Examinable(w.units[f]) && !w.units[f].text.BadMarker?
  }

  ghost predicate HoldsState(w: World) {
    w.roots != {} || exists f :: f in w.units && HasMarker(w.units[f])
  }

  /** Candidates first, every one of them, so that a malformed sibling is never hidden by a valid share. */
  method ClassifyHost(w: World) returns (c: Classification)
    ensures c == Empty <==> Sound(w) && !HoldsState(w)
    ensures c == ManagedState <==> Sound(w) && HoldsState(w)
    ensures c == Indeterminate ==> exists f :: f in w.units && !w.units[f].readable
    ensures c == UnsafeState ==>
              exists f :: f in w.units && (w.units[f].text.BadMarker? || !Examinable(w.units[f]))
  {
    var managedUnitFound := false;
    var rest := w.units.Keys;
    while rest != {}
      invariant rest <= w.units.Keys
      invariant forall f :: f in w.units && f !in rest ==>
                  Examinable(w.units[f]) && !w.units[f].text.BadMarker?
      invariant managedUnitFound <==> exists f :: f in w.units && f !in rest && HasMarker(w.units[f])
      decreases |rest|
    {
      var f :| f in rest;
      var u := w.units[f];
      if !u.regular { return UnsafeState; }
      if !u.readable { return Indeterminate; }
      if u.size > MAX_UNIT_BYTES { return UnsafeState; }
      if u.text.BadMarker? { return UnsafeState; }
      managedUnitFound := managedUnitFound || HasMarker(u);
      rest := rest - {f};
    }
    if w.roots != {} { return ManagedState; }
    c := if managedUnitFound then ManagedState else Empty;
  }

  /** A finished purge satisfies the gate as soon as the remaining candidates can be examined at all. */
  lemma PurgedIsEmpty(w: World)
    requires Purged(w) && forall f :: f in w.units ==> Examinable(w.units[f])
    ensures Sound(w) && !HoldsState(w)
  {
    forall f | f in w.units ensures !HasMarker(w.units[f]) {
      assert Examinable(w.units[f]);
    }
  }
}
