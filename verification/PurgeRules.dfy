/**
 * What purge insists on before it deletes anything (src/root/operations.cpp), and
 * what an interrupted purge needs in order to be finished.
 */
module PurgeRules {
  import opened Types
  import opened World
  import opened Pairing

  /** The re-check of one enumerated unit against its own files. */
  predicate Agrees(u: OwnedUnit, def: DefinitionCheck, uid: nat) {
    && def.state in {Pair, Partial}
    && def.marker.Some?
    && def.marker.value.id == u.id
    && def.marker.value.uid == uid
    && def.marker.value.gid == u.gid
    && def.marker.value.authentication == u.authentication
  }

  predicate UnitValid(w: World, n: string, uid: nat)
    requires n in Managed(w.units)
  {
    var u := Paired(Managed(w.units), n);
    u.state != Tampered && u.uid == uid && u.mountPoint == n && Agrees(u, Inspect(w, n, uid), uid)
  }

  /** No readable file carries a marker that enumeration did not account for. */
  predicate Stray(w: World, f: File)
    requires f in w.units
  {
    w.units[f].readable && HasMarker(w.units[f]) && !(w.units[f].text.Marked? && f.name in Managed(w.units))
  }

  ghost predicate UnitsValid(w: World, uid: nat) {
    forall n :: n in Managed(w.units) ==> UnitValid(w, n, uid)
  }

  ghost predicate NoStrays(w: World) {
    forall f :: f in w.units ==> !Stray(w, f)
  }

  ghost predicate PurgeValid(w: World, uid: nat) {
    UnitsValid(w, uid) && NoStrays(w)
  }

  /** Every managed definition can be stopped: a mount over it shows its own share, a bare trigger is on record. */
  ghost predicate StopsReady(w: World, uid: nat) {
    forall n :: n in Managed(w.units) ==> StopReady(w, n, Inspect(w, n, uid).what)
  }

  /** The credential that the deletion of n will name. */
  predicate NamesCred(w: World, n: string, uid: nat, id: string) {
    n in Managed(w.units) && Inspect(w, n, uid).marker.Some? && Inspect(w, n, uid).marker.value.id == id
  }

  /** The credentials that the deletions of all validated definitions will name. */
  ghost function NamedCreds(w: World, uid: nat): (ids: set<string>)
    ensures forall id :: id in ids <==> exists n :: NamesCred(w, n, uid, id)
  {
    var all := set n | n in Managed(w.units) && Inspect(w, n, uid).marker.Some? :: Inspect(w, n, uid).marker.value.id;
    assert forall id :: id in all <==> exists n :: NamesCred(w, n, uid, id) by {
      forall id ensures id in all <==> exists n :: NamesCred(w, n, uid, id) {
        if id in all {
          var n :| n in Managed(w.units) && Inspect(w, n, uid).marker.Some? && Inspect(w, n, uid).marker.value.id == id;
          assert NamesCred(w, n, uid, id);
        }
      }
    }
    all
  }

  /** The installed credentials that the removal of their directory would refuse. */
  function Spoilt(w: World): set<string> {
    w.creds * w.drifted
  }

  /** Nothing but a fault, or other people meanwhile, can make purge refuse. */
  ghost predicate Purgeable(w: World, uid: nat) {
    PurgeValid(w, uid) && StopsReady(w, uid) && w.intruders == {} && Spoilt(w) <= NamedCreds(w, uid)
  }

  /**
   * And that stays so however far a purge gets: what runs is on record, mounted over or
   * not, and no credential depends on being deleted by its id.
   */
  ghost predicate Firm(w: World, uid: nat) {
    && Purgeable(w, uid) && Spoilt(w) == {}
    && forall n :: n in Managed(w.units) && n in w.live ==> Recorded(w, n)
  }

  /** No two validated definitions name the same credential. */
  lemma NamedOnce(w: World, m: string, n: string, uid: nat, id: string)
    requires PurgeValid(w, uid) && NamesCred(w, m, uid, id) && NamesCred(w, n, uid, id)
    ensures m == n
  {
    var gs := Managed(w.units);
    assert UnitValid(w, m, uid) && UnitValid(w, n, uid);
    SoundWhenValid(w, m, uid);
    SoundWhenValid(w, n, uid);
    var u, v := FirstPass(m, gs[m]), FirstPass(n, gs[n]);
    assert u.id == id == v.id && Clash(u, v);
  }

  lemma SlotOfSubmap(v: map<File, UnitFile>, u: map<File, UnitFile>, n: string)
    requires Submap(v, u)
    ensures n in Managed(v) ==> n in Managed(u)
    ensures forall half :: ScanOf(v, File(n, half)).Some? ==> ScanOf(v, File(n, half)) == ScanOf(u, File(n, half))
  {
  }

  /** A sound definition keeps its identity when one of its files goes. */
  lemma FirstPassOfSubmap(v: map<File, UnitFile>, u: map<File, UnitFile>, n: string)
    requires Submap(v, u) && n in Managed(v) && n in Managed(u)
    requires FirstPass(n, Managed(u)[n]).state != Tampered
    ensures var a, b := FirstPass(n, Managed(v)[n]), FirstPass(n, Managed(u)[n]);
            a == b.(state := a.state, what := a.what) && a.state in {Pair, Partial}
  {
    SlotOfSubmap(v, u, n);
  }

  lemma SoundWhenValid(w: World, n: string, uid: nat)
    requires PurgeValid(w, uid) && n in Managed(w.units)
    ensures FirstPass(n, Managed(w.units)[n]).state != Tampered && !Collides(Managed(w.units), n)
  {
    assert UnitValid(w, n, uid);
  }

  lemma PairedOfSubmap(w: World, v: World, n: string, uid: nat)
    requires PurgeValid(w, uid) && Submap(v.units, w.units) && n in Managed(v.units)
    ensures n in Managed(w.units)
    ensures var a, b := Paired(Managed(v.units), n), Paired(Managed(w.units), n);
            a == b.(state := a.state, what := a.what) && a.state != Tampered
  {
    var gs, hs := Managed(v.units), Managed(w.units);
    SlotOfSubmap(v.units, w.units, n);
    SoundWhenValid(w, n, uid);
    FirstPassOfSubmap(v.units, w.units, n);
    forall other | other in gs && other != n ensures !Clash(FirstPass(n, gs[n]), FirstPass(other, gs[other])) {
      SlotOfSubmap(v.units, w.units, other);
      SoundWhenValid(w, other, uid);
      FirstPassOfSubmap(v.units, w.units, other);
      assert !Clash(FirstPass(n, hs[n]), FirstPass(other, hs[other]));
    }
  }

  lemma InspectOfSubmap(w: World, v: World, n: string, uid: nat)
    requires Submap(v.units, w.units) && v.dropIns == w.dropIns
    requires n in Managed(v.units) && Inspect(w, n, uid).state in {Pair, Partial}
    ensures Inspect(v, n, uid).state in {Pair, Partial}
    ensures Inspect(v, n, uid).marker == Inspect(w, n, uid).marker
  {
    var mf, af := File(n, MountHalf), File(n, AutomountHalf);
    assert ScanOf(v.units, mf).Some? || ScanOf(v.units, af).Some?;
    assert SideOf(v.units, mf, uid) in {NotPresent, SideOf(w.units, mf, uid)};
    assert SideOf(v.units, af, uid) in {NotPresent, SideOf(w.units, af, uid)};
  }

  /** Losing files never makes a purgeable host invalid: every retry passes validation again. */
  lemma ValidShrinks(w: World, v: World, uid: nat)
    requires PurgeValid(w, uid) && Submap(v.units, w.units) && v.dropIns == w.dropIns
    ensures PurgeValid(v, uid)
    ensures Managed(v.units).Keys <= Managed(w.units).Keys
  {
    forall n | n in Managed(v.units) ensures n in Managed(w.units) && UnitValid(v, n, uid) {
      PairedOfSubmap(w, v, n, uid);
      assert UnitValid(w, n, uid);
      InspectOfSubmap(w, v, n, uid);
    }
    forall f | f in v.units ensures !Stray(v, f) {
      assert !Stray(w, f);
      if v.units[f].readable && v.units[f].text.Marked? {
        MarkedIsManaged(w, v, f, uid);
      }
    }
  }

  lemma MarkedIsManaged(w: World, v: World, f: File, uid: nat)
    requires PurgeValid(w, uid) && Submap(v.units, w.units) && f in v.units
    requires v.units[f].readable && v.units[f].text.Marked?
    ensures f.name in Managed(v.units)
  {
    assert !Stray(w, f);
    assert f.name in Managed(w.units) && UnitValid(w, f.name, uid);
    SoundWhenValid(w, f.name, uid);
    assert !Unsafe(w, File(f.name, MountHalf)) && !Unsafe(w, File(f.name, AutomountHalf));
    match f { case File(_, MountHalf) => case File(_, AutomountHalf) => }
    assert ScanOf(v.units, f).Some?;
  }
}
