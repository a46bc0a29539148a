/**
 * What an operation on one definition may do to the disk, and why that keeps
 * every other secret visible. One frame covers define, its cleanup and remove.
 */
module Disk {
  import opened Types
  import opened World

  /** From a to b only the files of n and the credential id were touched. */
  ghost predicate OnlyDefinition(a: World, b: World, n: string, id: string) {
    && (forall f: File :: f.name != n ==> (f in a.units <==> f in b.units))
    && (forall f: File :: f.name != n && f in a.units && f in b.units ==> a.units[f] == b.units[f])
    && (forall f: File :: f.name != n && f in a.sureUnits ==> f in b.sureUnits && a.sureUnits[f] == b.sureUnits[f])
    && (forall f: File :: f.name != n && f in b.maybeUnits ==> f in a.maybeUnits)
    && a.creds - {id} == b.creds - {id}
    && b.maybeCreds - {id} <= a.maybeCreds - {id} && a.sureCreds - {id} <= b.sureCreds
  }

  lemma OnlyDefinitionTrans(a: World, b: World, c: World, n: string, id: string)
    requires OnlyDefinition(a, b, n, id) && OnlyDefinition(b, c, n, id)
    ensures OnlyDefinition(a, c, n, id)
  {
  }

  lemma DropUnitKeeps(w: World, f: File, synced: bool, id: string)
    requires Inv(w) && Loose(w, f.name)
    ensures Inv(DropUnit(w, f, synced)) && OnlyDefinition(w, DropUnit(w, f, synced), f.name, id)
  {
    var b := DropUnit(w, f, synced);
    forall m | !Loose(b, m) ensures BothHalves(b.units, m) {
      assert !Loose(w, m) && m != f.name;
    }
  }

  lemma PutUnitKeeps(w: World, f: File, u: UnitFile, synced: bool, id: string)
    requires Inv(w)
    ensures Inv(PutUnit(w, f, u, synced)) && OnlyDefinition(w, PutUnit(w, f, u, synced), f.name, id)
  {
    var b := PutUnit(w, f, u, synced);
    forall m | !Loose(b, m) ensures BothHalves(b.units, m) {
      assert !Loose(w, m);
    }
  }

  lemma SecretOnly(a: World, b: World, n: string, id: string)
    requires a.units == b.units && a.sureUnits == b.sureUnits && a.maybeUnits == b.maybeUnits
    requires a.creds - {id} == b.creds - {id} && b.maybeCreds - {id} <= a.maybeCreds
    requires a.sureCreds - {id} <= b.sureCreds
    ensures OnlyDefinition(a, b, n, id)
  {
  }

  /** The unit files lead to this credential: now, and in every power-loss image. */
  ghost predicate LeadNow(w: World, id: string) {
    id in w.creds ==> Carried(w.units, id)
  }

  ghost predicate LeadDurably(w: World, id: string) {
    id in w.maybeCreds ==> Carried(w.sureUnits, id)
  }

  /** No unsynced unlink of this credential is outstanding. */
  predicate Clean(w: World, id: string) {
    id in w.maybeCreds ==> id in w.creds
  }

  /** The files of n carry no other credential than id. */
  ghost predicate CarriesOnly(units: map<File, UnitFile>, n: string, id: string) {
    forall f, x :: f in units && f.name == n && Carries(units[f], x) ==> x == id
  }

  lemma CarriedOutside(units: map<File, UnitFile>, n: string, id: string, x: string)
    requires CarriesOnly(units, n, id) && Carried(units, x) && x != id
    ensures CarriedElsewhere(units, n, x)
  {
    var f :| f in units && Carries(units[f], x);
    assert f.name != n;
  }

  /** Touching n and id only hides no other secret, and not id itself where the files lead to it. */
  lemma StaysVisible(a: World, b: World, n: string, id: string)
    requires OnlyDefinition(a, b, n, id) && CarriesOnly(a.units, n, id)
    ensures KeepsSeen(a, b, {id})
    ensures LeadNow(b, id) ==> KeepsSeen(a, b, {}) && (Visible(a) ==> Visible(b))
  {
    forall x | x in b.creds && x != id && (x in a.creds ==> Carried(a.units, x)) ensures Carried(b.units, x) {
      assert x in b.creds - {id};
      CarriedOutside(a.units, n, id, x);
      var f :| f in a.units && f.name != n && Carries(a.units[f], x);
      assert f in b.units && b.units[f] == a.units[f];
    }
    if LeadNow(b, id) {
      assert KeepsSeen(a, b, {});
      KeepsVisible(a, b);
    }
  }

  /** The same after a power loss; but for id itself, unless the files lead to it or nothing durable ever did. */
  lemma StaysDurablyVisible(a: World, b: World, n: string, id: string)
    requires Bounds(a) && OnlyDefinition(a, b, n, id) && CarriesOnly(a.units, n, id)
    ensures KeepsSeenDurably(a, b, {id})
    ensures LeadDurably(b, id) || !LeadDurably(a, id) ==>
              KeepsSeenDurably(a, b, {}) && (DurablyVisible(a) ==> DurablyVisible(b))
  {
    forall x | x in b.maybeCreds && x != id && (x in a.maybeCreds ==> Carried(a.sureUnits, x))
      ensures Carried(b.sureUnits, x)
    {
      assert x in b.maybeCreds - {id};
      assert CarriesOnly(a.sureUnits, n, id);
      CarriedOutside(a.sureUnits, n, id, x);
      var f :| f in a.sureUnits && f.name != n && Carries(a.sureUnits[f], x);
      assert f in b.sureUnits && b.sureUnits[f] == a.sureUnits[f];
    }
    if LeadDurably(b, id) || !LeadDurably(a, id) {
      assert KeepsSeenDurably(a, b, {});
      KeepsVisible(a, b);
    }
  }

  /** What a recognised definition's files carry is exactly its own id. */
  lemma InspectedCarriesOnly(w: World, n: string, uid: nat)
    requires Inspect(w, n, uid).state in {Pair, Partial}
    ensures Inspect(w, n, uid).marker.Some?
    ensures CarriesOnly(w.units, n, Inspect(w, n, uid).marker.value.id)
  {
    var id := Inspect(w, n, uid).marker.value.id;
    forall f, x | f in w.units && f.name == n && Carries(w.units[f], x) ensures x == id {
      assert f == File(n, MountHalf) || f == File(n, AutomountHalf);
      assert SideOf(w.units, f, uid).Valid?;
    }
  }

  lemma UndefinedCarriesOnly(w: World, n: string, uid: nat, id: string)
    requires Inspect(w, n, uid).state == Undefined
    ensures forall f :: f in w.units ==> f.name != n
    ensures CarriesOnly(w.units, n, id)
  {
    assert SideOf(w.units, File(n, MountHalf), uid) == NotPresent;
    assert SideOf(w.units, File(n, AutomountHalf), uid) == NotPresent;
    forall f | f in w.units ensures f.name != n {
      match f { case File(_, MountHalf) => case File(_, AutomountHalf) => }
    }
  }
}
