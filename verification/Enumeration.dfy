/** Scanning the unit directory (scanManagedHalves, enumerateManagedUnits in src/core/verify.cpp). */
module Enumeration {
  import opened Types
  import opened World
  import opened Pairing

  function HalfOf(f: File, s: Scan): ScannedHalf {
    ScannedHalf(f.name, f.half == MountHalf, s)
  }

  function FileOf(h: ScannedHalf): File {
    File(h.baseName, if h.isMount then MountHalf else AutomountHalf)
  }

  /** The halves found in the files `done`, each once, in directory order. */
  ghost predicate ScanOfFiles(units: map<File, UnitFile>, done: set<File>, halves: seq<ScannedHalf>) {
    && NoRepeat(halves)
    && (forall h :: h in halves ==> FileOf(h) in done && ScanOf(units, FileOf(h)) == Some(h.scan))
    && (forall f :: f in done && ScanOf(units, f).Some? ==> HalfOf(f, ScanOf(units, f).value) in halves)
  }

  lemma ScanStep(units: map<File, UnitFile>, done: set<File>, halves: seq<ScannedHalf>, f: File)
    requires ScanOfFiles(units, done, halves) && f !in done && ScanOf(units, f).Some?
    ensures ScanOfFiles(units, done + {f}, halves + [HalfOf(f, ScanOf(units, f).value)])
  {
    var h := HalfOf(f, ScanOf(units, f).value);
    forall i | 0 <= i < |halves| ensures halves[i].baseName != h.baseName || halves[i].isMount != h.isMount {
      assert halves[i] in halves;
      assert FileOf(halves[i]) != f && FileOf(h) == f;
    }
  }

  lemma ScannedIsManaged(units: map<File, UnitFile>, halves: seq<ScannedHalf>, b: string)
    requires ScanOfFiles(units, units.Keys, halves)
    ensures b in Groups(halves) <==> b in Managed(units)
  {
    if b in Groups(halves) {
      var h :| h in halves && h.baseName == b;
      assert ScanOf(units, FileOf(h)).Some?;
      assert FileOf(h) == File(b, MountHalf) || FileOf(h) == File(b, AutomountHalf);
    }
    if b in Managed(units) {
      var f := if ScanOf(units, File(b, MountHalf)).Some? then File(b, MountHalf) else File(b, AutomountHalf);
      assert HalfOf(f, ScanOf(units, f).value) in halves;
    }
  }

  lemma GroupIsManaged(units: map<File, UnitFile>, halves: seq<ScannedHalf>, b: string)
    requires ScanOfFiles(units, units.Keys, halves) && b in Groups(halves)
    ensures Groups(halves)[b] == GroupOf(units, b)
  {
    var g := Groups(halves)[b];
    SlotIsScan(units, halves, b, MountHalf);
    SlotIsScan(units, halves, b, AutomountHalf);
    assert g == Group(Slot(g, true), Slot(g, false));
  }

  lemma ScanGroups(units: map<File, UnitFile>, halves: seq<ScannedHalf>)
    requires ScanOfFiles(units, units.Keys, halves)
    ensures Groups(halves) == Managed(units)
  {
    var gs, ms := Groups(halves), Managed(units);
    forall b ensures b in gs <==> b in ms {
      ScannedIsManaged(units, halves, b);
    }
    forall b | b in gs ensures gs[b] == ms[b] {
      GroupIsManaged(units, halves, b);
    }
  }

  lemma SlotIsScan(units: map<File, UnitFile>, halves: seq<ScannedHalf>, b: string, half: Half)
    requires ScanOfFiles(units, units.Keys, halves) && b in Groups(halves)
    ensures Slot(Groups(halves)[b], half == MountHalf) == ScanOf(units, File(b, half))
  {
    var f := File(b, half);
    var slot := Slot(Groups(halves)[b], half == MountHalf);
    if slot.Some? {
      SlotIsScanned(halves, b, half == MountHalf, slot.value);
      assert FileOf(ScannedHalf(b, half == MountHalf, slot.value)) == f;
    }
    if ScanOf(units, f).Some? {
      assert HalfOf(f, ScanOf(units, f).value) in halves;
      SlotIsScanned(halves, b, half == MountHalf, ScanOf(units, f).value);
    }
  }

  /** enumerateManagedUnits. */
  method EnumerateManagedUnits(units: map<File, UnitFile>) returns (r: seq<OwnedUnit>)
    ensures Reports(Managed(units), r)
  {
    var halves: seq<ScannedHalf> := [];
    var rest := units.Keys;
    while rest != {}
      invariant rest <= units.Keys
      invariant ScanOfFiles(units, units.Keys - rest, halves)
      decreases |rest|
    {
      var f :| f in rest;
      ghost var done := units.Keys - rest;
      if ScanOf(units, f).Some? {
        ScanStep(units, done, halves, f);
        halves := halves + [HalfOf(f, ScanOf(units, f).value)];
      }
      rest := rest - {f};
      assert units.Keys - rest == done + {f};
    }
    ScanGroups(units, halves);
    r := PairScannedHalves(halves);
  }
}
