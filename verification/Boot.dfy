/** nasmount-boot (src/boot/main.cpp): arms every sound pair on the host. */
module Boot {
  import opened Types
  import opened World
  import opened Host
  import opened Trigger
  import opened Pairing
  import opened Enumeration
  import opened Operations
  import KeyOrder

  /** What the boot loop cannot know by itself: who still has an account, which paths pass the walk. */
  datatype Surroundings = Surroundings(accounts: set<nat>, paths: set<string>)

  /** The gates in front of one boot-time arm attempt. */
  predicate BootGate(w: World, u: OwnedUnit, around: Surroundings) {
    && u.state == Pair
    && u.uid in around.accounts
    && u.mountPoint == u.unitName
    && Inspect(w, u.unitName, u.uid).state == Pair
  }

  /** What the boot loop may have done so far: arming, share by share. */
  ghost predicate BootFrame(a: World, b: World) {
    && b == a.(live := b.live, covers := b.covers, nextId := b.nextId, ours := b.ours, foreign := b.foreign,
               raced := b.raced, records := b.records,
               roots := b.roots, sureRoots := b.sureRoots, maybeRoots := b.maybeRoots)
    && a.nextId <= b.nextId && RootsGrow(a, b) && a.ours <= b.ours && a.raced <= b.raced && Newcomers(a, b)
    && (forall x :: x in b.ours && x !in a.ours ==> x >= a.nextId)
    && (forall x :: x in b.raced && x !in a.raced ==> x >= a.nextId)
    && (forall n :: n in b.live ==> (n in a.live && a.live[n] == b.live[n]) || b.live[n] >= a.nextId)
  }

  /** Left alone it only adds triggers, each of its own. */
  ghost predicate CalmBoot(a: World, b: World) {
    && b.covers == a.covers && b.foreign == a.foreign
    && (forall n :: n in a.live ==> n in b.live && b.live[n] == a.live[n])
    && (forall n :: n in b.live && n !in a.live ==> b.live[n] in b.ours && b.live[n] >= a.nextId)
  }

  lemma BootStep(a: World, b: World, c: World, n: string)
    requires BootFrame(a, b) && ArmFrame(b, c, n)
    ensures BootFrame(a, c) && forall m :: m != n ==> SameAt(b, c, m)
  {
    ElsewhereSame(b, c, n);
    forall m | m in c.live ensures (m in a.live && a.live[m] == c.live[m]) || c.live[m] >= a.nextId {
      if m != n { assert SameAt(b, c, m); }
    }
  }

  lemma CalmStep(a: World, b: World, c: World, n: string)
    requires BootFrame(a, b) && CalmBoot(a, b) && ArmFrame(b, c, n)
    requires c.covers == b.covers && c.foreign == b.foreign
    requires c.live == b.live || (n !in b.live && n in c.live && c.live[n] in c.ours && c.live[n] >= b.nextId)
    ensures CalmBoot(a, c)
  {
    ElsewhereSame(b, c, n);
    forall m | m in a.live ensures m in c.live && c.live[m] == a.live[m] {
      if m != n { assert SameAt(b, c, m); }
    }
    forall m | m in c.live && m !in a.live ensures c.live[m] in c.ours && c.live[m] >= a.nextId {
      if m != n { assert SameAt(b, c, m); }
    }
  }

  lemma PairHasBothHalves(w: World, n: string, uid: nat)
    requires Inspect(w, n, uid).state == Pair
    ensures BothHalves(w.units, n)
  {
    assert SideOf(w.units, File(n, MountHalf), uid).Valid?;
    assert SideOf(w.units, File(n, AutomountHalf), uid).Valid?;
  }

  /** Arms at most this share, and only as a complete pair; left alone, exactly when everything it asks for is there. */
  method ArmOneShare(h: Host, u: OwnedUnit, around: Surroundings)
    requires Inv(h.w)
    modifies h
    ensures Inv(h.w) && Lived(h) && ArmFrame(old(h.w), h.w, u.unitName) && OnlyHits(h, {})
    ensures h.Calm() ==> h.w.covers == old(h.w).covers && h.w.foreign == old(h.w).foreign
    ensures h.Calm() ==> h.w.live == old(h.w).live || (u.unitName !in old(h.w).live && StartedHere(h, u.unitName))
    ensures h.quiet && old(h.alive) ==> (Recorded(h.w, u.unitName) <==> ArmsAtBoot(old(h.w), u, around))
  {
    GatedIsArmFrame(h.w, h.w, u.unitName);
    if !BootGate(h.w, u, around) { return; }
    PairHasBothHalves(h.w, u.unitName, u.uid);
    var def := Inspect(h.w, u.unitName, u.uid);
    var r := ArmShare(h, u.unitName, u.id, u.authentication, def.what, u.unitName in around.paths);
  }

  /** A share that is up already, or that the boot loop is bound to bring up when nothing goes wrong. */
  predicate ArmsAtBoot(w: World, u: OwnedUnit, around: Surroundings) {
    || Recorded(w, u.unitName)
    || (BootGate(w, u, around) && u.unitName in around.paths && ArmReady(w, u.unitName, u.id, u.authentication))
  }

  /** What one more share means for the whole loop. */
  lemma StillArmed(a: World, mid: World, b: World, units: seq<OwnedUnit>, i: nat)
    requires i < |units| && forall m :: m != units[i].unitName ==> SameAt(mid, b, m)
    requires forall j :: 0 <= j < |units| && j != i ==> units[j].unitName != units[i].unitName
    requires forall j :: i <= j < |units| ==> SameAt(a, mid, units[j].unitName)
    ensures forall j :: i < j < |units| ==> SameAt(a, b, units[j].unitName)
    ensures forall j :: 0 <= j < i ==> (Recorded(mid, units[j].unitName) <==> Recorded(b, units[j].unitName))
  {
    forall j | i < j < |units| ensures SameAt(a, b, units[j].unitName) {
      assert SameAt(mid, b, units[j].unitName);
    }
    forall j | 0 <= j < i ensures Recorded(mid, units[j].unitName) <==> Recorded(b, units[j].unitName) {
      assert SameAt(mid, b, units[j].unitName);
    }
  }

  lemma SameArms(a: World, b: World, u: OwnedUnit, around: Surroundings)
    requires SameAt(a, b, u.unitName) && a.units == b.units && a.dropIns == b.dropIns
    requires a.creds == b.creds && a.drifted == b.drifted
    ensures ArmsAtBoot(a, u, around) <==> ArmsAtBoot(b, u, around)
  {
  }

  /** Every pair on the host ends armed and on record exactly when it was, or when all it asks for was there. */
  ghost predicate AllArmed(start: World, end: World, around: Surroundings) {
    var gs := Managed(start.units);
    forall n :: n in gs && Paired(gs, n).state == Pair ==>
      (Recorded(end, n) <==> ArmsAtBoot(start, Paired(gs, n), around))
  }

  /** The loop's progress in an undisturbed and faultless run. */
  ghost predicate ArmedSoFar(start: World, w: World, units: seq<OwnedUnit>, i: nat, around: Surroundings)
    requires i <= |units|
  {
    && (forall j :: i <= j < |units| ==> SameAt(start, w, units[j].unitName))
    && (forall j :: 0 <= j < i && units[j].state == Pair ==>
          (Recorded(w, units[j].unitName) <==> ArmsAtBoot(start, units[j], around)))
  }

  /** One share's failure never stops the rest: every entry is attempted or counted as skipped. */
  method BootRun(h: Host, around: Surroundings) returns (attempted: nat, skipped: nat)
    requires Inv(h.w)
    modifies h
    ensures Inv(h.w) && Lived(h) && BootFrame(old(h.w), h.w) && OnlyHits(h, {})
    ensures h.Calm() ==> CalmBoot(old(h.w), h.w)
    ensures attempted == |PairsOn(h.w)| && attempted + skipped == |Managed(h.w.units)|
    ensures h.quiet && old(h.alive) ==> AllArmed(old(h.w), h.w, around)
  {
    ghost var start := h.w;
    var units := EnumerateManagedUnits(h.w.units);
    ReportSize(Managed(h.w.units), units);
    OthersDiffer(Managed(start.units), units);
    attempted, skipped := ArmUnits(h, units, around);
    FromUnits(start, h.w, units, around);
    AllCounted(start, h.w, units);
  }

  method ArmUnits(h: Host, units: seq<OwnedUnit>, around: Surroundings) returns (attempted: nat, skipped: nat)
    requires Inv(h.w) && Distinct(units)
    modifies h
    ensures Inv(h.w) && Lived(h) && Booting(h, old(h.w)) && OnlyHits(h, {})
    ensures Counted(units, |units|, attempted, skipped)
    ensures h.quiet && old(h.alive) ==> ArmedSoFar(old(h.w), h.w, units, |units|, around)
  {
    ghost var start := h.w;
    attempted, skipped := 0, 0;
    for i := 0 to |units|
      invariant Inv(h.w) && Lived(h) && Booting(h, start) && OnlyHits(h, {})
      invariant Counted(units, i, attempted, skipped)
      invariant h.quiet && old(h.alive) ==> ArmedSoFar(start, h.w, units, i, around)
    {
      if units[i].state == Pair { attempted := attempted + 1; } else { skipped := skipped + 1; }
      NextShare(h, units, i, around, start);
    }
  }

  /** Of the first n entries, the sound pairs were attempted and the others skipped. */
  ghost predicate Counted(units: seq<OwnedUnit>, n: nat, attempted: nat, skipped: nat)
    requires n <= |units|
  {
    attempted + skipped == n && attempted == PairsAmong(units, n)
  }

  function PairsAmong(units: seq<OwnedUnit>, n: nat): nat
    requires n <= |units|
  {
    if n == 0 then 0 else PairsAmong(units, n - 1) + if units[n - 1].state == Pair then 1 else 0
  }

  /** The base names reported as sound pairs. */
  ghost function PairsOn(w: World): (names: set<string>)
  {
    var gs := Managed(w.units);
    set n | n in gs && Paired(gs, n).state == Pair
  }

  ghost function PairNames(units: seq<OwnedUnit>, n: nat): set<string>
    requires n <= |units|
  {
    set i | 0 <= i < n && units[i].state == Pair :: units[i].unitName
  }

  lemma PairCount(units: seq<OwnedUnit>, i: nat)
    requires Distinct(units) && i < |units|
    ensures |PairNames(units, i + 1)| == |PairNames(units, i)| + if units[i].state == Pair then 1 else 0
  {
    if units[i].state == Pair {
      assert PairNames(units, i + 1) == PairNames(units, i) + {units[i].unitName};
      assert units[i].unitName !in PairNames(units, i);
    } else {
      assert PairNames(units, i + 1) == PairNames(units, i);
    }
  }

  lemma AllCounted(start: World, end: World, units: seq<OwnedUnit>)
    requires BootFrame(start, end) && Reports(Managed(start.units), units) && Distinct(units)
    requires |units| == |Managed(start.units)|
    ensures PairsAmong(units, |units|) == |PairsOn(end)| && |units| == |Managed(end.units)|
  {
    CountsNames(units, |units|);
    AllPairNames(start, units);
    assert PairsOn(start) == PairsOn(end);
  }

  lemma {:induction false} CountsNames(units: seq<OwnedUnit>, n: nat)
    requires Distinct(units) && n <= |units|
    ensures PairsAmong(units, n) == |PairNames(units, n)|
  {
    if n > 0 {
      CountsNames(units, n - 1);
      PairCount(units, n - 1);
    }
  }

  lemma AllPairNames(w: World, units: seq<OwnedUnit>)
    requires Reports(Managed(w.units), units)
    ensures PairNames(units, |units|) == PairsOn(w)
  {
    forall n ensures n in PairNames(units, |units|) <==> n in PairsOn(w) {
      if n in PairsOn(w) {
        var i :| 0 <= i < |units| && units[i].unitName == n;
        assert units[i].state == Pair;
      }
    }
  }

  ghost predicate Booting(h: Host, start: World)
    reads h
  {
    BootFrame(start, h.w) && (h.Calm() ==> CalmBoot(start, h.w))
  }

  /** One turn of the loop, seen from its start. */
  method NextShare(h: Host, units: seq<OwnedUnit>, i: nat, around: Surroundings, ghost start: World)
    requires Inv(h.w) && Booting(h, start) && Distinct(units) && i < |units|
    modifies h
    ensures Inv(h.w) && Lived(h) && Booting(h, start) && old(h.w).foreign <= h.w.foreign
    ensures forall x :: x in h.violations && x !in old(h.violations) ==> x in h.w.foreign && x >= start.nextId
    ensures h.quiet && old(h.alive) && ArmedSoFar(start, old(h.w), units, i, around) ==>
              ArmedSoFar(start, h.w, units, i + 1, around)
  {
    if units[i].state != Pair { return; }
    ghost var mid := h.w;
    ArmOneShare(h, units[i], around);
    BootTurn(start, mid, h.w, units, i, around, h.Calm(),
             h.quiet && old(h.alive) && ArmedSoFar(start, mid, units, i, around));
  }

  lemma BootTurn(start: World, mid: World, end: World, units: seq<OwnedUnit>, i: nat, around: Surroundings,
                 calm: bool, quiet: bool)
    requires Distinct(units) && i < |units| && BootFrame(start, mid)
    requires ArmFrame(mid, end, units[i].unitName)
    requires calm ==> CalmBoot(start, mid) && end.covers == mid.covers && end.foreign == mid.foreign
    requires var n := units[i].unitName;
             calm ==> end.live == mid.live
                      || (n !in mid.live && n in end.live && end.live[n] in end.ours && end.live[n] >= mid.nextId)
    requires quiet ==> ArmedSoFar(start, mid, units, i, around)
    requires quiet ==> (Recorded(end, units[i].unitName) <==> ArmsAtBoot(mid, units[i], around))
    ensures BootFrame(start, end) && (calm ==> CalmBoot(start, end))
    ensures quiet ==> ArmedSoFar(start, end, units, i + 1, around)
  {
    var n := units[i].unitName;
    BootStep(start, mid, end, n);
    if calm { CalmStep(start, mid, end, n); }
    if quiet {
      StillArmed(start, mid, end, units, i);
      SameArms(start, mid, units[i], around);
    }
  }

  lemma FromUnits(start: World, end: World, units: seq<OwnedUnit>, around: Surroundings)
    requires Reports(Managed(start.units), units)
    ensures ArmedSoFar(start, end, units, |units|, around) ==> AllArmed(start, end, around)
  {
    if ArmedSoFar(start, end, units, |units|, around) {
      var gs := Managed(start.units);
      forall n | n in gs && Paired(gs, n).state == Pair
        ensures Recorded(end, n) <==> ArmsAtBoot(start, Paired(gs, n), around)
      {
        var j :| 0 <= j < |units| && units[j].unitName == n;
        assert units[j] == Paired(gs, n);
      }
    }
  }

  /** No name is reported twice. */
  ghost predicate Distinct(units: seq<OwnedUnit>) {
    forall i, j :: 0 <= i < |units| && 0 <= j < |units| && i != j ==> units[i].unitName != units[j].unitName
  }

  lemma OthersDiffer(gs: map<string, Group>, units: seq<OwnedUnit>)
    requires forall b :: b in gs ==> Occupied(gs[b])
    requires Reports(gs, units)
    ensures Distinct(units)
  {
    forall i, j | 0 <= i < |units| && 0 <= j < |units| && i != j ensures units[i].unitName != units[j].unitName {
      KeyOrder.BelowTotal(units[i].unitName, units[i].unitName);
    }
  }
}
