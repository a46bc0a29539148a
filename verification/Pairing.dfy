/**
 * Grouping of scanned unit halves into one entry per base name
 * (pairScannedHalves, src/core/verify.cpp): pairing, disagreement and the
 * collision pass over ids and mount points.
 */
module Pairing {
  import opened Types
  import opened KeyOrder

  /** What one marker-bearing unit file contributes to the scan. */
  datatype Scan = Scan(marker: Marker, where: string, what: string)

  datatype ScannedHalf = ScannedHalf(baseName: string, isMount: bool, scan: Scan)

  datatype Group = Group(mountHalf: Option<Scan>, automountHalf: Option<Scan>)

  datatype OwnedUnit = OwnedUnit(
    unitName: string,
    state: Definition,
    mountPoint: string,
    id: string,
    uid: nat,
    gid: nat,
    authentication: Authentication,
    access: Access,
    what: string)

  predicate Occupied(g: Group) {
    g.mountHalf.Some? || g.automountHalf.Some?
  }

  function Place(g: Group, half: ScannedHalf): (r: Group)
    ensures Occupied(r)
  {
    if half.isMount then g.(mountHalf := Some(half.scan)) else g.(automountHalf := Some(half.scan))
  }

  const NoHalf := Group(None, None)

  /** The groups after a scan; a repeated (base name, half) keeps the last one. */
  function Groups(halves: seq<ScannedHalf>): (gs: map<string, Group>)
    ensures forall b :: b in gs ==> Occupied(gs[b])
    ensures forall b :: b in gs <==> exists h :: h in halves && h.baseName == b
  {
    if halves == [] then map[]
    else
      var last := halves[|halves| - 1];
      var gs := Groups(halves[..|halves| - 1]);
      assert halves == halves[..|halves| - 1] + [last];
      gs[last.baseName := Place(if last.baseName in gs then gs[last.baseName] else NoHalf, last)]
  }

  function Adopt(name: string, state: Definition, s: Scan, what: string): OwnedUnit {
    OwnedUnit(name, state, s.where, s.marker.id, s.marker.uid, s.marker.gid,
              s.marker.authentication, s.marker.access, what)
  }

  /** One base name on its own: pair, lone half, or a pair that disagrees. */
  function FirstPass(name: string, g: Group): OwnedUnit
    requires Occupied(g)
  {
    match (g.mountHalf, g.automountHalf)
    case (Some(m), Some(a)) =>
      if m.marker != a.marker || m.where != a.where
      then OwnedUnit(name, Tampered, "", "", 0, 0, Credentials, ReadWrite, "")
      else Adopt(name, Pair, m, m.what)
    case (Some(m), None) => Adopt(name, Partial, m, m.what)
    case (None, Some(a)) => Adopt(name, Partial, a, "")
  }

  function Demote(u: OwnedUnit): OwnedUnit {
    u.(state := Tampered, id := "", uid := 0, gid := 0, authentication := Credentials, access := ReadWrite)
  }

  /** Two entries that both look sound claim one id or one mount point. */
  predicate Clash(u: OwnedUnit, v: OwnedUnit) {
    u.state != Tampered && v.state != Tampered && (u.id == v.id || u.mountPoint == v.mountPoint)
  }

  predicate Collides(gs: map<string, Group>, name: string)
    requires name in gs && forall b :: b in gs ==> Occupied(gs[b])
  {
    exists other :: other in gs && other != name && Clash(FirstPass(name, gs[name]), FirstPass(other, gs[other]))
  }

  /** What enumeration reports for one base name. */
  function Paired(gs: map<string, Group>, name: string): OwnedUnit
    requires name in gs && forall b :: b in gs ==> Occupied(gs[b])
  {
    var u := FirstPass(name, gs[name]);
    if Collides(gs, name) then Demote(u) else u
  }

  predicate Shares(u: OwnedUnit, v: OwnedUnit, key: OwnedUnit -> string) {
    u.state != Tampered && v.state != Tampered && key(u) == key(v)
  }

  // --- the loops -----------------------------------------------------------

  /** The sound entries among the first n whose key is x, ascending. */
  ghost function Picks(units: seq<OwnedUnit>, key: OwnedUnit -> string, x: string, n: nat): (p: seq<nat>)
    requires n <= |units|
    ensures forall i :: i in p <==> 0 <= i < n && units[i].state != Tampered && key(units[i]) == x
    ensures forall j, k :: 0 <= j < k < |p| ==> p[j] < p[k]
  {
    if n == 0 then []
    else
      var p := Picks(units, key, x, n - 1);
      assert forall j :: 0 <= j < |p| ==> p[j] in p;
      if units[n - 1].state != Tampered && key(units[n - 1]) == x then p + [n - 1] else p
  }

  function Lookup(index: map<string, seq<nat>>, x: string): seq<nat> {
    if x in index then index[x] else []
  }

  method IndexBy(units: seq<OwnedUnit>, key: OwnedUnit -> string) returns (index: map<string, seq<nat>>)
    ensures forall x :: Lookup(index, x) == Picks(units, key, x, |units|)
  {
    index := map[];
    for i := 0 to |units|
      invariant forall x :: Lookup(index, x) == Picks(units, key, x, i)
    {
      if units[i].state != Tampered {
        var x := key(units[i]);
        index := index[x := Lookup(index, x) + [i]];
      }
    }
  }

  /** The indices listed under a key that is claimed more than once. */
  method Repeated(index: map<string, seq<nat>>) returns (hit: set<nat>)
    ensures forall i :: i in hit <==> exists x :: x in index && |index[x]| > 1 && i in index[x]
  {
    hit := {};
    var rest := index.Keys;
    while rest != {}
      invariant rest <= index.Keys
      invariant forall i :: i in hit <==> exists x :: x in index && x !in rest && |index[x]| > 1 && i in index[x]
      decreases |rest|
    {
      var x :| x in rest;
      if |index[x]| > 1 {
        hit := hit + (set i | i in index[x]);
      }
      rest := rest - {x};
    }
  }

  lemma RepeatedMeansShared(units: seq<OwnedUnit>, key: OwnedUnit -> string, index: map<string, seq<nat>>, i: nat)
    requires i < |units| && forall x :: Lookup(index, x) == Picks(units, key, x, |units|)
    ensures (exists x :: x in index && |index[x]| > 1 && i in index[x]) <==>
            exists j :: 0 <= j < |units| && j != i && Shares(units[i], units[j], key)
  {
    var x := key(units[i]);
    var p := Picks(units, key, x, |units|);
    assert Lookup(index, x) == p;
    if y :| y in index && |index[y]| > 1 && i in index[y] {
      assert Lookup(index, y) == Picks(units, key, y, |units|);
      assert y == x && p[0] in p && p[1] in p;
      var j := if p[0] == i then p[1] else p[0];
      assert j in p && Shares(units[i], units[j], key);
    }
    if j :| 0 <= j < |units| && j != i && Shares(units[i], units[j], key) {
      assert i in p && j in p;
      assert |p| > 1;
      assert x in index;
    }
  }

  /** Second pass: the indices that share an id or a mount point with another sound entry. */
  method Collisions(units: seq<OwnedUnit>) returns (hit: set<nat>)
    ensures forall i :: i in hit ==> i < |units|
    ensures forall i :: 0 <= i < |units| ==>
              (i in hit <==> exists j :: 0 <= j < |units| && j != i && Clash(units[i], units[j]))
  {
    var id := (u: OwnedUnit) => u.id;
    var mountPoint := (u: OwnedUnit) => u.mountPoint;
    var byId := IndexBy(units, id);
    var byMountPoint := IndexBy(units, mountPoint);
    var hitId := Repeated(byId);
    var hitMountPoint := Repeated(byMountPoint);
    hit := hitId + hitMountPoint;
    forall i | i in hit ensures i < |units| {
      if i in hitId {
        var x :| x in byId && |byId[x]| > 1 && i in byId[x];
        assert Lookup(byId, x) == Picks(units, id, x, |units|);
      } else {
        var x :| x in byMountPoint && |byMountPoint[x]| > 1 && i in byMountPoint[x];
        assert Lookup(byMountPoint, x) == Picks(units, mountPoint, x, |units|);
      }
    }
    forall i | 0 <= i < |units|
      ensures i in hit <==> exists j :: 0 <= j < |units| && j != i && Clash(units[i], units[j])
    {
      RepeatedMeansShared(units, id, byId, i);
      RepeatedMeansShared(units, mountPoint, byMountPoint, i);
      ClashIsShared(units, id, mountPoint, i);
    }
  }

  lemma ClashIsShared(units: seq<OwnedUnit>, id: OwnedUnit -> string, mountPoint: OwnedUnit -> string, i: nat)
    requires i < |units|
    requires forall u :: id(u) == u.id && mountPoint(u) == u.mountPoint
    ensures (exists j :: 0 <= j < |units| && j != i && Clash(units[i], units[j])) <==>
            (exists j :: 0 <= j < |units| && j != i && Shares(units[i], units[j], id))
            || (exists j :: 0 <= j < |units| && j != i && Shares(units[i], units[j], mountPoint))
  {
    forall j | 0 <= j < |units|
      ensures Clash(units[i], units[j]) <==>
              Shares(units[i], units[j], id) || Shares(units[i], units[j], mountPoint)
    {
    }
  }

  method DemoteAll(units: seq<OwnedUnit>, hit: set<nat>) returns (r: seq<OwnedUnit>)
    requires forall i :: i in hit ==> i < |units|
    ensures |r| == |units|
    ensures forall i :: 0 <= i < |units| ==> r[i] == if i in hit then Demote(units[i]) else units[i]
  {
    r := units;
    var rest := hit;
    while rest != {}
      invariant rest <= hit && |r| == |units|
      invariant forall i :: 0 <= i < |units| ==>
                  r[i] == if i in hit && i !in rest then Demote(units[i]) else units[i]
      decreases |rest|
    {
      var i :| i in rest;
      r := r[i := Demote(r[i])];
      rest := rest - {i};
    }
  }

  method GroupHalves(halves: seq<ScannedHalf>) returns (gs: map<string, Group>)
    ensures gs == Groups(halves)
  {
    gs := map[];
    for k := 0 to |halves|
      invariant gs == Groups(halves[..k])
    {
      var half := halves[k];
      assert halves[..k + 1][..k] == halves[..k];
      gs := gs[half.baseName := Place(if half.baseName in gs then gs[half.baseName] else NoHalf, half)];
    }
    assert halves[..|halves|] == halves;
  }

  /** The report for a whole scan: exactly one entry per base name, ascending. */
  ghost predicate Reports(gs: map<string, Group>, r: seq<OwnedUnit>)
    requires forall b :: b in gs ==> Occupied(gs[b])
  {
    && (forall i, j :: 0 <= i < j < |r| ==> Below(r[i].unitName, r[j].unitName))
    && (forall b :: b in gs <==> exists i :: 0 <= i < |r| && r[i].unitName == b)
    && (forall i :: 0 <= i < |r| ==> r[i].unitName in gs && r[i] == Paired(gs, r[i].unitName))
  }

  lemma ClashIsCollision(gs: map<string, Group>, keys: seq<string>, units: seq<OwnedUnit>, i: nat)
    requires forall b :: b in gs ==> Occupied(gs[b])
    requires Ascends(keys) && forall b :: b in gs <==> b in keys
    requires |units| == |keys| && forall j :: 0 <= j < |keys| ==> units[j] == FirstPass(keys[j], gs[keys[j]])
    requires i < |keys|
    ensures Collides(gs, keys[i]) <==> exists j :: 0 <= j < |units| && j != i && Clash(units[i], units[j])
  {
    if Collides(gs, keys[i]) {
      var other :| other in gs && other != keys[i]
                   && Clash(FirstPass(keys[i], gs[keys[i]]), FirstPass(other, gs[other]));
      var j :| 0 <= j < |keys| && keys[j] == other;
      assert Clash(units[i], units[j]);
    }
    if j :| 0 <= j < |units| && j != i && Clash(units[i], units[j]) {
      BelowTotal(keys[i], keys[i]);
      assert keys[j] != keys[i];
      assert Clash(FirstPass(keys[i], gs[keys[i]]), FirstPass(keys[j], gs[keys[j]]));
    }
  }

  lemma ReportsFromPasses(gs: map<string, Group>, keys: seq<string>, units: seq<OwnedUnit>, hit: set<nat>,
                          r: seq<OwnedUnit>)
    requires forall b :: b in gs ==> Occupied(gs[b])
    requires Ascends(keys) && forall b :: b in gs <==> b in keys
    requires |units| == |keys| == |r|
    requires forall j :: 0 <= j < |keys| ==> units[j] == FirstPass(keys[j], gs[keys[j]])
    requires forall i :: 0 <= i < |units| ==> (i in hit <==> Collides(gs, keys[i]))
    requires forall i :: 0 <= i < |units| ==> r[i] == if i in hit then Demote(units[i]) else units[i]
    ensures Reports(gs, r)
  {
    forall i | 0 <= i < |r| ensures r[i].unitName == keys[i] && r[i] == Paired(gs, keys[i]) {
    }
    forall b | b in gs ensures exists i :: 0 <= i < |r| && r[i].unitName == b {
      var i :| 0 <= i < |keys| && keys[i] == b;
      assert r[i].unitName == b;
    }
  }

  method PairScannedHalves(halves: seq<ScannedHalf>) returns (r: seq<OwnedUnit>)
    ensures Reports(Groups(halves), r)
  {
    var gs := GroupHalves(halves);
    var keys := KeysAscending(gs.Keys);
    var units: seq<OwnedUnit> := [];
    for i := 0 to |keys|
      invariant |units| == i
      invariant forall j :: 0 <= j < i ==> units[j] == FirstPass(keys[j], gs[keys[j]])
    {
      units := units + [FirstPass(keys[i], gs[keys[i]])];
    }

    var hit := Collisions(units);
    forall i | 0 <= i < |units|
      ensures i in hit <==> Collides(gs, keys[i])
    {
      ClashIsCollision(gs, keys, units, i);
    }
    r := DemoteAll(units, hit);
    ReportsFromPasses(gs, keys, units, hit, r);
  }

  // --- what the report promises ----------------------------------------------

  predicate NoRepeat(halves: seq<ScannedHalf>) {
    forall i, j :: 0 <= i < j < |halves| ==>
      halves[i].baseName != halves[j].baseName || halves[i].isMount != halves[j].isMount
  }

  function Slot(g: Group, isMount: bool): Option<Scan> {
    if isMount then g.mountHalf else g.automountHalf
  }

  /** Without repeats a slot holds exactly the half that was scanned for it. */
  lemma {:induction false} SlotIsScanned(halves: seq<ScannedHalf>, b: string, isMount: bool, s: Scan)
    requires NoRepeat(halves) && b in Groups(halves)
    ensures Slot(Groups(halves)[b], isMount) == Some(s) <==> ScannedHalf(b, isMount, s) in halves
  {
    var n := |halves| - 1;
    var init := halves[..n];
    var last := halves[n];
    var wanted := ScannedHalf(b, isMount, s);
    assert halves == init + [last];
    assert wanted in halves <==> wanted in init || wanted == last;
    if b in Groups(init) {
      SlotIsScanned(init, b, isMount, s);
    } else {
      assert wanted !in init;
    }
    if last.baseName == b && last.isMount == isMount {
      assert wanted !in init by { LastOnce(halves, wanted); }
    }
  }

  lemma LastOnce(halves: seq<ScannedHalf>, half: ScannedHalf)
    requires halves != [] && NoRepeat(halves)
    requires half.baseName == halves[|halves| - 1].baseName && half.isMount == halves[|halves| - 1].isMount
    ensures half !in halves[..|halves| - 1]
  {
  }

  lemma SameGroups(halves: seq<ScannedHalf>, shuffled: seq<ScannedHalf>)
    requires NoRepeat(halves) && NoRepeat(shuffled)
    requires forall h :: h in halves <==> h in shuffled
    ensures Groups(halves) == Groups(shuffled)
  {
    var g, g' := Groups(halves), Groups(shuffled);
    forall b | b in g ensures g[b] == g'[b] {
      forall isMount ensures Slot(g[b], isMount) == Slot(g'[b], isMount) {
        match Slot(g[b], isMount)
        case Some(s) =>
          SlotIsScanned(halves, b, isMount, s);
          SlotIsScanned(shuffled, b, isMount, s);
        case None =>
          match Slot(g'[b], isMount)
          case Some(s) =>
            SlotIsScanned(halves, b, isMount, s);
            SlotIsScanned(shuffled, b, isMount, s);
          case None =>
      }
      assert Slot(g[b], true) == Slot(g'[b], true) && Slot(g[b], false) == Slot(g'[b], false);
    }
  }

  /** The report does not depend on the order in which the directory was scanned. */
  lemma ScanOrderIrrelevant(halves: seq<ScannedHalf>, shuffled: seq<ScannedHalf>,
                            r: seq<OwnedUnit>, r': seq<OwnedUnit>)
    requires NoRepeat(halves) && multiset(halves) == multiset(shuffled)
    requires Reports(Groups(halves), r) && Reports(Groups(shuffled), r')
    ensures r == r'
  {
    forall h ensures h in halves <==> h in shuffled {
      assert h in multiset(halves) <==> h in multiset(shuffled);
    }
    NoRepeatShuffled(halves, shuffled);
    SameGroups(halves, shuffled);
    ReportUnique(Groups(halves), r, r');
  }

  ghost function Names(r: seq<OwnedUnit>): (names: seq<string>)
    ensures |names| == |r| && forall i :: 0 <= i < |r| ==> names[i] == r[i].unitName
  {
    seq(|r|, i requires 0 <= i < |r| => r[i].unitName)
  }

  lemma NamesAreKeys(gs: map<string, Group>, r: seq<OwnedUnit>, k: string)
    requires forall b :: b in gs ==> Occupied(gs[b])
    requires Reports(gs, r)
    ensures k in Names(r) <==> k in gs
  {
    if k in gs {
      var i :| 0 <= i < |r| && r[i].unitName == k;
      assert Names(r)[i] == k;
    }
  }

  lemma {:induction false} DistinctCount(s: seq<string>)
    requires forall i, j :: 0 <= i < j < |s| ==> s[i] != s[j]
    ensures |(set x | x in s)| == |s|
    decreases |s|
  {
    if s != [] {
      var n := |s| - 1;
      DistinctCount(s[..n]);
      assert s == s[..n] + [s[n]];
      assert (set x | x in s) == (set x | x in s[..n]) + {s[n]};
      assert s[n] !in s[..n];
    }
  }

  /** As many entries as base names, and for exactly those. */
  lemma ReportSize(gs: map<string, Group>, r: seq<OwnedUnit>)
    requires forall b :: b in gs ==> Occupied(gs[b])
    requires Reports(gs, r)
    ensures |Names(r)| == |gs| && forall n :: n in Names(r) <==> n in gs
  {
    var names := Names(r);
    forall i, j | 0 <= i < j < |names| ensures names[i] != names[j] {
      BelowTotal(names[i], names[i]);
    }
    DistinctCount(names);
    forall k ensures k in names <==> k in gs.Keys {
      NamesAreKeys(gs, r, k);
    }
    assert (set x | x in names) == gs.Keys;
  }

  /** The groups determine the whole report, order included. */
  lemma ReportUnique(gs: map<string, Group>, r: seq<OwnedUnit>, r': seq<OwnedUnit>)
    requires forall b :: b in gs ==> Occupied(gs[b])
    requires Reports(gs, r) && Reports(gs, r')
    ensures r == r'
  {
    forall k ensures k in Names(r) <==> k in Names(r') {
      NamesAreKeys(gs, r, k);
      NamesAreKeys(gs, r', k);
    }
    AscendingUnique(Names(r), Names(r'));
    forall i | 0 <= i < |r| ensures r[i] == r'[i] {
      assert r[i].unitName == Names(r)[i] == Names(r')[i] == r'[i].unitName;
    }
  }

  lemma NoRepeatShuffled(halves: seq<ScannedHalf>, shuffled: seq<ScannedHalf>)
    requires NoRepeat(halves) && multiset(halves) == multiset(shuffled)
    ensures NoRepeat(shuffled)
  {
    forall i, j | 0 <= i < j < |shuffled|
      ensures shuffled[i].baseName != shuffled[j].baseName || shuffled[i].isMount != shuffled[j].isMount
    {
      var a, b := shuffled[i], shuffled[j];
      if a == b {
        OnceMeansOne(halves, a);
        assert multiset(shuffled)[a] <= 1;
        TwiceMeansTwo(shuffled, i, j);
        assert false;
      } else {
        assert a in multiset(shuffled) && b in multiset(shuffled);
        assert a in halves && b in halves;
      }
    }
  }

  lemma TwiceMeansTwo(s: seq<ScannedHalf>, i: nat, j: nat)
    requires i < j < |s| && s[i] == s[j]
    ensures multiset(s)[s[i]] >= 2
  {
    assert s == s[..j] + [s[j]] + s[j + 1..];
    assert s[i] in s[..j];
  }

  lemma {:induction false} OnceMeansOne(s: seq<ScannedHalf>, h: ScannedHalf)
    requires NoRepeat(s)
    ensures multiset(s)[h] <= 1
  {
    if s != [] {
      assert s == [s[0]] + s[1..];
      OnceMeansOne(s[1..], h);
      if h == s[0] {
        assert h !in s[1..];
      }
    }
  }

  /** Entries that survive as Pair or Partial claim pairwise distinct ids and mount points. */
  lemma SurvivorsDistinct(gs: map<string, Group>, r: seq<OwnedUnit>, i: nat, j: nat)
    requires forall b :: b in gs ==> Occupied(gs[b])
    requires Reports(gs, r) && i < j < |r|
    requires r[i].state != Tampered && r[j].state != Tampered
    ensures r[i].id != r[j].id && r[i].mountPoint != r[j].mountPoint
  {
    var a, b := r[i].unitName, r[j].unitName;
    BelowTotal(a, b);
    BelowTotal(a, a);
    assert !Collides(gs, a);
    assert !Clash(FirstPass(a, gs[a]), FirstPass(b, gs[b]));
  }

  /** No two entries of a report share an id, except those that lost theirs. */
  lemma ReportedIdsDiffer(gs: map<string, Group>, r: seq<OwnedUnit>, i: nat, j: nat)
    requires forall b :: b in gs ==> Occupied(gs[b])
    requires Reports(gs, r) && i < j < |r| && r[i].id == r[j].id
    ensures r[i].id == ""
  {
    if r[i].state != Tampered && r[j].state != Tampered {
      SurvivorsDistinct(gs, r, i, j);
    }
  }

  /** Both sides of a collision lose every marker-derived claim; nobody else changes. */
  lemma CollisionSurfaces(gs: map<string, Group>, r: seq<OwnedUnit>, i: nat)
    requires forall b :: b in gs ==> Occupied(gs[b])
    requires Reports(gs, r) && i < |r|
    ensures var alone := FirstPass(r[i].unitName, gs[r[i].unitName]);
            if exists j :: 0 <= j < |r| && j != i && Clash(alone, FirstPass(r[j].unitName, gs[r[j].unitName]))
            then r[i].state == Tampered && r[i].id == "" && r[i].uid == 0 && r[i].gid == 0
                 && r[i].authentication == Credentials && r[i].access == ReadWrite
            else r[i] == alone
  {
    var name := r[i].unitName;
    if Collides(gs, name) {
      var other :| other in gs && other != name
                   && Clash(FirstPass(name, gs[name]), FirstPass(other, gs[other]));
      var j :| 0 <= j < |r| && r[j].unitName == other;
    }
    forall j | 0 <= j < |r| && j != i ensures r[j].unitName != name {
      BelowTotal(name, name);
    }
  }
}
