/**
 * Which of several mounts at one path is the visible one (classifyMountEntries,
 * src/core/verify.cpp).
 */
module MountStack {
  import opened Types

  datatype MountEntry = MountEntry(
    mountId: int,
    parentId: int,
    mountPoint: string,
    filesystemType: string,
    mountSource: string)

  datatype MountClassification = MountClassification(mount: MountState, verification: Verification)

  /** The entries at the path, without any order. */
  function StackAt(entries: seq<MountEntry>, target: string): multiset<MountEntry> {
    if entries == [] then multiset{}
    else (if entries[0].mountPoint == target then multiset{entries[0]} else multiset{})
         + StackAt(entries[1..], target)
  }

  /** Nothing else at this path is mounted on e. */
  ghost predicate Uncovered(stack: multiset<MountEntry>, e: MountEntry) {
    e in stack && forall o :: o in stack - multiset{e} ==> o.parentId != e.mountId
  }

  /** e is the one and only uncovered entry. */
  ghost predicate Top(stack: multiset<MountEntry>, e: MountEntry) {
    stack[e] == 1 && Uncovered(stack, e) && forall o :: Uncovered(stack, o) ==> o == e
  }

  function Judge(top: MountEntry, expectedWhat: string): MountClassification {
    if top.filesystemType == "cifs" then
      MountClassification(Present, if top.mountSource == expectedWhat then Match else Mismatch)
    else if top.filesystemType == "autofs" then MountClassification(Absent, NotApplicable)
    else MountClassification(Present, Mismatch)
  }

  /** The verdict depends on the stack alone: the top decides, and no single top means not knowing. */
  ghost predicate Verdict(stack: multiset<MountEntry>, expectedWhat: string, c: MountClassification) {
    if stack == multiset{} then c == MountClassification(Absent, NotApplicable)
    else if exists e :: Top(stack, e) then exists e :: Top(stack, e) && c == Judge(e, expectedWhat)
    else c == MountClassification(MountIndeterminate, VerificationIndeterminate)
  }

  // --- the loops ----------------------------------------------------------------------

  predicate UncoveredAt(s: seq<MountEntry>, i: nat)
    requires i < |s|
  {
    forall j | 0 <= j < |s| && j != i :: s[j].parentId != s[i].mountId
  }

  /** Taking one copy of s[i] away leaves exactly the entries at the other indices. */
  lemma Others(s: seq<MountEntry>, i: nat, o: MountEntry)
    requires i < |s|
    ensures o in multiset(s) - multiset{s[i]} <==> exists j :: 0 <= j < |s| && j != i && s[j] == o
  {
    assert s == s[..i] + [s[i]] + s[i + 1..];
    assert multiset(s) - multiset{s[i]} == multiset(s[..i]) + multiset(s[i + 1..]);
    if j :| 0 <= j < |s| && j != i && s[j] == o {
      if j < i { assert s[..i][j] == o; } else { assert s[i + 1..][j - i - 1] == o; }
    }
    if o in s[..i] {
      var j :| 0 <= j < i && s[..i][j] == o;
      assert s[j] == o;
    } else if o in s[i + 1..] {
      var j :| 0 <= j < |s| - i - 1 && s[i + 1..][j] == o;
      assert s[i + 1 + j] == o;
    }
  }

  lemma UncoveredByIndex(s: seq<MountEntry>, i: nat)
    requires i < |s|
    ensures UncoveredAt(s, i) <==> Uncovered(multiset(s), s[i])
  {
    forall o ensures o in multiset(s) - multiset{s[i]} <==> exists j :: 0 <= j < |s| && j != i && s[j] == o {
      Others(s, i, o);
    }
    assert s[i] in multiset(s);
  }

  lemma OnlyUncoveredIsTop(s: seq<MountEntry>, i: nat)
    requires i < |s| && UncoveredAt(s, i) && forall j :: 0 <= j < |s| && UncoveredAt(s, j) ==> j == i
    ensures Top(multiset(s), s[i])
  {
    UncoveredByIndex(s, i);
    forall o | Uncovered(multiset(s), o) ensures o == s[i] {
      assert o in s;
      var j :| 0 <= j < |s| && s[j] == o;
      UncoveredByIndex(s, j);
    }
    if multiset(s)[s[i]] > 1 {
      assert s == s[..i] + [s[i]] + s[i + 1..];
      assert multiset(s)[s[i]] == multiset(s[..i])[s[i]] + 1 + multiset(s[i + 1..])[s[i]];
      var j: nat :| j < |s| && j != i && s[j] == s[i] by { SecondCopy(s, i); }
      UncoveredByIndex(s, j);
    }
  }

  lemma SecondCopy(s: seq<MountEntry>, i: nat)
    requires i < |s| && multiset(s)[s[i]] > 1
    ensures exists j :: 0 <= j < |s| && j != i && s[j] == s[i]
  {
    assert s == s[..i] + [s[i]] + s[i + 1..];
    if s[i] in s[..i] {
      var j :| 0 <= j < i && s[..i][j] == s[i];
    } else {
      assert s[i] in s[i + 1..];
      var j :| 0 <= j < |s| - i - 1 && s[i + 1..][j] == s[i];
      assert s[i + 1 + j] == s[i];
    }
  }

  lemma TwoUncoveredMeansNoTop(s: seq<MountEntry>, i: nat, j: nat)
    requires i < j < |s| && UncoveredAt(s, i) && UncoveredAt(s, j)
    ensures forall e :: !Top(multiset(s), e)
  {
    UncoveredByIndex(s, i);
    UncoveredByIndex(s, j);
    if s[i] == s[j] {
      assert s == s[..j] + [s[j]] + s[j + 1..];
      assert s[i] in s[..j];
      assert multiset(s)[s[i]] > 1;
    }
  }

  lemma NoneUncoveredMeansNoTop(s: seq<MountEntry>)
    requires forall i :: 0 <= i < |s| ==> !UncoveredAt(s, i)
    ensures forall e :: !Top(multiset(s), e)
  {
    forall e ensures !Top(multiset(s), e) {
      if e in s {
        var i :| 0 <= i < |s| && s[i] == e;
        UncoveredByIndex(s, i);
      }
    }
  }

  method CollectStack(entries: seq<MountEntry>, target: string) returns (stack: seq<MountEntry>)
    ensures multiset(stack) == StackAt(entries, target)
  {
    stack := [];
    for i := 0 to |entries|
      invariant multiset(stack) + StackAt(entries[i..], target) == StackAt(entries, target)
    {
      assert entries[i..][1..] == entries[i + 1..];
      if entries[i].mountPoint == target {
        stack := stack + [entries[i]];
      }
    }
  }

  /** classifyMountEntries. `target` is the mount point in its canonical spelling. */
  method ClassifyMountEntries(entries: seq<MountEntry>, target: string, expectedWhat: string)
    returns (c: MountClassification)
    ensures Verdict(StackAt(entries, target), expectedWhat, c)
  {
    var stack := CollectStack(entries, target);
    if stack == [] {
      return MountClassification(Absent, NotApplicable);
    }
    assert stack[0] in multiset(stack);
    var top: Option<nat> := None;
    for i := 0 to |stack|
      invariant top.None? ==> forall j :: 0 <= j < i ==> !UncoveredAt(stack, j)
      invariant top.Some? ==> top.value < i && UncoveredAt(stack, top.value)
      invariant top.Some? ==> forall j :: 0 <= j < i && UncoveredAt(stack, j) ==> j == top.value
    {
      if UncoveredAt(stack, i) {
        if top.Some? {
          TwoUncoveredMeansNoTop(stack, top.value, i);
          return MountClassification(MountIndeterminate, VerificationIndeterminate);
        }
        top := Some(i);
      }
    }
    if top.None? {
      NoneUncoveredMeansNoTop(stack);
      return MountClassification(MountIndeterminate, VerificationIndeterminate);
    }
    OnlyUncoveredIsTop(stack, top.value);
    c := Judge(stack[top.value], expectedWhat);
  }

  // --- what the verdict promises ----------------------------------------------------------

  lemma {:induction false} StackCounts(entries: seq<MountEntry>, target: string, e: MountEntry)
    ensures StackAt(entries, target)[e] == if e.mountPoint == target then multiset(entries)[e] else 0
  {
    if entries != [] {
      StackCounts(entries[1..], target, e);
      assert entries == [entries[0]] + entries[1..];
    }
  }

  /** The order of the lines in mountinfo does not matter, and the verdict is unique. */
  lemma OrderIrrelevant(a: seq<MountEntry>, b: seq<MountEntry>, target: string, expectedWhat: string,
                        c: MountClassification, d: MountClassification)
    requires multiset(a) == multiset(b)
    requires Verdict(StackAt(a, target), expectedWhat, c) && Verdict(StackAt(b, target), expectedWhat, d)
    ensures c == d
  {
    forall e ensures StackAt(a, target)[e] == StackAt(b, target)[e] {
      StackCounts(a, target, e);
      StackCounts(b, target, e);
    }
    assert StackAt(a, target) == StackAt(b, target);
  }

  /** Present and matching means exactly: the only visible mount is a CIFS mount of the expected share. */
  lemma MatchMeansOurShareOnTop(stack: multiset<MountEntry>, expectedWhat: string, c: MountClassification)
    requires Verdict(stack, expectedWhat, c)
    ensures c == MountClassification(Present, Match) <==>
            exists e :: Top(stack, e) && e.filesystemType == "cifs" && e.mountSource == expectedWhat
    ensures c.mount == MountIndeterminate <==> stack != multiset{} && forall e :: !Top(stack, e)
    ensures c.mount == MountIndeterminate <==> c.verification == VerificationIndeterminate
  {
    forall e | Top(stack, e) ensures e in stack {
    }
  }

  // --- a visible mount exists -------------------------------------------------------------------

  predicate Covers(o: MountEntry, e: MountEntry) {
    o != e && o.parentId == e.mountId
  }

  ghost predicate Chain(entries: set<MountEntry>, p: seq<MountEntry>) {
    p != [] && (forall i :: 0 <= i < |p| ==> p[i] in entries) && forall i :: 0 < i < |p| ==> Covers(p[i], p[i - 1])
  }

  /** No mount covers itself through others. */
  ghost predicate Acyclic(entries: set<MountEntry>) {
    forall p :: Chain(entries, p) && |p| > 1 ==> p[0] != p[|p| - 1]
  }

  lemma {:induction false} DistinctFits(p: seq<MountEntry>, entries: set<MountEntry>)
    requires forall i, j :: 0 <= i < j < |p| ==> p[i] != p[j]
    requires forall i :: 0 <= i < |p| ==> p[i] in entries
    ensures |p| <= |entries|
    decreases |p|
  {
    if p != [] {
      var last := p[|p| - 1];
      DistinctFits(p[..|p| - 1], entries - {last});
    }
  }

  /** Climb from one covering mount to the next; without cycles the climb ends. */
  lemma Climb(entries: set<MountEntry>, p: seq<MountEntry>) returns (top: MountEntry)
    requires Acyclic(entries) && Chain(entries, p)
    requires forall i, j :: 0 <= i < j < |p| ==> p[i] != p[j]
    ensures top in entries && forall o :: o in entries ==> !Covers(o, top)
    decreases |entries| - |p|
  {
    DistinctFits(p, entries);
    var last := p[|p| - 1];
    if o :| o in entries && Covers(o, last) {
      var q := p + [o];
      assert Chain(entries, q);
      forall i | 0 <= i < |p| ensures p[i] != o {
        assert Chain(entries, q[i..]);
        assert q[i..][0] == p[i] && q[i..][|q| - i - 1] == o;
      }
      DistinctFits(q, entries);
      top := Climb(entries, q);
    } else {
      top := last;
    }
  }

  /** With distinct mount ids and no cycle, some mount at a non-empty path is uncovered. */
  lemma SomeMountIsVisible(stack: multiset<MountEntry>)
    requires stack != multiset{} && forall e :: e in stack ==> stack[e] == 1
    requires Acyclic(set e | e in stack)
    ensures exists e :: Uncovered(stack, e)
  {
    var entries := set e | e in stack;
    var start :| start in stack;
    assert start in entries;
    assert Chain(entries, [start]);
    var top := Climb(entries, [start]);
    forall o | o in stack - multiset{top} ensures o.parentId != top.mountId {
      assert o in entries && !Covers(o, top);
    }
    assert Uncovered(stack, top);
  }
}
