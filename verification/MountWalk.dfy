/**
 * The three walks below an authorised root (src/core/unitspec.cpp): the creating
 * one, the one the boot coordinator uses, and the read-only preview. All of them
 * follow directory entries by descriptor, so the tree is a graph of nodes.
 */
module MountWalk {
  import opened Types

  /** `mnt` is the mount id of an open descriptor (0: not reported); `trigger`: opening it mounts something. */
  datatype Node =
    | Dir(uid: nat, gid: nat, mode: nat, mnt: nat, dev: nat, trigger: bool, entries: map<string, nat>)
    | Link
    | Regular

  type Files = map<nat, Node>

  const PRIVATE_MODE := 0x1C0 // octal 0700

  predicate IsDir(fs: Files, i: nat) {
    i in fs && fs[i].Dir?
  }

  /** Entering child from parent leaves the parent's mount; device numbers stand in for missing mount ids. */
  predicate Crosses(parent: Node, child: Node)
    requires parent.Dir? && child.Dir?
  {
    if child.mnt != 0 && parent.mnt != 0 then child.mnt != parent.mnt else child.dev != parent.dev
  }

  /** Entries lead to nodes, nodes are numbered below `next`, and an opened trigger is another mount. */
  ghost predicate Sound(fs: Files, next: nat) {
    && (forall i :: i in fs ==> i < next)
    && (forall i, c :: IsDir(fs, i) && c in fs[i].entries ==> fs[i].entries[c] in fs)
    && (forall i, c :: IsDir(fs, i) && c in fs[i].entries && IsDir(fs, fs[i].entries[c]) ==>
          (fs[fs[i].entries[c]].trigger ==> Crosses(fs[i], fs[fs[i].entries[c]])))
  }

  function Child(fs: Files, d: nat, c: string): Option<nat> {
    if IsDir(fs, d) && c in fs[d].entries then Some(fs[d].entries[c]) else None
  }

  /** The node at d/suffix, if every component on the way exists. */
  function Resolve(fs: Files, d: nat, suffix: seq<string>): Option<nat>
    decreases |suffix|
  {
    if suffix == [] then Some(d)
    else match Child(fs, d, suffix[0])
      case None => None
      case Some(i) => Resolve(fs, i, suffix[1..])
  }

  /** One existing component as the creating walk judges it. */
  predicate Passable(fs: Files, d: nat, i: nat, uid: nat) {
    IsDir(fs, d) && IsDir(fs, i) && fs[i].uid == uid && !Crosses(fs[d], fs[i])
  }

  /** The creating walk accepts: what exists is the caller's, on one mount, and ends empty. */
  predicate Accepts(fs: Files, d: nat, suffix: seq<string>, uid: nat)
    decreases |suffix|
  {
    suffix == []
    || match Child(fs, d, suffix[0])
       case None => true
       case Some(i) =>
         Passable(fs, d, i, uid)
         && (if |suffix| == 1 then fs[i].entries == map[] else Accepts(fs, i, suffix[1..], uid))
  }

  /** The boot walk accepts: all of it exists, with the recorded owner and group. */
  predicate AcceptsExisting(fs: Files, d: nat, suffix: seq<string>, uid: nat, gid: nat)
    decreases |suffix|
  {
    suffix == []
    || match Child(fs, d, suffix[0])
       case None => false
       case Some(i) =>
         Passable(fs, d, i, uid) && fs[i].gid == gid
         && (if |suffix| == 1 then fs[i].entries == map[] else AcceptsExisting(fs, i, suffix[1..], uid, gid))
  }

  // --- the preview -----------------------------------------------------------------

  predicate CrossesFromRoot(root: Node, node: Node)
    requires root.Dir? && node.Dir?
  {
    node.trigger || (if node.mnt != 0 && root.mnt != 0 then node.mnt != root.mnt else node.dev != root.dev)
  }

  /** The preview finds something wrong below d. */
  predicate Refuses(fs: Files, root: nat, d: nat, suffix: seq<string>, uid: nat)
    requires IsDir(fs, root)
    decreases |suffix|
  {
    suffix != []
    && match Child(fs, d, suffix[0])
       case None => false
       case Some(i) =>
         !IsDir(fs, i) || CrossesFromRoot(fs[root], fs[i]) || fs[i].uid != uid
         || (if |suffix| == 1 then fs[i].entries != map[] else Refuses(fs, root, i, suffix[1..], uid))
  }

  /** The kernel reports mount ids for every directory or for none. */
  ghost predicate Uniform(fs: Files) {
    (forall i :: IsDir(fs, i) ==> fs[i].mnt != 0) || (forall i :: IsDir(fs, i) ==> fs[i].mnt == 0)
  }

  /**
   * The preview and the creating walk decide alike, although one compares every
   * component with the root and the other each with its parent.
   */
  lemma {:induction false} PreviewAgrees(fs: Files, next: nat, root: nat, d: nat, suffix: seq<string>, uid: nat)
    requires Sound(fs, next) && Uniform(fs) && IsDir(fs, root) && IsDir(fs, d) && !Crosses(fs[root], fs[d])
    ensures Refuses(fs, root, d, suffix, uid) <==> !Accepts(fs, d, suffix, uid)
    decreases |suffix|
  {
    if suffix != [] && Child(fs, d, suffix[0]).Some? {
      var i := Child(fs, d, suffix[0]).value;
      if IsDir(fs, i) {
        if !CrossesFromRoot(fs[root], fs[i]) {
          PreviewAgrees(fs, next, root, i, suffix[1..], uid);
        }
      }
    }
  }

  /** Whatever the boot walk accepts, the creating walk accepts, and all of it is there already. */
  lemma {:induction false} ExistingImpliesAccepts(fs: Files, d: nat, suffix: seq<string>, uid: nat, gid: nat)
    requires AcceptsExisting(fs, d, suffix, uid, gid)
    ensures Accepts(fs, d, suffix, uid) && Resolve(fs, d, suffix).Some?
    decreases |suffix|
  {
    if suffix != [] {
      var i := Child(fs, d, suffix[0]).value;
      if |suffix| > 1 {
        ExistingImpliesAccepts(fs, i, suffix[1..], uid, gid);
      } else {
        assert Resolve(fs, i, suffix[1..]) == Some(i);
      }
    }
  }

  // --- what the walks may change -------------------------------------------------------

  /** A directory that gained the entry c and is otherwise as it was. */
  predicate Gained(a: Node, b: Node, c: string) {
    a.Dir? && b.Dir? && c !in a.entries && c in b.entries && b == a.(entries := a.entries[c := b.entries[c]])
  }

  /** A node that existed: as it was, or a directory on root/suffix that gained the next component. */
  ghost predicate KeptNode(start: Files, fs: Files, root: nat, suffix: seq<string>, i: nat)
    requires i in start
  {
    && i in fs
    && (fs[i] == start[i]
        || exists k :: && 0 <= k < |suffix| && Resolve(start, root, suffix[..k]) == Some(i)
                       && Gained(start[i], fs[i], suffix[k]))
  }

  /** Nothing that existed changed, but for directories on the path that gained the next component of it. */
  ghost predicate Preserved(start: Files, fs: Files, root: nat, suffix: seq<string>) {
    forall i :: i in start ==> KeptNode(start, fs, root, suffix, i)
  }

  /** The same, except that the node `last` may have been given to the caller. */
  ghost predicate PreservedBut(start: Files, fs: Files, root: nat, suffix: seq<string>, last: Option<nat>) {
    forall i :: i in start ==>
      if Some(i) == last then i in fs && Handed(start[i], fs[i]) else KeptNode(start, fs, root, suffix, i)
  }

  /** A path that exists to its end gains nothing, so its last node is as it was. */
  lemma PathLast(start: Files, fs: Files, root: nat, suffix: seq<string>)
    requires Preserved(start, fs, root, suffix)
    requires fs != start ==> Resolve(start, root, suffix).None?
    ensures PreservedBut(start, fs, root, suffix, Resolve(start, root, suffix))
  {
    forall i | i in start ensures if Some(i) == Resolve(start, root, suffix) then i in fs && Handed(start[i], fs[i])
                                  else KeptNode(start, fs, root, suffix, i) {
      assert KeptNode(start, fs, root, suffix, i);
    }
  }

  /** One component: only d may have gained c. */
  ghost predicate StepKept(a: Files, b: Files, d: nat, c: string) {
    forall i :: i in a ==> i in b && (a[i] == b[i] || (i == d && Gained(a[i], b[i], c)))
  }

  lemma PathStep(start: Files, a: Files, b: Files, root: nat, cur: nat, done: seq<string>, rest: seq<string>)
    requires rest != [] && Preserved(start, a, root, done + rest) && StepKept(a, b, cur, rest[0])
    requires a == start ==> Resolve(start, root, done) == Some(cur)
    requires a != start ==> cur !in start
    ensures Preserved(start, b, root, done + rest)
  {
    var suffix := done + rest;
    assert suffix[..|done|] == done && suffix[|done|] == rest[0];
    forall i | i in start ensures KeptNode(start, b, root, suffix, i) {
      assert KeptNode(start, a, root, suffix, i);
      assert i in a;
    }
  }

  predicate Handed(a: Node, b: Node) {
    a == b || (a.Dir? && b.Dir? && b == a.(uid := b.uid, gid := b.gid, mode := b.mode))
  }

  /** Directories stay directories of the same mount and owner, and lose no entry. */
  ghost predicate Kept(a: Files, b: Files, uid: nat) {
    forall i :: IsDir(a, i) ==>
      && IsDir(b, i) && b[i].mnt == a[i].mnt && b[i].dev == a[i].dev
      && (a[i].uid == uid ==> b[i].uid == uid)
      && forall c | c in a[i].entries :: c in b[i].entries && b[i].entries[c] == a[i].entries[c]
  }

  lemma {:induction false} WalkedStays(a: Files, b: Files, d: nat, suffix: seq<string>, uid: nat)
    requires Kept(a, b, uid) && Resolve(a, d, suffix).Some? && Owned(a, d, suffix, uid)
    ensures Resolve(b, d, suffix) == Resolve(a, d, suffix) && Owned(b, d, suffix, uid)
    decreases |suffix|
  {
    if suffix != [] {
      assert IsDir(a, d);
      var i := a[d].entries[suffix[0]];
      assert Passable(a, d, i, uid) && Passable(b, d, i, uid);
      WalkedStays(a, b, i, suffix[1..], uid);
    }
  }

  lemma {:induction false} WalkedStep(fs: Files, d: nat, done: seq<string>, c: string, uid: nat)
    requires Resolve(fs, d, done).Some? && Owned(fs, d, done, uid)
    ensures var i := Resolve(fs, d, done).value;
            Resolve(fs, d, done + [c]) == Child(fs, i, c)
            && (Owned(fs, d, done + [c], uid) <==> Child(fs, i, c).Some? && Passable(fs, i, Child(fs, i, c).value, uid))
    decreases |done|
  {
    if done == [] {
      assert [] + [c] == [c];
      assert Child(fs, d, c).Some? ==> Resolve(fs, Child(fs, d, c).value, []) == Child(fs, d, c);
    } else {
      assert (done + [c])[1..] == done[1..] + [c] && (done + [c])[0] == done[0];
      WalkedStep(fs, Child(fs, d, done[0]).value, done[1..], c, uid);
    }
  }

  /** Every component of d/suffix is a directory of the caller's on its parent's mount. */
  predicate Owned(fs: Files, d: nat, suffix: seq<string>, uid: nat)
    decreases |suffix|
  {
    suffix == []
    || match Child(fs, d, suffix[0])
       case None => false
       case Some(i) => Passable(fs, d, i, uid) && Owned(fs, i, suffix[1..], uid)
  }

  /** A walked path never leaves the mount of the root it started from. */
  lemma {:induction false} WalkStaysOnRootMount(fs: Files, root: nat, d: nat, suffix: seq<string>, uid: nat)
    requires Uniform(fs) && IsDir(fs, root) && IsDir(fs, d) && !Crosses(fs[root], fs[d])
    requires Owned(fs, d, suffix, uid)
    ensures Resolve(fs, d, suffix).Some? && IsDir(fs, Resolve(fs, d, suffix).value)
    ensures !Crosses(fs[root], fs[Resolve(fs, d, suffix).value])
    decreases |suffix|
  {
    if suffix != [] {
      WalkStaysOnRootMount(fs, root, Child(fs, d, suffix[0]).value, suffix[1..], uid);
    }
  }

  class Tree {
    var fs: Files
    var next: nat
    const quiet: bool // no system call fails for a reason of its own

    constructor (fs: Files, next: nat, quiet: bool)
      ensures this.fs == fs && this.next == next && this.quiet == quiet
    {
      this.fs, this.next, this.quiet := fs, next, quiet;
    }

    method Works() returns (ok: bool)
      ensures quiet ==> ok
    {
      var fails: bool := *;
      ok := quiet || !fails;
    }
  }

  function NewDir(parent: Node): (r: Node)
    requires parent.Dir?
    ensures r.Dir? && !Crosses(parent, r) && r.entries == map[]
  {
    Dir(0, 0, PRIVATE_MODE, parent.mnt, parent.dev, false, map[])
  }

  function HandOver(node: Node, uid: nat, gid: nat): (r: Node)
    requires node.Dir?
  {
    node.(uid := uid, gid := gid)
  }

  function MakeDir(fs: Files, next: nat, d: nat, c: string): Files
    requires IsDir(fs, d)
  {
    fs[next := NewDir(fs[d])][d := fs[d].(entries := fs[d].entries[c := next])]
  }

  /** From before to after one component of the creating walk. */
  ghost predicate Entered(a: Files, next: nat, b: Files, next': nat, d: nat, c: string, uid: nat)
    requires IsDir(a, d)
  {
    if c in a[d].entries then b == a && next' == next
    else (b == a && next' == next)
         || (next' == next + 1 && next in b && b[next].Dir?
             && b == MakeDir(a, next, d, c)[next := HandOver(NewDir(a[d]), b[next].uid, b[next].gid)])
  }

  /** mkdir, open, chown what was created, stat, and the ownership and mount checks: one component. */
  method Enter(t: Tree, d: nat, c: string, uid: nat, gid: nat) returns (child: Option<nat>)
    requires Sound(t.fs, t.next) && IsDir(t.fs, d)
    modifies t
    ensures Sound(t.fs, t.next) && Entered(old(t.fs), old(t.next), t.fs, t.next, d, c, uid)
    ensures child.Some? ==> child == Child(t.fs, d, c) && Passable(t.fs, d, child.value, uid)
    ensures child.Some? && c !in old(t.fs)[d].entries ==>
              child.value == old(t.next) && t.fs[child.value].entries == map[] && t.fs[child.value].gid == gid
    ensures t.quiet ==> (child.None? <==>
              c in old(t.fs)[d].entries && !Passable(old(t.fs), d, old(t.fs)[d].entries[c], uid))
  {
    var created := false;
    if c !in t.fs[d].entries {
      var made := t.Works();
      if !made { return None; }
      t.fs, t.next, created := MakeDir(t.fs, t.next, d, c), t.next + 1, true;
    }
    var i := t.fs[d].entries[c];
    var couldOpen := t.Works();
    if !couldOpen || !t.fs[i].Dir? { return None; }
    if created {
      var chowned := t.Works();
      if !chowned { return None; }
      t.fs := t.fs[i := HandOver(t.fs[i], uid, gid)];
    }
    var stated := t.Works();
    if !stated { return None; }
    if !created && t.fs[i].uid != uid { return None; }
    if Crosses(t.fs[d], t.fs[i]) { return None; }
    child := Some(i);
  }

  lemma EnteredKeeps(a: Files, next: nat, b: Files, next': nat, d: nat, c: string, uid: nat)
    requires Sound(a, next) && IsDir(a, d) && Entered(a, next, b, next', d, c, uid)
    ensures Kept(a, b, uid) && StepKept(a, b, d, c)
    ensures b == a || (next !in a && IsDir(b, next) && c !in a[d].entries)
  {
  }

  /** How far the creating walk has got: `cur` is root/done, and accepting the rest means accepting all. */
  ghost predicate Midway(start: Files, fs: Files, root: nat, cur: nat, done: seq<string>, rest: seq<string>, uid: nat) {
    && IsDir(fs, cur)
    && Resolve(fs, root, done) == Some(cur) && Owned(fs, root, done, uid)
    && Preserved(start, fs, root, done + rest)
    && (Accepts(start, root, done + rest, uid) <==> Accepts(fs, cur, rest, uid))
    && (fs == start ==> Resolve(start, root, done + rest) == Resolve(start, cur, rest))
    && (fs != start ==> cur !in start && fs[cur].entries == map[] && Resolve(start, root, done + rest).None?)
  }

  /** One more component keeps the walk midway, or ends it in an acceptable last node. */
  lemma MidwayStep(start: Files, a: Files, next: nat, b: Files, next': nat, root: nat, cur: nat, child: nat,
                   done: seq<string>, rest: seq<string>, uid: nat)
    requires Sound(start, next) && Sound(a, next) && Sound(b, next') && rest != []
    requires forall i :: i in start ==> i < next
    requires Midway(start, a, root, cur, done, rest, uid)
    requires Entered(a, next, b, next', cur, rest[0], uid)
    requires Child(b, cur, rest[0]) == Some(child) && Passable(b, cur, child, uid)
    requires rest[0] !in a[cur].entries ==> child == next && b[child].entries == map[]
    ensures |rest| > 1 ==> Midway(start, b, root, child, done + [rest[0]], rest[1..], uid)
    ensures Resolve(b, root, done + [rest[0]]) == Some(child) && Owned(b, root, done + [rest[0]], uid)
    ensures Preserved(start, b, root, done + rest)
    ensures |rest| == 1 ==> (Accepts(start, root, done + rest, uid) <==> b[child].entries == map[])
    ensures |rest| == 1 ==> if b == start then Resolve(start, root, done + rest) == Some(child)
                            else child !in start && Resolve(start, root, done + rest).None?
  {
    EnteredKeeps(a, next, b, next', cur, rest[0], uid);
    WalkedStays(a, b, root, done, uid);
    WalkedStep(b, root, done, rest[0], uid);
    assert done + [rest[0]] + rest[1..] == done + rest;
    PathStep(start, a, b, root, cur, done, rest);
    if b == a && rest[0] in a[cur].entries {
      assert child == a[cur].entries[rest[0]];
      assert |rest| == 1 ==> rest[1..] == [] && Resolve(start, child, rest[1..]) == Some(child);
    } else {
      assert child !in start;
    }
  }

  /** The last component: empty, then the caller's, privately. */
  method TakeOver(t: Tree, i: nat, uid: nat, gid: nat) returns (ok: bool)
    requires Sound(t.fs, t.next) && IsDir(t.fs, i) && t.fs[i].uid == uid
    modifies t
    ensures Sound(t.fs, t.next) && t.next == old(t.next) && Kept(old(t.fs), t.fs, uid)
    ensures forall j :: j in old(t.fs) ==>
              j in t.fs && if j == i then Handed(old(t.fs)[j], t.fs[j]) else t.fs[j] == old(t.fs)[j]
    ensures t.fs.Keys == old(t.fs).Keys
    ensures ok ==> t.fs[i] == old(t.fs)[i].(gid := gid, mode := PRIVATE_MODE) && t.fs[i].entries == map[]
    ensures t.quiet ==> (ok <==> old(t.fs)[i].entries == map[])
  {
    var listed := t.Works();
    if !listed || t.fs[i].entries != map[] { return false; }
    var chowned := t.Works();
    if !chowned { return false; }
    t.fs := t.fs[i := HandOver(t.fs[i], uid, gid)];
    var chmoded := t.Works();
    if !chmoded { return false; }
    t.fs := t.fs[i := t.fs[i].(mode := PRIVATE_MODE)];
    ok := true;
  }

  /** One turn of the loop, seen against the state before the walk. */
  method Advance(t: Tree, ghost start: Files, root: nat, cur: nat, ghost done: seq<string>,
                 ghost rest: seq<string>, c: string, uid: nat, gid: nat)
    returns (child: Option<nat>)
    requires Sound(start, t.next) && Sound(t.fs, t.next) && rest != [] && c == rest[0]
    requires Midway(start, t.fs, root, cur, done, rest, uid)
    modifies t
    ensures Sound(t.fs, t.next) && old(t.next) <= t.next && Preserved(start, t.fs, root, done + rest)
    ensures child.None? ==> PreservedBut(start, t.fs, root, done + rest, Resolve(start, root, done + rest))
    ensures child.None? && t.quiet ==> !Accepts(start, root, done + rest, uid)
    ensures t.fs != start ==> Resolve(start, root, done + rest).None?
    ensures child.Some? ==> IsDir(t.fs, child.value) && t.fs[child.value].uid == uid
    ensures child.Some? ==> Resolve(t.fs, root, done + [rest[0]]) == child
    ensures child.Some? ==> Owned(t.fs, root, done + [rest[0]], uid)
    ensures child.Some? && |rest| > 1 ==> Midway(start, t.fs, root, child.value, done + [rest[0]], rest[1..], uid)
    ensures child.Some? && |rest| == 1 ==>
              (Accepts(start, root, done + rest, uid) <==> t.fs[child.value].entries == map[])
    ensures child.Some? && |rest| == 1 ==>
              if t.fs == start then Resolve(start, root, done + rest) == child
              else child.value !in start && Resolve(start, root, done + rest).None?
  {
    ghost var before, next := t.fs, t.next;
    child := Enter(t, cur, c, uid, gid);
    EnteredKeeps(before, next, t.fs, t.next, cur, rest[0], uid);
    PathStep(start, before, t.fs, root, cur, done, rest);
    PathLast(start, t.fs, root, done + rest);
    if child.Some? {
      MidwayStep(start, before, next, t.fs, t.next, root, cur, child.value, done, rest, uid);
    }
  }

  method FinishWalk(t: Tree, ghost start: Files, root: nat, last: nat, suffix: seq<string>, uid: nat, gid: nat)
    returns (fd: Option<nat>)
    requires Sound(t.fs, t.next) && Preserved(start, t.fs, root, suffix)
    requires Resolve(t.fs, root, suffix) == Some(last) && Owned(t.fs, root, suffix, uid)
    requires IsDir(t.fs, last) && t.fs[last].uid == uid
    requires if t.fs == start then Resolve(start, root, suffix) == Some(last)
             else last !in start && Resolve(start, root, suffix).None?
    modifies t
    ensures Sound(t.fs, t.next)
    ensures fd.Some? ==> Resolve(t.fs, root, suffix) == fd && Owned(t.fs, root, suffix, uid)
                         && IsDir(t.fs, fd.value) && t.fs[fd.value].entries == map[]
                         && t.fs[fd.value].gid == gid && t.fs[fd.value].mode == PRIVATE_MODE
    ensures PreservedBut(start, t.fs, root, suffix, Resolve(start, root, suffix))
    ensures t.fs.Keys == old(t.fs).Keys
    ensures fd.Some? ==> old(t.fs)[last].entries == map[]
    ensures t.quiet ==> (fd.Some? <==> old(t.fs)[last].entries == map[])
  {
    ghost var entered := t.fs;
    var ok := TakeOver(t, last, uid, gid);
    WalkedStays(entered, t.fs, root, suffix, uid);
    fd := if ok then Some(last) else None;
  }

  /**
   * openMountpointNoFollow. Success returns the node at root/suffix, every component
   * the caller's own directory on the root's mount, the last one empty and private.
   * Success or not, nothing that existed changes but the last node's ownership and
   * mode, and directories on the path that gain its next component; a path that exists
   * gets nothing created.
   */
  method OpenMountpointNoFollow(t: Tree, root: nat, suffix: seq<string>, uid: nat, gid: nat)
    returns (fd: Option<nat>)
    requires Sound(t.fs, t.next) && IsDir(t.fs, root)
    modifies t
    ensures Sound(t.fs, t.next)
    ensures fd.Some? ==> suffix != [] && Resolve(t.fs, root, suffix) == fd && Owned(t.fs, root, suffix, uid)
                         && IsDir(t.fs, fd.value) && t.fs[fd.value].entries == map[]
                         && t.fs[fd.value].gid == gid && t.fs[fd.value].mode == PRIVATE_MODE
    ensures PreservedBut(old(t.fs), t.fs, root, suffix, Resolve(old(t.fs), root, suffix))
    ensures suffix != [] && Resolve(old(t.fs), root, suffix).Some? ==> t.fs.Keys == old(t.fs).Keys
    ensures fd.Some? ==> Accepts(old(t.fs), root, suffix, uid)
    ensures t.quiet ==> (fd.Some? <==> suffix != [] && Accepts(old(t.fs), root, suffix, uid))
  {
    fd := None;
    if suffix == [] { return; }
    var reachable := t.Works();
    if !reachable { return; }
    var cur := root;
    ghost var done, rest := [], suffix;
    assert done + rest == suffix;
    for i := 0 to |suffix|
      invariant Sound(t.fs, t.next) && old(t.next) <= t.next
      invariant i < |suffix| && done + rest == suffix && |done| == i
      invariant Midway(old(t.fs), t.fs, root, cur, done, rest, uid)
    {
      var child := Advance(t, old(t.fs), root, cur, done, rest, suffix[i], uid, gid);
      if child.None? { return; }
      SplitStep(done, rest);
      if i + 1 == |suffix| {
        fd := FinishWalk(t, old(t.fs), root, child.value, suffix, uid, gid);
        return;
      }
      cur, done, rest := child.value, done + [rest[0]], rest[1..];
    }
  }

  lemma SplitStep(done: seq<string>, rest: seq<string>)
    requires rest != []
    ensures done + [rest[0]] + rest[1..] == done + rest
    ensures |rest| == 1 ==> done + [rest[0]] == done + rest
  {
  }

  /** openMountpointNoCreate: the boot coordinator's walk. It reads, and accepts only what is already right. */
  method OpenMountpointNoCreate(fs: Files, root: nat, suffix: seq<string>, uid: nat, gid: nat, quiet: bool)
    returns (fd: Option<nat>)
    requires IsDir(fs, root) && forall i, c :: IsDir(fs, i) && c in fs[i].entries ==> fs[i].entries[c] in fs
    ensures fd.Some? ==> suffix != [] && Resolve(fs, root, suffix) == fd && Owned(fs, root, suffix, uid)
                         && AcceptsExisting(fs, root, suffix, uid, gid)
    ensures quiet ==> (fd.Some? <==> suffix != [] && AcceptsExisting(fs, root, suffix, uid, gid))
  {
    fd := None;
    if suffix == [] { return; }
    var cur := root;
    assert suffix[..0] == [] && suffix[0..] == suffix;
    for i := 0 to |suffix|
      invariant IsDir(fs, cur) && Resolve(fs, root, suffix[..i]) == Some(cur) && Owned(fs, root, suffix[..i], uid)
      invariant i < |suffix|
      invariant AcceptsExisting(fs, root, suffix, uid, gid) <==> AcceptsExisting(fs, cur, suffix[i..], uid, gid)
    {
      var fails: bool := *;
      var child := Child(fs, cur, suffix[i]);
      if (!quiet && fails) || child.None? || !fs[child.value].Dir? { return; }
      var node := fs[child.value];
      if node.uid != uid || node.gid != gid { return; }
      if Crosses(fs[cur], node) { return; }
      WalkedStep(fs, root, suffix[..i], suffix[i], uid);
      assert suffix[..i] + [suffix[i]] == suffix[..i + 1] && suffix[i..][1..] == suffix[i + 1..];
      if i + 1 == |suffix| {
        assert suffix[..i + 1] == suffix;
        if node.entries == map[] { fd := child; }
        return;
      }
      cur := child.value;
    }
  }

  /**
   * previewMountpointProblem. It changes nothing; a problem it reports is one the
   * creating walk would refuse, and without interference silence means acceptance.
   */
  method PreviewMountpointProblem(fs: Files, next: nat, root: nat, suffix: seq<string>, uid: nat, quiet: bool)
    returns (problem: bool)
    requires Sound(fs, next) && Uniform(fs) && IsDir(fs, root)
    ensures problem ==> suffix != [] && !Accepts(fs, root, suffix, uid)
    ensures quiet && !fs[root].trigger ==> (problem <==> !Accepts(fs, root, suffix, uid))
  {
    problem := false;
    if suffix == [] || fs[root].trigger { return; }
    PreviewAgrees(fs, next, root, root, suffix, uid);
    var cur := root;
    assert suffix[0..] == suffix;
    for i := 0 to |suffix|
      invariant IsDir(fs, cur) && i < |suffix|
      invariant Refuses(fs, root, root, suffix, uid) <==> Refuses(fs, root, cur, suffix[i..], uid)
    {
      assert suffix[i..][1..] == suffix[i + 1..];
      var fails: bool := *;
      var child := Child(fs, cur, suffix[i]);
      if (!quiet && fails) || child.None? || child.value !in fs { return; }
      var node := fs[child.value];
      if !node.Dir? { return true; }
      if CrossesFromRoot(fs[root], node) { return true; }
      if node.uid != uid { return true; }
      if i + 1 == |suffix| { return node.entries != map[]; }
      cur := child.value;
    }
  }
}
