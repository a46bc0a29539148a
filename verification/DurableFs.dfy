/**
 * Crash-safe replacement and removal of one directory entry (src/root/durablefs.cpp).
 *
 * The directory has a volatile view (what syscalls see) and a set of views a crash
 * may leave on disk: an entry changed since the last directory fsync may have any
 * value it had since, and a file not yet fsynced may hold anything at all. A crash
 * can strike around any syscall; from then on the code has no effect, so what a
 * method ensures holds for every crash point.
 */
module DurableFs {
  import opened Types

  type byte = bv8

  datatype Inode = Inode(data: seq<byte>, synced: bool, mode: nat)

  datatype Directory = Directory(
    names: map<string, nat>,
    inodes: map<nat, Inode>,
    pending: map<string, set<Option<nat>>>, // entries that differ, or may differ, on disk
    next: nat)

  function Entry(d: Directory, x: string): Option<nat> {
    if x in d.names then Some(d.names[x]) else None
  }

  function OnDisk(d: Directory, x: string): set<Option<nat>> {
    if x in d.pending then d.pending[x] else {Entry(d, x)}
  }

  /** After a crash now, reading x can give r. */
  ghost predicate CrashGives(d: Directory, x: string, r: Option<seq<byte>>) {
    || (None in OnDisk(d, x) && r.None?)
    || exists i: nat :: Some(i) in OnDisk(d, x) && InodeGives(d, i, r)
  }

  predicate InodeGives(d: Directory, i: nat, r: Option<seq<byte>>) {
    r.Some? && i in d.inodes && (d.inodes[i].synced ==> r.value == d.inodes[i].data)
  }

  /** What reading x gives while the machine stays up. */
  function Content(d: Directory, x: string): Option<seq<byte>> {
    if x in d.names && d.names[x] in d.inodes then Some(d.inodes[d.names[x]].data) else None
  }

  function ModeOf(d: Directory, x: string): Option<nat> {
    if x in d.names && d.names[x] in d.inodes then Some(d.inodes[d.names[x]].mode) else None
  }

  ghost predicate Valid(d: Directory) {
    && (forall x :: x in d.names ==> d.names[x] in d.inodes)
    && (forall x, i: nat :: x in d.pending && Some(i) in d.pending[x] ==> i in d.inodes)
    && (forall x :: x in d.pending ==> Entry(d, x) in d.pending[x])
    && (forall i :: i in d.inodes ==> i < d.next)
  }

  // --- effects of the syscalls ------------------------------------------------------

  function SetEntry(d: Directory, x: string, v: Option<nat>): Directory {
    d.(names := if v.Some? then d.names[x := v.value] else d.names - {x},
       pending := d.pending[x := OnDisk(d, x) + {v}])
  }

  function Created(d: Directory, x: string, mode: nat): Directory {
    SetEntry(d.(inodes := d.inodes[d.next := Inode([], false, mode)], next := d.next + 1), x, Some(d.next))
  }

  function Appended(d: Directory, i: nat, bytes: seq<byte>): Directory
    requires i in d.inodes
  {
    d.(inodes := d.inodes[i := d.inodes[i].(data := d.inodes[i].data + bytes, synced := false)])
  }

  function FileSynced(d: Directory, i: nat): Directory
    requires i in d.inodes
  {
    d.(inodes := d.inodes[i := d.inodes[i].(synced := true)])
  }

  function Renamed(d: Directory, x: string, y: string): Directory
    requires x in d.names
  {
    SetEntry(SetEntry(d, y, Some(d.names[x])), x, None)
  }

  function DirSynced(d: Directory): Directory {
    d.(pending := map[])
  }

  /** Every file the entry may lead to after a crash has been fsynced. */
  ghost predicate Settled(d: Directory, x: string) {
    forall i: nat :: Some(i) in OnDisk(d, x) && i in d.inodes ==> d.inodes[i].synced
  }

  predicate IsSingleComponent(name: string) {
    name != "" && name != "." && name != ".." && '/' !in name
  }

  // --- the machine --------------------------------------------------------------------

  class Machine {
    var d: Directory
    var alive: bool
    const quiet: bool // no syscall fails and no crash comes

    constructor (d: Directory, quiet: bool)
      ensures this.d == d && alive && this.quiet == quiet
    {
      this.d, this.alive, this.quiet := d, true, quiet;
    }

    twostate predicate Ran()
      reads this
    {
      (alive ==> old(alive)) && (!old(alive) ==> d == old(d)) && (quiet && old(alive) ==> alive)
    }

    method Moment()
      modifies this`alive
      ensures alive ==> old(alive)
      ensures quiet && old(alive) ==> alive
    {
      var crash: bool := *;
      if !quiet && crash { alive := false; }
    }

    /** One syscall: all of its effect or an error and none of it. */
    method Syscall(after: Directory) returns (ok: bool)
      modifies this
      ensures Ran()
      ensures d == old(d) || d == after
      ensures ok ==> alive && d == after
      ensures alive && !ok ==> d == old(d)
      ensures quiet && old(alive) ==> ok
    {
      ok := false;
      Moment();
      var fails: bool := *;
      if alive && (quiet || !fails) {
        d, ok := after, true;
        Moment();
        ok := alive;
      }
    }

    /** write(2): some non-empty prefix, or an error. */
    method Write(i: nat, bytes: seq<byte>) returns (n: int)
      requires i in d.inodes && bytes != []
      modifies this
      ensures Ran() && n <= |bytes|
      ensures d == old(d) || exists k :: 0 < k <= |bytes| && d == Appended(old(d), i, bytes[..k])
      ensures n > 0 ==> alive && d == Appended(old(d), i, bytes[..n])
      ensures quiet && old(alive) ==> n > 0
    {
      var k: int := *;
      if !(0 < k <= |bytes|) { k := |bytes|; }
      var ok := Syscall(Appended(d, i, bytes[..k]));
      n := if ok then k else -1;
    }
  }

  // --- reasoning about one entry ---------------------------------------------------------

  /** x reads the same, and a crash gives nothing for it that it could not give before. */
  ghost predicate NotWorse(a: Directory, b: Directory, x: string) {
    && Entry(b, x) == Entry(a, x)
    && OnDisk(b, x) <= OnDisk(a, x)
    && forall i: nat :: Some(i) in OnDisk(b, x) && i in a.inodes ==> i in b.inodes && b.inodes[i] == a.inodes[i]
  }

  lemma NotWorseMeans(a: Directory, b: Directory, x: string, r: Option<seq<byte>>)
    requires Valid(a) && Valid(b) && NotWorse(a, b, x)
    ensures CrashGives(b, x, r) ==> CrashGives(a, x, r)
    ensures Content(b, x) == Content(a, x)
  {
    if i: nat :| Some(i) in OnDisk(b, x) && InodeGives(b, i, r) {
      assert Some(i) in OnDisk(a, x) && i in a.inodes;
      assert InodeGives(a, i, r);
    }
    assert Entry(b, x) in OnDisk(b, x);
  }

  lemma NotWorseTrans(a: Directory, b: Directory, c: Directory, x: string)
    requires Valid(a) && NotWorse(a, b, x) && NotWorse(b, c, x)
    ensures NotWorse(a, c, x)
  {
  }

  /** The file being written is not reachable under any name but tmp, now or after a crash. */
  ghost predicate Private(d: Directory, fd: nat, tmp: string) {
    fd in d.inodes && forall x :: x != tmp ==> Some(fd) !in OnDisk(d, x)
  }

  lemma CreatedKeeps(d: Directory, tmp: string, mode: nat)
    requires Valid(d) && tmp !in d.names
    ensures Valid(Created(d, tmp, mode)) && Private(Created(d, tmp, mode), d.next, tmp)
    ensures forall x :: x != tmp ==> NotWorse(d, Created(d, tmp, mode), x)
  {
    forall x | x != tmp ensures Some(d.next) !in OnDisk(d, x) {
    }
  }

  /** Writing through the descriptor of a private file touches no other entry. */
  lemma FdKeeps(d: Directory, fd: nat, tmp: string, data: Inode)
    requires Valid(d) && Private(d, fd, tmp)
    ensures var b := d.(inodes := d.inodes[fd := data]);
            Valid(b) && Private(b, fd, tmp) && forall x :: x != tmp ==> NotWorse(d, b, x)
  {
    var b := d.(inodes := d.inodes[fd := data]);
    forall x ensures OnDisk(b, x) == OnDisk(d, x) {
    }
  }

  /** What happens to the temporary file happens to nobody else. */
  ghost predicate OnlyFd(a: Directory, b: Directory, fd: nat) {
    fd in a.inodes && fd in b.inodes && b == a.(inodes := a.inodes[fd := b.inodes[fd]])
  }

  method Fill(m: Machine, fd: nat, content: seq<byte>) returns (ok: bool)
    requires fd in m.d.inodes && m.d.inodes[fd].data == []
    modifies m
    ensures m.Ran() && OnlyFd(old(m.d), m.d, fd)
    ensures ok && content != [] ==> m.alive
    ensures ok ==> m.d.inodes[fd].data == content && m.d.inodes[fd].mode == old(m.d).inodes[fd].mode
    ensures m.quiet && old(m.alive) ==> ok
  {
    var written := 0;
    while written < |content|
      invariant m.Ran() && OnlyFd(old(m.d), m.d, fd)
      invariant 0 <= written <= |content| && (written > 0 ==> m.alive)
      invariant m.d.inodes[fd].data == content[..written]
      invariant m.d.inodes[fd].mode == old(m.d).inodes[fd].mode
    {
      var n := m.Write(fd, content[written..]);
      if n <= 0 { return false; }
      assert content[..written] + content[written..][..n] == content[..written + n];
      written := written + n;
    }
    ok := true;
  }

  /** Up to eight draws of a name that does not exist yet. */
  method CreateTemp(m: Machine, candidates: seq<string>, mode: nat)
    returns (tmp: Option<string>, ghost created: string)
    requires |candidates| == 8 && Valid(m.d)
    modifies m
    ensures m.Ran()
    ensures m.d == old(m.d)
            || (created in candidates && created !in old(m.d).names && m.d == Created(old(m.d), created, mode))
    ensures tmp.Some? ==> m.alive && tmp.value == created && created in candidates && created !in old(m.d).names
                          && m.d == Created(old(m.d), created, mode)
    ensures m.quiet && old(m.alive) ==> (tmp.Some? <==> exists c :: c in candidates && c !in old(m.d).names)
  {
    tmp, created := None, "";
    for attempt := 0 to 8
      invariant m.Ran() && m.d == old(m.d)
      invariant forall k :: 0 <= k < attempt ==> candidates[k] in m.d.names
    {
      var c := candidates[attempt];
      if c !in m.d.names {
        created := c;
        var ok := m.Syscall(Created(m.d, c, mode));
        tmp := if ok then Some(c) else None;
        return;
      }
    }
  }

  method Secure(m: Machine, fd: nat, mode: nat) returns (ok: bool)
    requires fd in m.d.inodes
    modifies m
    ensures m.Ran() && OnlyFd(old(m.d), m.d, fd)
    ensures ok ==> m.alive && m.d.inodes[fd] == old(m.d).inodes[fd].(mode := mode)
    ensures m.quiet && old(m.alive) ==> ok
  {
    var inode := m.d.inodes[fd].(mode := mode);
    ok := m.Syscall(m.d);  // fchown
    if ok {
      ok := m.Syscall(m.d.(inodes := m.d.inodes[fd := inode]));
    }
  }

  /** Content, owner and mode, then the fsync that makes the file itself durable. */
  method FillAndSync(m: Machine, fd: nat, content: seq<byte>, mode: nat) returns (ok: bool)
    requires fd in m.d.inodes && m.d.inodes[fd].data == []
    modifies m
    ensures m.Ran() && OnlyFd(old(m.d), m.d, fd)
    ensures ok ==> m.alive && m.d.inodes[fd] == Inode(content, true, mode)
    ensures m.quiet && old(m.alive) ==> ok
  {
    ok := Fill(m, fd, content);
    if ok { ok := Secure(m, fd, mode); }
    if ok { ok := m.Syscall(FileSynced(m.d, fd)); }
  }

  lemma RenamedKeeps(d: Directory, tmp: string, name: string, fd: nat)
    requires Valid(d) && Private(d, fd, tmp) && tmp in d.names && d.names[tmp] == fd && tmp != name
    ensures var b := Renamed(d, tmp, name);
            Valid(b) && Entry(b, name) == Some(fd) && tmp !in b.names
            && OnDisk(b, name) == OnDisk(d, name) + {Some(fd)}
            && (forall x :: x != tmp && x != name ==> NotWorse(d, b, x))
            && b.inodes == d.inodes
  {
    var b := Renamed(d, tmp, name);
    forall x | x != tmp && x != name ensures OnDisk(b, x) == OnDisk(d, x) && Entry(b, x) == Entry(d, x) {
    }
  }

  lemma SyncedKeeps(d: Directory)
    requires Valid(d)
    ensures Valid(DirSynced(d)) && forall x :: NotWorse(d, DirSynced(d), x)
    ensures forall x :: OnDisk(DirSynced(d), x) == {Entry(d, x)}
  {
    forall x ensures NotWorse(d, DirSynced(d), x) {
      assert Entry(DirSynced(d), x) == Entry(d, x);
    }
  }

  lemma DroppedKeeps(d: Directory, tmp: string)
    requires Valid(d)
    ensures var b := SetEntry(d, tmp, None);
            Valid(b) && forall x :: x != tmp ==> NotWorse(d, b, x)
  {
    var b := SetEntry(d, tmp, None);
    forall x | x != tmp ensures OnDisk(b, x) == OnDisk(d, x) && Entry(b, x) == Entry(d, x) {
    }
  }

  /** After the rename a crash gives the old state of `name` or all of the new content. */
  lemma RenamedGives(d: Directory, tmp: string, name: string, fd: nat, content: seq<byte>, mode: nat,
                     r: Option<seq<byte>>)
    requires Valid(d) && Private(d, fd, tmp) && tmp in d.names && d.names[tmp] == fd && tmp != name
    requires d.inodes[fd] == Inode(content, true, mode)
    requires CrashGives(Renamed(d, tmp, name), name, r)
    ensures CrashGives(d, name, r) || r == Some(content)
  {
    RenamedKeeps(d, tmp, name, fd);
    var b := Renamed(d, tmp, name);
    if !(None in OnDisk(b, name) && r.None?) {
      var i: nat :| Some(i) in OnDisk(b, name) && InodeGives(b, i, r);
      if i != fd { assert InodeGives(d, i, r); }
    }
  }

  /** The steps up to the rename: all of them happen to the temporary name only. */
  method WriteTemp(m: Machine, content: seq<byte>, mode: nat, candidates: seq<string>)
    returns (tmp: Option<string>, ghost created: string)
    requires Valid(m.d) && |candidates| == 8
    modifies m
    ensures m.Ran() && Valid(m.d)
    ensures (created in candidates && created !in old(m.d).names) || m.d == old(m.d)
    ensures forall x :: x != created ==> NotWorse(old(m.d), m.d, x)
    ensures m.d.names.Keys <= old(m.d).names.Keys + {created}
    ensures tmp.Some? ==> m.alive && tmp.value == created && created in candidates && created !in old(m.d).names
    ensures tmp.Some? ==> created in m.d.names && var fd := m.d.names[created];
              Private(m.d, fd, created) && m.d.inodes[fd] == Inode(content, true, mode)
              && m.d.names == old(m.d).names[created := fd]
    ensures m.quiet && old(m.alive) ==> (tmp.Some? <==> exists c :: c in candidates && c !in old(m.d).names)
  {
    ghost var start := m.d;
    tmp, created := CreateTemp(m, candidates, mode);
    if m.d != start { CreatedKeeps(start, created, mode); }
    if tmp.None? { return; }
    var fd := m.d.names[tmp.value];
    ghost var mid := m.d;
    var filled := FillAndSync(m, fd, content, mode);
    FdKeeps(mid, fd, created, m.d.inodes[fd]);
    forall x | x != created ensures NotWorse(start, m.d, x) { NotWorseTrans(start, mid, m.d, x); }
    if !filled {
      ghost var before := m.d;
      DroppedKeeps(m.d, created);
      var _ := m.Syscall(SetEntry(m.d, tmp.value, None));
      forall x | x != created ensures NotWorse(start, m.d, x) { NotWorseTrans(start, before, m.d, x); }
      tmp := None;
    }
  }

  /** Rename over the target, then sync the directory; a failed rename drops the temporary file again. */
  method Install(m: Machine, tmp: string, name: string, content: seq<byte>, mode: nat)
    returns (ok: bool, ghost renamed: bool)
    requires Valid(m.d) && m.alive && tmp in m.d.names && tmp != name
    requires Private(m.d, m.d.names[tmp], tmp) && m.d.inodes[m.d.names[tmp]] == Inode(content, true, mode)
    modifies m
    ensures m.Ran() && Valid(m.d)
    ensures forall x :: x != tmp && x != name ==> NotWorse(old(m.d), m.d, x)
    ensures m.d.names.Keys <= old(m.d).names.Keys + {name}
    ensures !renamed ==> NotWorse(old(m.d), m.d, name)
    ensures ok ==> m.d.pending == map[]
    ensures Settled(old(m.d), name) ==> Settled(m.d, name)
    ensures renamed ==> Content(m.d, name) == Some(content) && ModeOf(m.d, name) == Some(mode) && tmp !in m.d.names
    ensures forall r :: CrashGives(m.d, name, r) ==> CrashGives(old(m.d), name, r) || r == Some(content)
    ensures ok ==> renamed && m.alive && forall r :: CrashGives(m.d, name, r) <==> r == Some(content)
    ensures m.quiet ==> ok
  {
    ghost var start := m.d;
    ghost var fd := m.d.names[tmp];
    RenamedKeeps(m.d, tmp, name, fd);
    forall r | CrashGives(Renamed(start, tmp, name), name, r) ensures CrashGives(start, name, r) || r == Some(content) {
      RenamedGives(start, tmp, name, fd, content, mode, r);
    }
    ok := m.Syscall(Renamed(m.d, tmp, name));
    renamed := m.d != start;
    if !ok {
      DropTemp(m, tmp, name);
      return;
    }
    renamed := true;
    ghost var mid := m.d;
    SyncedKeeps(mid);
    ok := m.Syscall(DirSynced(m.d));
    forall x | x != tmp && x != name ensures NotWorse(start, m.d, x) { NotWorseTrans(start, mid, m.d, x); }
    forall r | CrashGives(m.d, name, r) ensures CrashGives(start, name, r) || r == Some(content) {
      if m.d != mid { NotWorseMeans(mid, m.d, name, r); }
    }
    if ok { SyncedGives(mid, name, fd, content, mode); }
  }

  method DropTemp(m: Machine, tmp: string, ghost name: string)
    requires Valid(m.d) && tmp != name
    modifies m
    ensures m.Ran() && Valid(m.d)
    ensures forall x :: x != tmp ==> NotWorse(old(m.d), m.d, x)
    ensures m.d.names.Keys <= old(m.d).names.Keys
    ensures forall r :: CrashGives(m.d, name, r) ==> CrashGives(old(m.d), name, r)
  {
    DroppedKeeps(m.d, tmp);
    var _ := m.Syscall(SetEntry(m.d, tmp, None));
    forall r | CrashGives(m.d, name, r) ensures CrashGives(old(m.d), name, r) {
      NotWorseMeans(old(m.d), m.d, name, r);
    }
  }

  lemma SyncedGives(d: Directory, name: string, fd: nat, content: seq<byte>, mode: nat)
    requires Valid(d) && Entry(d, name) == Some(fd) && d.inodes[fd] == Inode(content, true, mode)
    ensures forall r :: CrashGives(DirSynced(d), name, r) <==> r == Some(content)
  {
    SyncedKeeps(d);
    var b := DirSynced(d);
    assert OnDisk(b, name) == {Some(fd)};
    forall r ensures CrashGives(b, name, r) <==> r == Some(content) {
      if CrashGives(b, name, r) {
        var i: nat :| Some(i) in OnDisk(b, name) && InodeGives(b, i, r);
        assert i == fd;
      } else {
        assert Some(fd) in OnDisk(b, name) && !InodeGives(b, fd, r);
      }
    }
  }

  /**
   * durableReplace. Whatever fails and wherever a crash strikes, the name gives its
   * complete old state or the complete new content; true means only the new content;
   * before the rename nothing about it has changed; no other existing entry is
   * affected, and at most the target and one temporary name are new. Artifact names
   * never carry the temporary prefix.
   */
  method DurableReplace(m: Machine, name: string, content: seq<byte>, mode: nat, candidates: seq<string>)
    returns (ok: bool, ghost renamed: bool, ghost created: string)
    requires Valid(m.d) && |candidates| == 8 && name !in candidates
    modifies m
    ensures m.Ran() && Valid(m.d)
    ensures forall r :: CrashGives(m.d, name, r) ==> CrashGives(old(m.d), name, r) || r == Some(content)
    ensures ok ==> renamed && m.alive && forall r :: CrashGives(m.d, name, r) <==> r == Some(content)
    ensures if renamed then Content(m.d, name) == Some(content) && ModeOf(m.d, name) == Some(mode)
            else Content(m.d, name) == Content(old(m.d), name)
    ensures !renamed ==> NotWorse(old(m.d), m.d, name)
    ensures ok ==> m.d.pending == map[]
    ensures Settled(old(m.d), name) ==> Settled(m.d, name)
    ensures forall x :: x != name && x != created ==> NotWorse(old(m.d), m.d, x)
    ensures (created in candidates && created !in old(m.d).names) || m.d == old(m.d)
    ensures m.d.names.Keys <= old(m.d).names.Keys + {name, created}
    ensures created !in old(m.d).names || m.d.names.Keys <= old(m.d).names.Keys
    ensures ok ==> created !in m.d.names
    ensures m.quiet && old(m.alive) ==>
              (ok <==> IsSingleComponent(name) && exists c :: c in candidates && c !in old(m.d).names)
  {
    ok, renamed, created := false, false, "";
    if !IsSingleComponent(name) { return; }
    var tmp;
    tmp, created := WriteTemp(m, content, mode, candidates);
    forall r | CrashGives(m.d, name, r) ensures CrashGives(old(m.d), name, r) {
      if created != name { NotWorseMeans(old(m.d), m.d, name, r); }
    }
    NotWorseMeans(old(m.d), m.d, name, None);
    if tmp.None? { return; }
    ghost var mid := m.d;
    ok, renamed := Install(m, tmp.value, name, content, mode);
    forall x | x != name && x != created ensures NotWorse(old(m.d), m.d, x) {
      NotWorseTrans(old(m.d), mid, m.d, x);
    }
    if !renamed {
      NotWorseTrans(old(m.d), mid, m.d, name);
      NotWorseMeans(old(m.d), m.d, name, None);
    }
  }

  /**
   * durableUnlink. Success means the name is gone; it is gone for good exactly when
   * this call removed it, or when nothing older was still pending for it.
   */
  method DurableUnlink(m: Machine, name: string, allowMissing: bool) returns (ok: bool)
    requires Valid(m.d)
    modifies m
    ensures m.Ran() && Valid(m.d)
    ensures forall x :: x != name ==> NotWorse(old(m.d), m.d, x)
    ensures forall r :: CrashGives(m.d, name, r) ==> CrashGives(old(m.d), name, r) || r == None
    ensures ok ==> m.alive && name !in m.d.names
    ensures ok && name in old(m.d).names ==> m.d.pending == map[] && forall r :: CrashGives(m.d, name, r) <==> r == None
    ensures Entry(m.d, name) in {Entry(old(m.d), name), None}
    ensures name in m.d.names ==> NotWorse(old(m.d), m.d, name)
    ensures Settled(old(m.d), name) ==> Settled(m.d, name)
    ensures ok && name !in old(m.d).names ==> allowMissing && m.d == old(m.d)
    ensures m.quiet && old(m.alive) ==> (ok <==> IsSingleComponent(name) && (allowMissing || name in old(m.d).names))
  {
    ok := false;
    if !IsSingleComponent(name) { return; }
    if name !in m.d.names {
      var answered := m.Syscall(m.d);
      return answered && allowMissing;
    }
    ghost var start := m.d;
    DroppedKeeps(start, name);
    ok := m.Syscall(SetEntry(m.d, name, None));
    ghost var mid := m.d;
    if ok {
      SyncedKeeps(mid);
      ok := m.Syscall(DirSynced(m.d));
      assert OnDisk(DirSynced(mid), name) == {None};
    }
    forall x | x != name ensures NotWorse(start, m.d, x) { NotWorseTrans(start, mid, m.d, x); }
    forall r | CrashGives(m.d, name, r) ensures CrashGives(start, name, r) || r == None {
      UnlinkedGives(start, mid, m.d, name, r);
    }
  }

  lemma UnlinkedGives(start: Directory, mid: Directory, end: Directory, name: string, r: Option<seq<byte>>)
    requires Valid(start) && Valid(mid) && Valid(end) && NotWorse(mid, end, name)
    requires mid == start || mid == SetEntry(start, name, None)
    requires CrashGives(end, name, r)
    ensures CrashGives(start, name, r) || r == None
  {
    NotWorseMeans(mid, end, name, r);
    if i: nat :| Some(i) in OnDisk(mid, name) && InodeGives(mid, i, r) {
      assert InodeGives(start, i, r);
    }
  }

  /** An unlink adds absence to what a crash may give, and nothing else. */
  lemma DropGives(d: Directory, x: string, y: string, r: Option<seq<byte>>)
    requires Valid(d) && CrashGives(SetEntry(d, x, None), y, r)
    ensures CrashGives(d, y, r) || r == None
  {
    var b := SetEntry(d, x, None);
    DroppedKeeps(d, x);
    if y == x {
      assert NotWorse(b, b, x);
      UnlinkedGives(d, b, b, x, r);
    } else {
      NotWorseMeans(d, b, y, r);
    }
  }

  /** From a to b entries only went, each of them one that may go. */
  ghost predicate Thinned(a: Directory, b: Directory, removable: set<string>) {
    && b.names.Keys <= a.names.Keys
    && (forall x :: x in a.names && x !in b.names ==> x in removable)
    && (forall x :: x in b.names || x !in a.names ==> NotWorse(a, b, x))
    && (forall x, r :: CrashGives(b, x, r) ==> CrashGives(a, x, r) || r == None)
  }

  lemma ThinnedMore(a: Directory, b: Directory, x: string, removable: set<string>)
    requires Valid(a) && Valid(b) && Thinned(a, b, removable) && x in b.names && x in removable
    ensures Thinned(a, SetEntry(b, x, None), removable)
  {
    var c := SetEntry(b, x, None);
    DroppedKeeps(b, x);
    forall y | y in c.names || y !in a.names ensures NotWorse(a, c, y) {
      NotWorseTrans(a, b, c, y);
    }
    forall y, r | CrashGives(c, y, r) ensures CrashGives(a, y, r) || r == None {
      DropGives(b, x, y, r);
    }
  }

  lemma ThinnedSynced(a: Directory, b: Directory, removable: set<string>)
    requires Valid(a) && Valid(b) && Thinned(a, b, removable)
    ensures Thinned(a, DirSynced(b), removable)
  {
    var c := DirSynced(b);
    SyncedKeeps(b);
    forall y | y in c.names || y !in a.names ensures NotWorse(a, c, y) {
      NotWorseTrans(a, b, c, y);
    }
    forall y, r | CrashGives(c, y, r) ensures CrashGives(a, y, r) || r == None {
      NotWorseMeans(b, c, y, r);
    }
  }

  lemma ThinnedSelf(d: Directory, removable: set<string>)
    requires Valid(d)
    ensures Thinned(d, d, removable)
  {
  }

  method DropEntry(m: Machine, ghost start: Directory, x: string, removable: set<string>) returns (ok: bool)
    requires Valid(start) && Valid(m.d) && Thinned(start, m.d, removable) && x in m.d.names && x in removable
    modifies m
    ensures m.Ran() && Valid(m.d) && Thinned(start, m.d, removable)
    ensures ok ==> m.d.names.Keys == old(m.d).names.Keys - {x}
    ensures m.quiet && old(m.alive) ==> ok
  {
    DroppedKeeps(m.d, x);
    ThinnedMore(start, m.d, x, removable);
    ok := m.Syscall(SetEntry(m.d, x, None));
  }

  /** How far the loop over the entries has got: `rest` is still there, all others could go. */
  ghost predicate Clearing(start: Directory, d: Directory, rest: set<string>, removable: set<string>) {
    && Valid(start) && Valid(d) && Thinned(start, d, removable)
    && d.names.Keys == rest <= start.names.Keys
    && start.names.Keys - rest <= removable
  }

  /** Looks at one entry and unlinks it if it may go. */
  method ClearOne(m: Machine, ghost start: Directory, rest: set<string>, x: string, removable: set<string>)
    returns (ok: bool)
    requires Clearing(start, m.d, rest, removable) && x in rest
    modifies m
    ensures m.Ran() && Valid(m.d) && Thinned(start, m.d, removable)
    ensures ok ==> Clearing(start, m.d, rest - {x}, removable)
    ensures m.quiet && old(m.alive) ==> (ok <==> x in removable)
    ensures x in start.names
  {
    ok := m.Syscall(m.d);
    ok := ok && x in removable;
    if ok { ok := DropEntry(m, start, x, removable); }
  }

  lemma ClearedAll(start: Directory, d: Directory, removable: set<string>)
    requires Clearing(start, d, {}, removable)
    ensures d.names == map[] && start.names.Keys <= removable
  {
  }

  /** The entries, one by one; the first that is not a plain artifact of ours stops it. */
  method ClearEntries(m: Machine, removable: set<string>) returns (ok: bool)
    requires Valid(m.d)
    modifies m
    ensures m.Ran() && Valid(m.d) && Thinned(old(m.d), m.d, removable)
    ensures ok ==> m.d.names == map[] && old(m.d).names.Keys <= removable
    ensures m.quiet && old(m.alive) ==> (ok <==> old(m.d).names.Keys <= removable)
  {
    ghost var start := m.d;
    var rest := m.d.names.Keys;
    ThinnedSelf(m.d, removable);
    ok := true;
    while rest != {}
      invariant m.Ran() && Clearing(start, m.d, rest, removable)
      decreases |rest|
    {
      var x :| x in rest;
      ok := ClearOne(m, start, rest, x, removable);
      if !ok { return; }
      rest := rest - {x};
    }
    ClearedAll(start, m.d, removable);
    ok := true;
  }

  /**
   * durableRemoveTree on a directory and its parent. An entry that is not removable
   * survives and makes it fail; the directory itself goes only once its emptiness is
   * durable. True means it is gone; gone for good if it was there, for a directory
   * that was already missing is not synced again.
   */
  method DurableRemoveTree(parent: Machine, name: string, m: Machine, removable: set<string>) returns (ok: bool)
    requires parent != m && Valid(parent.d) && Valid(m.d)
    modifies parent, m
    ensures parent.Ran() && m.Ran() && Valid(parent.d) && Valid(m.d)
    ensures Thinned(old(m.d), m.d, removable) && Unnamed(old(parent.d), parent.d, name)
    ensures parent.d != old(parent.d) ==> m.d.names == map[] && m.d.pending == map[] && old(m.d).names.Keys <= removable
    ensures ok ==> name !in parent.d.names
    ensures ok && name in old(parent.d).names ==>
              m.d.names == map[] && m.d.pending == map[] && parent.d.pending == map[]
    ensures name !in old(parent.d).names ==> parent.d == old(parent.d) && m.d == old(m.d)
    ensures m.quiet && parent.quiet && old(m.alive) && old(parent.alive) ==>
              (ok <==> IsSingleComponent(name)
                       && (name in old(parent.d).names ==> old(m.d).names.Keys <= removable))
  {
    ok := false;
    ThinnedSelf(m.d, removable);
    if !IsSingleComponent(name) { return; }
    var reached := parent.Syscall(parent.d);
    if !reached { return; }
    if name !in parent.d.names { return true; }
    ok := ClearAndSync(m, removable);
    if ok { ok := RemoveEmptied(parent, name); }
  }

  /** From a to b at most the entry `name` went. */
  ghost predicate Unnamed(a: Directory, b: Directory, name: string) {
    b == a || (&& name !in b.names
               && (forall x :: x != name ==> NotWorse(a, b, x))
               && (forall r :: CrashGives(b, name, r) ==> CrashGives(a, name, r) || r == None))
  }

  method ClearAndSync(m: Machine, removable: set<string>) returns (ok: bool)
    requires Valid(m.d)
    modifies m
    ensures m.Ran() && Valid(m.d) && Thinned(old(m.d), m.d, removable)
    ensures ok ==> m.d.names == map[] && m.d.pending == map[] && old(m.d).names.Keys <= removable
    ensures m.quiet && old(m.alive) ==> (ok <==> old(m.d).names.Keys <= removable)
  {
    ok := ClearEntries(m, removable);
    if ok {
      ThinnedSynced(old(m.d), m.d, removable);
      SyncedKeeps(m.d);
      ok := m.Syscall(DirSynced(m.d));
    }
  }

  method RemoveEmptied(parent: Machine, name: string) returns (ok: bool)
    requires Valid(parent.d)
    modifies parent
    ensures parent.Ran() && Valid(parent.d) && Unnamed(old(parent.d), parent.d, name)
    ensures ok ==> name !in parent.d.names && parent.d.pending == map[]
    ensures parent.quiet && old(parent.alive) ==> ok
  {
    ghost var start := parent.d;
    DroppedKeeps(start, name);
    UnnamedSteps(start, name);
    ok := parent.Syscall(SetEntry(parent.d, name, None));
    if ok {
      SyncedKeeps(parent.d);
      ok := parent.Syscall(DirSynced(parent.d));
    }
  }

  lemma UnnamedSteps(d: Directory, name: string)
    requires Valid(d)
    ensures Unnamed(d, SetEntry(d, name, None), name) && Unnamed(d, DirSynced(SetEntry(d, name, None)), name)
  {
    var mid := SetEntry(d, name, None);
    DroppedKeeps(d, name);
    SyncedKeeps(mid);
    forall x | x != name ensures NotWorse(d, DirSynced(mid), x) {
      NotWorseTrans(d, mid, DirSynced(mid), x);
    }
    forall r | CrashGives(mid, name, r) ensures CrashGives(d, name, r) || r == None {
      DropGives(d, name, name, r);
    }
    assert OnDisk(DirSynced(mid), name) == {None};
  }

  /**
   * createAndVerifyDir. A directory that was there is opened and nothing is synced; a
   * new one is durable when the call succeeds, and may be there without being durable
   * when it does not.
   */
  method CreateAndVerifyDir(parent: Machine, name: string, mode: nat) returns (ok: bool)
    requires Valid(parent.d)
    modifies parent
    ensures parent.Ran() && Valid(parent.d)
    ensures forall x :: x != name ==> NotWorse(old(parent.d), parent.d, x)
    ensures ok ==> parent.alive && name in parent.d.names
    ensures name in old(parent.d).names ==> parent.d == old(parent.d)
    ensures ok && name !in old(parent.d).names ==> parent.d.pending == map[]
    ensures parent.d == old(parent.d) || name in parent.d.names
    ensures forall r :: CrashGives(parent.d, name, r) ==> CrashGives(old(parent.d), name, r) || r.Some?
    ensures parent.quiet && old(parent.alive) ==> (ok <==> IsSingleComponent(name))
  {
    ok := false;
    if !IsSingleComponent(name) { return; }
    if name !in parent.d.names {
      ok := MakeDir(parent, name, mode);
      if !ok { return; }
    }
    ok := parent.Syscall(parent.d);
  }

  method MakeDir(parent: Machine, name: string, mode: nat) returns (ok: bool)
    requires Valid(parent.d) && name !in parent.d.names
    modifies parent
    ensures parent.Ran() && Valid(parent.d)
    ensures forall x :: x != name ==> NotWorse(old(parent.d), parent.d, x)
    ensures ok ==> parent.alive && name in parent.d.names && parent.d.pending == map[]
    ensures parent.d == old(parent.d) || name in parent.d.names
    ensures forall r :: CrashGives(parent.d, name, r) ==> CrashGives(old(parent.d), name, r) || r.Some?
    ensures parent.quiet && old(parent.alive) ==> ok
  {
    ghost var start := parent.d;
    CreatedKeeps(start, name, mode);
    ok := parent.Syscall(Created(parent.d, name, mode));
    if ok {
      ghost var mid := parent.d;
      SyncedKeeps(mid);
      ok := parent.Syscall(DirSynced(parent.d));
      forall x | x != name ensures NotWorse(start, parent.d, x) { NotWorseTrans(start, mid, parent.d, x); }
    }
  }
}
