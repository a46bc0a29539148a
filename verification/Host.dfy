/**
 * The primitives the root operations are made of, each with every result it can
 * have: done, refused without effect, or reported as failed after the effect
 * (the rename happened, the directory fsync did not). The process may be killed
 * around any of them; from then on the remaining code has no effect, so the state
 * a method ends in covers every point at which a kill could have struck.
 *
 * Nobody else holds the root lock, but anybody may start and stop triggers and
 * mounts. Around every primitive that looks at or changes the runtime of a name,
 * others may do so at that name; at other names, and around disk primitives, their
 * doings commute with the operation and are events of their own.
 */
module Host {
  import opened Types
  import opened World

  class Host {
    var w: World
    var alive: bool
    const quiet: bool              // a run without faults, kills or other people
    const alone: bool              // a run without other people
    var violations: set<nat>       // foreign triggers stopped without a matching mount to justify it

    constructor (start: World, quiet: bool, alone: bool)
      ensures w == start && alive && this.quiet == quiet && this.alone == alone && violations == {}
    {
      this.w, this.alive, this.quiet, this.alone, this.violations := start, true, quiet, alone, {};
    }

    /** Nobody but this operation touches triggers and mounts. */
    predicate Calm() {
      quiet || alone
    }

    /** What every primitive keeps: the dead do nothing, quiet runs do not die. */
    twostate predicate Ran()
      reads this
    {
      && (alive ==> old(alive))
      && (!old(alive) ==> w == old(w))
      && (quiet && old(alive) ==> alive)
      && violations == old(violations)
    }

    /** The frame of what happens to the runtime of n, by others and by stopping. */
    twostate predicate Touched(n: string)
      reads this
    {
      && (alive ==> old(alive))
      && (!old(alive) ==> w == old(w))
      && (quiet && old(alive) ==> alive)
      && Meddled(old(w), w, n) && (Ids(old(w)) ==> Ids(w))
    }

    /** The frame of a mere observation: only others moved meanwhile. */
    twostate predicate Looked(n: string)
      reads this
    {
      Touched(n) && (Calm() ==> w == old(w)) && violations == old(violations)
    }

    method Moment()
      modifies this`alive
      ensures alive ==> old(alive)
      ensures quiet && old(alive) ==> alive
    {
      var killed: bool := *;
      if !quiet && killed { alive := false; }
    }

    /** Runs one effect: `full` on success, `full` or `half` or nothing on failure. */
    method Attempt(full: World, half: World) returns (ok: bool)
      modifies this
      ensures Ran()
      ensures w == old(w) || w == full || w == half
      ensures ok ==> alive && w == full
      ensures quiet && old(alive) ==> ok
    {
      ok := false;
      Moment();
      if alive {
        var choice: int := *;
        if quiet || choice == 0 {
          w, ok := full, true;
        } else if choice == 1 {
          w := half;
        } else if choice == 2 {
          w := full;
        }
        Moment();
        ok := ok && alive;
      }
    }

    method Fallible() returns (ok: bool)
      modifies this
      ensures Ran() && w == old(w)
      ensures ok ==> alive
      ensures quiet && old(alive) ==> ok
    {
      ok := Attempt(w, w);
    }

    // --- unit files ------------------------------------------------------------

    method WriteUnit(f: File, u: UnitFile) returns (ok: bool)
      modifies this
      ensures Ran()
      ensures w == old(w) || w == PutUnit(old(w), f, u, true) || w == PutUnit(old(w), f, u, false)
      ensures ok ==> alive && w == PutUnit(old(w), f, u, true)
      ensures quiet && old(alive) ==> ok
    {
      ok := Attempt(PutUnit(w, f, u, true), PutUnit(w, f, u, false));
    }

    /** A missing file counts as removed, and then nothing is synced. */
    method RemoveUnit(f: File) returns (ok: bool)
      modifies this
      ensures Ran()
      ensures w == old(w) || w == DropUnit(old(w), f, true) || w == DropUnit(old(w), f, false)
      ensures ok ==> alive && w == if f in old(w).units then DropUnit(old(w), f, true) else old(w)
      ensures quiet && old(alive) ==> ok
    {
      if f in w.units {
        ok := Attempt(DropUnit(w, f, true), DropUnit(w, f, false));
      } else {
        ok := Fallible();
      }
    }

    // --- credential files ----------------------------------------------------------

    /**
     * The secret first goes into a temporary file; when the write does not come to its
     * end, that file may stay, or come back with a power loss.
     */
    method WriteCred(id: string) returns (ok: bool, ghost temp: string)
      modifies this
      ensures Ran()
      ensures Opened(old(w), w, CredentialRoot)
              || w in {Leak(old(w), temp), PutCred(old(w), id, true), PutCred(Leak(old(w), temp), id, false)}
      ensures ok ==> alive && w == PutCred(old(w), id, true)
      ensures quiet && old(alive) ==> ok
    {
      var name: string := *;
      temp := name;
      var dirOk := Attempt(MakeRoot(w, CredentialRoot), HalfRoot(w, CredentialRoot));
      if !dirOk { return false, temp; }
      var before := w;
      var filled := Attempt(Leak(w, name), Leak(w, name));
      if !filled { return false, temp; }
      ok := Attempt(PutCred(before, id, true), PutCred(w, id, false));
    }

    method RemoveCred(id: string) returns (ok: bool)
      modifies this
      ensures Ran()
      ensures Opened(old(w), w, CredentialRoot) || w in {DropCred(old(w), id, true), DropCred(old(w), id, false)}
      ensures ok ==> alive && w == if id in old(w).creds then DropCred(old(w), id, true)
                                   else MakeRoot(old(w), CredentialRoot)
      ensures quiet && old(alive) ==> ok
    {
      var dirOk := Attempt(MakeRoot(w, CredentialRoot), HalfRoot(w, CredentialRoot));
      if !dirOk { return false; }
      if id in w.creds {
        ok := Attempt(DropCred(w, id, true), DropCred(w, id, false));
      } else {
        ok := Fallible();
      }
    }

    /** Opening the credential directory creates it; an unreadable answer is a no. */
    method CredAbsent(id: string) returns (absent: bool)
      modifies this
      ensures Ran()
      ensures Opened(old(w), w, CredentialRoot)
      ensures absent ==> alive && id !in w.creds
      ensures quiet && old(alive) ==> (absent <==> id !in w.creds)
    {
      var dirOk := Attempt(MakeRoot(w, CredentialRoot), HalfRoot(w, CredentialRoot));
      if !dirOk { return false; }
      var read := Fallible();
      absent := read && id !in w.creds;
    }

    method CredHealthy(id: string) returns (healthy: bool)
      modifies this
      ensures Ran()
      ensures Opened(old(w), w, CredentialRoot)
      ensures healthy ==> alive && id in w.creds && id !in w.drifted
      ensures quiet && old(alive) ==> (healthy <==> id in w.creds && id !in w.drifted)
    {
      var dirOk := Attempt(MakeRoot(w, CredentialRoot), HalfRoot(w, CredentialRoot));
      if !dirOk { return false; }
      var read := Fallible();
      healthy := read && id in w.creds && id !in w.drifted;
    }

    // --- recorded ids ------------------------------------------------------------------

    method WriteRecord(n: string, id: nat) returns (ok: bool)
      modifies this
      ensures Ran()
      ensures Opened(old(w), w, RecordRoot) || w == PutRecord(old(w), n, id)
      ensures ok ==> alive && w == PutRecord(old(w), n, id)
      ensures quiet && old(alive) ==> ok
    {
      var dirOk := Attempt(MakeRoot(w, RecordRoot), HalfRoot(w, RecordRoot));
      if !dirOk { return false; }
      ok := Attempt(PutRecord(w, n, id), w);
    }

    method RemoveRecord(n: string) returns (ok: bool)
      modifies this
      ensures Ran()
      ensures Opened(old(w), w, RecordRoot) || w == DropRecord(old(w), n)
      ensures ok ==> alive && w == DropRecord(old(w), n)
      ensures quiet && old(alive) ==> ok
    {
      var dirOk := Attempt(MakeRoot(w, RecordRoot), HalfRoot(w, RecordRoot));
      if !dirOk { return false; }
      ok := Attempt(DropRecord(w, n), w);
    }

    // --- systemd and the kernel ----------------------------------------------------------

    /** systemctl start; starting what runs already, whoever started it, succeeds. */
    method StartAutomount(n: string) returns (ok: bool, ghost before: World)
      modifies this
      ensures Ran()
      ensures Meddled(old(w), before, n) && (Ids(old(w)) ==> Ids(before)) && (Calm() ==> before == old(w))
      ensures w == before || w == Launch(before, n)
      ensures ok ==> alive && w == Launch(before, n)
      ensures quiet && old(alive) ==> ok
    {
      Traffic(n);
      before := w;
      ok := Attempt(Launch(w, n), w);
    }

    /** Stopping the mount unit unmounts whatever is mounted at its path. */
    method StopMount(n: string) returns (ok: bool)
      modifies this
      ensures Touched(n) && violations == old(violations)
      ensures ok ==> alive && n !in w.covers
      ensures Calm() ==> w == old(w) || w == Unmounted(old(w), n)
      ensures quiet && old(alive) ==> ok
    {
      Traffic(n);
      ok := Attempt(Unmounted(w, n), w);
    }

    /**
     * A reported stop means inactive. Stopping somebody else's trigger is a
     * violation unless a mount of the expected share was seen on it (`justified`).
     */
    method StopAutomount(n: string, justified: bool) returns (ok: bool)
      modifies this
      ensures Touched(n)
      ensures ok ==> alive && n !in w.live
      ensures old(violations) <= violations && (justified ==> violations == old(violations))
      ensures forall x :: x in violations && x !in old(violations) ==>
                x in w.foreign && (x >= old(w).nextId || (n in old(w).live && x == old(w).live[n]))
      ensures Calm() ==> w == old(w) || w == Halt(old(w), n)
      ensures var hit := if old(n in w.live && w.live[n] in w.foreign) && n !in w.live && !justified
                         then {old(w.live[n])} else {};
              Calm() ==> violations == old(violations) + hit
      ensures quiet && old(alive) ==> ok
    {
      Traffic(n);
      var before := w;
      ok := Attempt(Halt(w, n), w);
      if n in before.live && before.live[n] in before.foreign && n !in w.live && !justified {
        violations := violations + {before.live[n]};
      }
    }

    /** One thing somebody else does at n: walk in, leave, stop the trigger, start one. */
    method OneMove(n: string)
      modifies this`w
      ensures Meddled(old(w), w, n) && (Ids(old(w)) ==> Ids(w))
    {
      var choice: int := *;
      var source: Option<string> := *;
      if choice == 0 {
        w := Unmounted(w, n);
      } else if choice == 1 {
        w := w.(covers := w.covers[n := Cover(w.nextId, source)], nextId := w.nextId + 1);
      } else if choice == 2 {
        w := Halt(w, n);
      } else if n !in w.live {
        w := w.(live := w.live[n := w.nextId], foreign := w.foreign + {w.nextId}, nextId := w.nextId + 1);
      }
    }

    /** Any number of such things, as long as this process lives. */
    method Traffic(n: string)
      modifies this`w
      ensures Meddled(old(w), w, n) && (Ids(old(w)) ==> Ids(w))
      ensures Calm() || !alive ==> w == old(w)
    {
      var moves: int := *;
      if !Calm() && alive && moves > 0 {
        for i := 0 to moves
          invariant Meddled(old(w), w, n) && (Ids(old(w)) ==> Ids(w))
        {
          MovesOn(n, old(w));
        }
      }
    }

    method MovesOn(n: string, ghost start: World)
      requires Meddled(start, w, n)
      modifies this`w
      ensures Meddled(start, w, n) && (Ids(old(w)) ==> Ids(w))
    {
      ghost var mid := w;
      OneMove(n);
      MeddledTrans(start, mid, w, n);
    }

    /** systemctl show, which others may outrun. */
    method ShowAutomount(n: string) returns (state: AutomountState)
      modifies this
      ensures Looked(n)
      ensures state == Active ==> alive && n in w.live
      ensures state == Inactive ==> alive && n !in w.live
      ensures quiet && old(alive) ==> state == if n in w.live then Active else Inactive
    {
      Moment();
      Traffic(n);
      var shown := Fallible();
      state := if !shown then AutomountIndeterminate else if n in w.live then Active else Inactive;
    }

    /** The mount table's top entry over the trigger; None when the table cannot be read. */
    method ReadMount(n: string) returns (seen: Option<Option<Cover>>)
      modifies this
      ensures Looked(n)
      ensures seen.Some? ==> alive && seen.value == if n in w.covers then Some(w.covers[n]) else None
      ensures quiet && old(alive) ==> seen.Some?
    {
      Moment();
      Traffic(n);
      var read := Fallible();
      seen := if !read then None else Some(if n in w.covers then Some(w.covers[n]) else None);
    }

    /** statx on the path: the topmost mount there, or 0 when the kernel will not say. */
    method UniqueMountId(n: string) returns (id: nat)
      modifies this
      ensures Looked(n)
      ensures id != 0 ==> alive && id == TopId(w, n)
      ensures quiet && old(alive) ==> id == TopId(w, n)
    {
      id := 0;
      Moment();
      Traffic(n);
      var known := Fallible();
      if known { id := TopId(w, n); }
    }
  }

  function TopId(w: World, n: string): nat {
    if n in w.covers then w.covers[n].id else if n in w.live then w.live[n] else w.baseId
  }

  /** What an undisturbed look at n shows, given the address that is expected there. */
  function Reading(w: World, n: string, what: string): Snapshot {
    Snapshot(
      if n in w.live then Active else Inactive,
      if n in w.covers then Present else Absent,
      if n !in w.covers then NotApplicable else if w.covers[n].source == Some(what) then Match else Mismatch,
      if n !in w.live then TrustNotApplicable
      else if n in w.records && w.records[n] != 0 && w.records[n] == TopId(w, n) then Trusted else Untrusted)
  }

  function Unmounted(w: World, n: string): World {
    w.(covers := w.covers - {n})
  }
}
