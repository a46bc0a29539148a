/**
 * define and remove (src/root/operations.cpp), with the gate their callers apply
 * under the same lock (src/helper/helper.cpp).
 */
module Operations {
  import opened Types
  import opened World
  import opened Host
  import opened Disk
  import opened Trigger
  import UnitValue

  /** `candidates` are the ids the random source draws; `walkOk` is the mount-point walk's verdict. */
  datatype DefineInput = DefineInput(
    name: string,
    uid: nat,
    gid: nat,
    unc: string,
    authentication: Authentication,
    access: Access,
    walkOk: bool,
    candidates: seq<string>)

  datatype DefineOutput = DefineOutput(
    ok: bool,
    id: string,
    retained: bool,        // the started trigger could not be proven stopped
    credentialKept: bool,  // the credential could not be removed again
    cleanupFailed: bool)   // some step of the cleanup failed

  /** Both unit files can be generated: their only values that may be refused are the address and the mount point. */
  predicate Encodable(input: DefineInput) {
    UnitValue.EncodeUnitValue(input.unc).Some? && UnitValue.EncodeUnitValue(input.name).Some?
  }

  function NewMarker(input: DefineInput, id: string): Marker {
    Marker(input.uid, input.gid, id, input.authentication, input.access)
  }

  function NewHalf(input: DefineInput, id: string, half: Half): UnitFile {
    var what := if half == MountHalf then input.unc else "";
    var places := Places(input.name, what, Some(Body(input.name, what)));
    UnitFile(Marked(NewMarker(input, id), Some(places)), true, true, true, 0)
  }

  ghost predicate IdInUse(w: World, id: string) {
    id in w.creds || Carried(w.units, id)
  }

  predicate FileCarries(units: map<File, UnitFile>, id: string) {
    exists f | f in units :: Carries(units[f], id)
  }

  /** At most eight draws; each must be unknown to every credential and every marker. */
  method GenerateUniqueShareId(h: Host, candidates: seq<string>) returns (id: Option<string>)
    requires |candidates| == 8 && Inv(h.w)
    modifies h
    ensures h.Ran() && Inv(h.w)
    ensures Opened(old(h.w), h.w, CredentialRoot)
    ensures id.Some? ==> h.alive && id.value in candidates && !IdInUse(h.w, id.value)
    ensures h.quiet && old(h.alive) ==>
              (id.None? <==> forall c :: c in candidates ==> IdInUse(h.w, c))
  {
    id := None;
    for attempt := 0 to 8
      invariant h.Ran() && Inv(h.w)
      invariant Opened(old(h.w), h.w, CredentialRoot)
      invariant id.None?
      invariant h.quiet && old(h.alive) ==> forall k :: 0 <= k < attempt ==> IdInUse(h.w, candidates[k])
    {
      ghost var before := h.w;
      var absent := h.CredAbsent(candidates[attempt]);
      OpenedKeeps(before, h.w, CredentialRoot);
      if absent && !FileCarries(h.w.units, candidates[attempt]) {
        return Some(candidates[attempt]);
      }
    }
  }

  /** Operations on the disk leave the runtime alone. */
  twostate predicate DiskFrame(h: Host)
    reads h
  {
    h.Ran() && DiskOnly(old(h.w), h.w)
  }

  /** Neither half of n exists yet and id is nobody's. */
  ghost predicate Fresh(w: World, n: string, id: string, durably: bool) {
    && (forall f: File :: f in w.units ==> f.name != n)
    && id !in w.creds && (durably ==> id !in w.maybeCreds)
    && Loose(w, n)
  }

  /** Every file of n on disk is one this call wrote. */
  ghost predicate OnlyNew(w: World, input: DefineInput, id: string) {
    forall f :: f in w.units && f.name == input.name ==> w.units[f] == NewHalf(input, id, f.half)
  }

  predicate BothNew(units: map<File, UnitFile>, input: DefineInput, id: string) {
    && BothHalves(units, input.name)
    && units[File(input.name, MountHalf)] == NewHalf(input, id, MountHalf)
    && units[File(input.name, AutomountHalf)] == NewHalf(input, id, AutomountHalf)
  }

  /** Every power-loss image has both halves and, if it has the credential root, the credential. */
  predicate DurablyThere(w: World, input: DefineInput, id: string) {
    BothNew(w.sureUnits, input, id) && (input.authentication == Credentials ==> id in w.sureCreds)
  }

  /** Units first, so that an interrupted call never leaves an unindexed secret. */
  method WriteUnits(h: Host, input: DefineInput, id: string, ghost durably: bool)
    returns (ok: bool, automountMayExist: bool)
    requires Inv(h.w) && Fresh(h.w, input.name, id, durably)
    modifies h
    ensures Inv(h.w) && DiskFrame(h) && OnlyDefinition(old(h.w), h.w, input.name, id)
    ensures h.w.creds == old(h.w).creds && h.w.maybeCreds == old(h.w).maybeCreds && h.w.drifted == old(h.w).drifted
    ensures h.w.records == old(h.w).records && h.w.temps == old(h.w).temps
    ensures OnlyNew(h.w, input, id)
    ensures !automountMayExist ==> File(input.name, AutomountHalf) !in h.w.units
    ensures ok ==> h.alive && automountMayExist && BothNew(h.w.units, input, id)
                   && BothNew(h.w.sureUnits, input, id)
    ensures h.quiet && old(h.alive) ==> ok
  {
    automountMayExist := false;
    ok := WriteHalf(h, input, id, MountHalf);
    if ok {
      automountMayExist := true;
      ghost var mid := h.w;
      ok := WriteHalf(h, input, id, AutomountHalf);
      OnlyDefinitionTrans(old(h.w), mid, h.w, input.name, id);
    }
  }

  method WriteHalf(h: Host, input: DefineInput, id: string, half: Half) returns (ok: bool)
    requires Inv(h.w)
    modifies h
    ensures Inv(h.w) && h.Ran() && OnlyDefinition(old(h.w), h.w, input.name, id)
    ensures h.w == old(h.w).(units := h.w.units, sureUnits := h.w.sureUnits, maybeUnits := h.w.maybeUnits)
    ensures var f, u := File(input.name, half), NewHalf(input, id, half);
            && (h.w.units == old(h.w).units || h.w.units == old(h.w).units[f := u])
            && (ok ==> h.alive && h.w.units == old(h.w).units[f := u] && h.w.sureUnits == h.w.units)
    ensures h.quiet && old(h.alive) ==> ok
  {
    var f, u := File(input.name, half), NewHalf(input, id, half);
    PutUnitKeeps(h.w, f, u, true, id);
    PutUnitKeeps(h.w, f, u, false, id);
    ok := h.WriteUnit(f, u);
  }

  /** Then the credential, or the proof that a guest has none; then the reload. */
  method WriteSecret(h: Host, input: DefineInput, id: string, ghost durably: bool)
    returns (ok: bool, credentialMayExist: bool)
    requires Inv(h.w) && id !in h.w.creds && (durably ==> id !in h.w.maybeCreds)
    requires BothNew(h.w.units, input, id) && BothNew(h.w.sureUnits, input, id)
    modifies h
    ensures Inv(h.w) && DiskFrame(h)
    ensures h.w.units == old(h.w).units && h.w.sureUnits == old(h.w).sureUnits && h.w.maybeUnits == old(h.w).maybeUnits
    ensures h.w.records == old(h.w).records && OneTempMore(old(h.w), h.w)
    ensures h.w.maybeCreds - {id} <= old(h.w).maybeCreds && (durably ==> Clean(h.w, id))
    ensures ok ==> CredFits(h.w, id, input.authentication)
    ensures old(h.w).sureCreds - {id} <= h.w.sureCreds
    ensures ok && input.authentication == Credentials ==> id in h.w.sureCreds
    ensures credentialMayExist <==> input.authentication == Credentials
    ensures !credentialMayExist ==> id !in h.w.creds
    ensures h.w.creds == old(h.w).creds || h.w.creds == old(h.w).creds + {id}
    ensures ok ==> h.alive && h.w.creds == old(h.w).creds + if input.authentication == Credentials then {id} else {}
    ensures h.quiet && old(h.alive) ==> ok
  {
    credentialMayExist := input.authentication == Credentials;
    ok := StoreOrAssert(h, id, credentialMayExist, durably);
    if ok {
      ok := h.Fallible();
    }
  }

  method StoreOrAssert(h: Host, id: string, authenticated: bool, ghost durably: bool) returns (ok: bool)
    requires Inv(h.w) && id !in h.w.creds && (durably ==> id !in h.w.maybeCreds)
    modifies h
    ensures Inv(h.w) && h.Ran()
    ensures SecretFrame(old(h.w), h.w) && OneTempMore(old(h.w), h.w)
    ensures old(h.w).sureCreds - {id} <= h.w.sureCreds && (ok && authenticated ==> id in h.w.sureCreds)
    ensures h.w.maybeCreds - {id} <= old(h.w).maybeCreds && (durably ==> Clean(h.w, id))
    ensures ok && authenticated ==> id !in h.w.drifted
    ensures h.w.creds == old(h.w).creds || (authenticated && h.w.creds == old(h.w).creds + {id})
    ensures ok ==> h.alive && h.w.creds == old(h.w).creds + if authenticated then {id} else {}
    ensures h.quiet && old(h.alive) ==> ok
  {
    if authenticated {
      ok := StoreSecret(h, id);
    } else {
      ghost var before := h.w;
      ok := h.CredAbsent(id);
      OpenedKeeps(before, h.w, CredentialRoot);
    }
  }

  /** CredentialStore::write for an id that is nobody's. */
  method StoreSecret(h: Host, id: string) returns (ok: bool)
    requires Inv(h.w) && id !in h.w.creds
    modifies h
    ensures h.Ran() && MaybeWritten(old(h.w), h.w, id)
    ensures ok ==> h.alive && h.w.creds == old(h.w).creds + {id} && id in h.w.sureCreds && id !in h.w.drifted
    ensures h.quiet && old(h.alive) ==> ok
  {
    ghost var before := h.w;
    ghost var temp;
    ok, temp := h.WriteCred(id);
    if Opened(before, h.w, CredentialRoot) { OpenedKeeps(before, h.w, CredentialRoot); }
    LeakedKeeps(before, id, temp);
    InstalledKeeps(before, id);
    UnsyncedKeeps(before, id, temp);
  }

  /** What a write that got past the directory may have done, whether it said so or not. */
  ghost predicate MaybeWritten(a: World, b: World, id: string) {
    && Inv(b) && SecretFrame(a, b) && OneTempMore(a, b)
    && (b.creds == a.creds || b.creds == a.creds + {id})
    && b.maybeCreds - {id} <= a.maybeCreds && a.sureCreds - {id} <= b.sureCreds
    && (id in b.maybeCreds && id !in a.maybeCreds ==> id in b.creds)
  }

  lemma LeakedKeeps(a: World, id: string, temp: string)
    requires Inv(a)
    ensures MaybeWritten(a, Leak(a, temp), id)
  {
    LeakKeeps(a, temp);
    var b := Leak(a, temp);
    assert b.creds == a.creds && b.maybeCreds == a.maybeCreds && b.sureCreds == a.sureCreds;
    assert b.temps == a.temps + {temp};
  }

  lemma InstalledKeeps(a: World, id: string)
    requires Inv(a) && id !in a.creds
    ensures MaybeWritten(a, PutCred(a, id, true), id)
  {
    PutCredKeeps(a, id, true);
    var b := PutCred(a, id, true);
    assert b.creds == a.creds + {id} && b.maybeCreds == b.creds && b.sureCreds == b.creds && b.temps == a.temps;
  }

  lemma UnsyncedKeeps(a: World, id: string, temp: string)
    requires Inv(a) && id !in a.creds
    ensures MaybeWritten(a, PutCred(Leak(a, temp), id, false), id)
  {
    var mid := Leak(a, temp);
    LeakKeeps(a, temp);
    PutCredKeeps(mid, id, false);
    var b := PutCred(mid, id, false);
    SecretFrameTrans(a, mid, b);
    assert b.creds == a.creds + {id} && b.maybeCreds == a.maybeCreds + {id} && b.sureCreds == a.sureCreds - {id};
    assert b.temps == a.temps + {temp};
  }

  lemma GrowTrans(a: World, b: World, c: World)
    requires RootsGrow(a, b) && RootsGrow(b, c)
    ensures RootsGrow(a, c)
  {
  }

  /** removeUnitFile, once no trigger of ours depends on the definition any more. */
  method RemoveHalf(h: Host, f: File, ghost id: string) returns (ok: bool)
    requires Inv(h.w) && Loose(h.w, f.name)
    modifies h
    ensures Inv(h.w) && h.Ran() && OnlyDefinition(old(h.w), h.w, f.name, id)
    ensures h.w == old(h.w).(units := h.w.units, sureUnits := h.w.sureUnits, maybeUnits := h.w.maybeUnits)
    ensures h.w.units == old(h.w).units || h.w.units == old(h.w).units - {f}
    ensures ok ==> h.alive && h.w.units == old(h.w).units - {f}
                   && h.w.sureUnits == (if f in old(h.w).units then h.w.units else old(h.w).sureUnits)
                   && h.w.maybeUnits == (if f in old(h.w).units then h.w.units.Keys else old(h.w).maybeUnits)
    ensures h.w.maybeUnits <= old(h.w).maybeUnits
    ensures ok && f !in old(h.w).units ==> h.w == old(h.w)
    ensures h.quiet && old(h.alive) ==> ok
  {
    DropUnitKeeps(h.w, f, true, id);
    DropUnitKeeps(h.w, f, false, id);
    ok := h.RemoveUnit(f);
    assert f !in old(h.w).units ==> old(h.w).units - {f} == old(h.w).units;
  }

  /** Removes the unit files this call may have left; best effort, each step checked. */
  method CleanupUnits(h: Host, n: string, automountMayExist: bool, ghost id: string) returns (failed: bool)
    requires Inv(h.w) && Loose(h.w, n)
    requires !automountMayExist ==> File(n, AutomountHalf) !in h.w.units
    modifies h
    ensures Inv(h.w) && h.Ran() && OnlyDefinition(old(h.w), h.w, n, id)
    ensures h.w == old(h.w).(units := h.w.units, sureUnits := h.w.sureUnits, maybeUnits := h.w.maybeUnits)
    ensures h.alive && !failed ==> h.w.units == old(h.w).units - {File(n, MountHalf), File(n, AutomountHalf)}
    ensures h.quiet && old(h.alive) ==> !failed
  {
    var dirOk := h.Fallible();
    if !dirOk { return true; }
    failed := false;
    if automountMayExist {
      var removed := RemoveHalf(h, File(n, AutomountHalf), id);
      failed := !removed;
    }
    ghost var mid := h.w;
    var removed := RemoveHalf(h, File(n, MountHalf), id);
    failed := failed || !removed;
    OnlyDefinitionTrans(old(h.w), mid, h.w, n, id);
  }

  /** CredentialStore::remove; the definition keeps leading to whatever is left. */
  method RemoveSecret(h: Host, id: string, ghost durably: bool) returns (ok: bool)
    requires Inv(h.w) && LeadNow(h.w, id) && (durably ==> LeadDurably(h.w, id))
    modifies h
    ensures Inv(h.w) && h.Ran() && LeadNow(h.w, id) && (durably ==> LeadDurably(h.w, id))
    ensures SecretFrame(old(h.w), h.w) && h.w.drifted == old(h.w).drifted && h.w.temps == old(h.w).temps
    ensures old(h.w).sureCreds - {id} <= h.w.sureCreds
    ensures h.w.creds == old(h.w).creds || h.w.creds == old(h.w).creds - {id}
    ensures h.w.maybeCreds - {id} <= old(h.w).maybeCreds - {id}
    ensures ok ==> h.alive && h.w.creds == old(h.w).creds - {id}
    ensures ok ==> (id in h.w.maybeCreds <==> !Clean(old(h.w), id))
    ensures h.quiet && old(h.alive) ==> ok
  {
    ghost var before := h.w;
    DropCredKeeps(h.w, id, true);
    DropCredKeeps(h.w, id, false);
    ok := h.RemoveCred(id);
    if Opened(before, h.w, CredentialRoot) { OpenedKeeps(before, h.w, CredentialRoot); }
    assert id !in before.creds ==> before.creds - {id} == before.creds;
  }

  /** The on-disk half of the compensation: the credential first, and only then its unit files. */
  method CleanupDisk(h: Host, n: string, id: string, credentialMayExist: bool, automountMayExist: bool,
                 ghost durably: bool)
    returns (credentialKept: bool, failed: bool)
    requires Inv(h.w) && Loose(h.w, n)
    requires !automountMayExist ==> File(n, AutomountHalf) !in h.w.units
    requires !credentialMayExist ==> id !in h.w.creds
    requires LeadNow(h.w, id) && (durably ==> Clean(h.w, id) && LeadDurably(h.w, id))
    modifies h
    ensures Inv(h.w) && DiskFrame(h) && OnlyDefinition(old(h.w), h.w, n, id)
    ensures h.w.records == old(h.w).records && h.w.temps == old(h.w).temps
    ensures LeadNow(h.w, id) && (durably ==> LeadDurably(h.w, id))
    ensures h.w.creds == old(h.w).creds || h.w.creds == old(h.w).creds - {id}
    ensures credentialKept ==> failed && credentialMayExist && h.w.units == old(h.w).units
    ensures h.alive && !failed ==> h.w.units == old(h.w).units - {File(n, MountHalf), File(n, AutomountHalf)}
                                   && h.w.creds == old(h.w).creds - {id}
    ensures h.quiet && old(h.alive) ==> !failed
  {
    credentialKept := false;
    if credentialMayExist {
      var removed := RemoveSecret(h, id, durably);
      credentialKept := !removed;
    }
    SecretOnly(old(h.w), h.w, n, id);
    failed := credentialKept;
    if !credentialKept {
      ghost var mid := h.w;
      failed := CleanupUnits(h, n, automountMayExist, id);
      OnlyDefinitionTrans(old(h.w), mid, h.w, n, id);
    }
  }

  /**
   * define's compensation. While the credential may still exist the unit files stay,
   * so that it remains discoverable. Every call comes after the mount half was
   * attempted, which is why only the automount half needs a flag.
   */
  method Cleanup(h: Host, n: string, id: string, credentialMayExist: bool, automountMayExist: bool,
                 ghost durably: bool)
    returns (credentialKept: bool, failed: bool)
    requires Inv(h.w) && Loose(h.w, n)
    requires !automountMayExist ==> File(n, AutomountHalf) !in h.w.units
    requires !credentialMayExist ==> id !in h.w.creds
    requires LeadNow(h.w, id) && (durably ==> Clean(h.w, id) && LeadDurably(h.w, id))
    modifies h
    ensures Inv(h.w) && DiskFrame(h) && OnlyDefinition(old(h.w), h.w, n, id)
    ensures LeadNow(h.w, id) && (durably ==> LeadDurably(h.w, id))
    ensures h.w.creds == old(h.w).creds || h.w.creds == old(h.w).creds - {id}
    ensures h.w.records == old(h.w).records || h.w.records == old(h.w).records - {n}
    ensures h.w.temps == old(h.w).temps
    ensures credentialKept ==> failed && credentialMayExist && h.w.units == old(h.w).units
    ensures h.alive && !failed ==> h.w.units == old(h.w).units - {File(n, MountHalf), File(n, AutomountHalf)}
                                   && h.w.creds == old(h.w).creds - {id} && h.w.records == old(h.w).records - {n}
    ensures h.quiet && old(h.alive) ==> !failed
  {
    credentialKept, failed := CleanupDisk(h, n, id, credentialMayExist, automountMayExist, durably);
    var removed := DropRecordOf(h, n);
    var reloaded := true;
    if !credentialKept {
      reloaded := h.Fallible();
    }
    failed := failed || !removed || !reloaded;
  }

  /** Nothing of the new definition left means everything is as it was. */
  lemma Restored(a: World, mid: World, b: World, n: string, id: string, durably: bool)
    requires Fresh(a, n, id, durably) && OnlyDefinition(a, mid, n, id)
    requires b.units == mid.units - {File(n, MountHalf), File(n, AutomountHalf)}
    requires b.creds == mid.creds - {id}
    ensures b.units == a.units && b.creds == a.creds
  {
    forall f ensures f in b.units <==> f in a.units {
      if f.name == n { match f { case File(_, MountHalf) => case File(_, AutomountHalf) => } }
    }
    assert a.creds == a.creds - {id};
  }

  /** Everything define may touch: the files of n, one credential, and what arming n may touch. */
  ghost predicate DefineFrame(a: World, b: World, n: string) {
    ArmFrame(a, b.(units := a.units, sureUnits := a.sureUnits, maybeUnits := a.maybeUnits, creds := a.creds,
                   maybeCreds := a.maybeCreds, sureCreds := a.sureCreds, drifted := a.drifted, temps := a.temps), n)
  }

  ghost predicate DiskOnly(a: World, b: World) {
    && b == a.(units := b.units, sureUnits := b.sureUnits, maybeUnits := b.maybeUnits, creds := b.creds,
               maybeCreds := b.maybeCreds, sureCreds := b.sureCreds, drifted := b.drifted, temps := b.temps,
               records := b.records, roots := b.roots, sureRoots := b.sureRoots, maybeRoots := b.maybeRoots)
    && RootsGrow(a, b)
  }

  lemma DiskThenArm(a: World, mid: World, b: World, n: string)
    requires DiskOnly(a, mid) && mid.records - {n} == a.records - {n} && ArmFrame(mid, b, n)
    ensures DefineFrame(a, b, n)
  {
  }

  lemma ArmThenDisk(a: World, mid: World, b: World, n: string)
    requires DiskOnly(mid, b) && b.records - {n} == mid.records - {n} && DefineFrame(a, mid, n)
    ensures DefineFrame(a, b, n)
  {
  }

  /** Both halves, then the secret. */
  method WriteDefinition(h: Host, input: DefineInput, id: string, ghost durably: bool)
    returns (ok: bool, credentialMayExist: bool, automountMayExist: bool)
    requires Inv(h.w) && Fresh(h.w, input.name, id, durably)
    modifies h
    ensures Inv(h.w) && DiskFrame(h) && OnlyDefinition(old(h.w), h.w, input.name, id)
    ensures h.w.records == old(h.w).records && OneTempMore(old(h.w), h.w)
    ensures ok ==> CredFits(h.w, id, input.authentication) && DurablyThere(h.w, input, id)
    ensures OnlyNew(h.w, input, id)
    ensures LeadNow(h.w, id) && (durably ==> Clean(h.w, id) && LeadDurably(h.w, id))
    ensures !automountMayExist ==> File(input.name, AutomountHalf) !in h.w.units
    ensures !credentialMayExist ==> id !in h.w.creds
    ensures ok || credentialMayExist ==> BothNew(h.w.units, input, id)
    ensures ok ==> h.alive && automountMayExist
                   && (credentialMayExist <==> input.authentication == Credentials)
                   && h.w.creds == old(h.w).creds + if input.authentication == Credentials then {id} else {}
    ensures h.quiet && old(h.alive) ==> ok
  {
    credentialMayExist := false;
    ok, automountMayExist := WriteUnits(h, input, id, durably);
    if ok {
      ghost var mid := h.w;
      ok, credentialMayExist := WriteSecret(h, input, id, durably);
      SecretOnly(mid, h.w, input.name, id);
      OnlyDefinitionTrans(old(h.w), mid, h.w, input.name, id);
      NewHalvesLead(h.w, input, id);
    }
  }

  lemma NewHalvesLead(w: World, input: DefineInput, id: string)
    requires BothNew(w.units, input, id) && BothNew(w.sureUnits, input, id)
    ensures LeadNow(w, id) && LeadDurably(w, id)
  {
    var f := File(input.name, MountHalf);
    assert Carries(w.units[f], id) && Carries(w.sureUnits[f], id);
  }

  /**
   * A failed call that cleaned up: nothing of ours runs, and unless a step of the cleanup
   * failed, units, credentials and records are what they were but for a stale record of
   * that very name.
   */
  twostate predicate Undone(h: Host, input: DefineInput, id: string, out: DefineOutput)
    reads h
  {
    UndoneFrom(old(h.w), h, input, id, out)
  }

  ghost predicate UndoneFrom(start: World, h: Host, input: DefineInput, id: string, out: DefineOutput)
    reads h
  {
    && (h.alive ==> Loose(h.w, input.name) && (h.Calm() ==> h.w.live == start.live))
    && (h.alive && !out.cleanupFailed ==>
          h.w.units == start.units && h.w.creds == start.creds
          && h.w.records in {start.records, start.records - {input.name}})
    && (out.credentialKept ==> out.cleanupFailed && BothNew(h.w.units, input, id))
  }

  /**
   * The call succeeded: both halves, the credential iff authenticated, all of it durable,
   * and on record is what it read. Left alone, that is a trigger it started.
   */
  twostate predicate Defined(h: Host, input: DefineInput, id: string)
    reads h
  {
    && BothNew(h.w.units, input, id) && DurablyThere(h.w, input, id)
    && h.w.creds == old(h.w).creds + (if input.authentication == Credentials then {id} else {})
    && OnRecord(h.w, input.name) && Since(old(h.w), h.w, input.name)
    && (h.Calm() ==> StartedHere(h, input.name) && Recorded(h.w, input.name))
  }

  /** define, from the point where the share id is known to be free. */
  method DefineFresh(h: Host, input: DefineInput, id: string, ghost durably: bool) returns (out: DefineOutput)
    requires Inv(h.w) && Fresh(h.w, input.name, id, durably)
    modifies h
    ensures Inv(h.w) && Lived(h) && DefineFrame(old(h.w), h.w, input.name) && OnlyHits(h, {})
    ensures OnlyDefinition(old(h.w), h.w, input.name, id) && OneTempMore(old(h.w), h.w)
    ensures LeadNow(h.w, id) && (durably ==> LeadDurably(h.w, id))
    ensures h.Calm() ==> h.w.covers == old(h.w).covers && h.w.foreign == old(h.w).foreign
    ensures out.id == id
    ensures out.ok ==> h.alive && Defined(h, input, id)
    ensures out.retained ==> BothNew(h.w.units, input, id)
    ensures !out.ok && !out.retained ==> Undone(h, input, id, out)
    ensures h.quiet && old(h.alive) ==>
              (out.ok <==> input.name !in old(h.w).live && input.name !in old(h.w).covers && input.walkOk)
  {
    var n := input.name;
    ghost var start := h.w;
    var written, credentialMayExist, automountMayExist := WriteDefinition(h, input, id, durably);
    if !written {
      DiskIsDefineFrame(start, h.w, n);
      out := TakeBack(h, start, input, id, credentialMayExist, automountMayExist, durably);
      return;
    }
    out := ArmWritten(h, input, id, credentialMayExist, start, durably);
  }

  /** Both halves and the secret stand; now arm, and take everything back if that fails for certain. */
  method ArmWritten(h: Host, input: DefineInput, id: string, credentialMayExist: bool, ghost start: World,
                    ghost durably: bool)
    returns (out: DefineOutput)
    requires Inv(h.w) && Fresh(start, input.name, id, durably) && Loose(h.w, input.name)
    requires DiskOnly(start, h.w) && start.records == h.w.records && OnlyDefinition(start, h.w, input.name, id)
    requires BothNew(h.w.units, input, id) && (credentialMayExist <==> input.authentication == Credentials)
    requires h.w.creds == start.creds + if input.authentication == Credentials then {id} else {}
    requires CredFits(h.w, id, input.authentication) && DurablyThere(h.w, input, id)
    requires LeadNow(h.w, id) && (durably ==> Clean(h.w, id) && LeadDurably(h.w, id))
    modifies h
    ensures Inv(h.w) && Lived(h) && DefineFrame(start, h.w, input.name) && OnlyHits(h, {})
    ensures OnlyDefinition(start, h.w, input.name, id) && h.w.temps == old(h.w).temps
    ensures LeadNow(h.w, id) && (durably ==> LeadDurably(h.w, id))
    ensures h.Calm() ==> h.w.covers == old(h.w).covers && h.w.foreign == old(h.w).foreign
    ensures out.id == id
    ensures out.ok ==> h.alive && BothNew(h.w.units, input, id) && h.w.creds == old(h.w).creds
                       && DurablyThere(h.w, input, id) && OnRecord(h.w, input.name) && Since(old(h.w), h.w, input.name)
                       && (h.Calm() ==> StartedHere(h, input.name) && Recorded(h.w, input.name))
    ensures out.retained ==> BothNew(h.w.units, input, id)
    ensures !out.ok && !out.retained ==> UndoneFrom(start, h, input, id, out)
    ensures h.quiet && old(h.alive) ==>
              (out.ok <==> input.name !in old(h.w).live && input.name !in old(h.w).covers && input.walkOk)
  {
    var armed := ArmDefined(h, input, id, start);
    out := Settle(h, input, id, armed, credentialMayExist, start, durably);
  }

  /** Success, a definition that has to stay because its trigger may run, or everything taken back. */
  method Settle(h: Host, input: DefineInput, id: string, armed: ArmResult, credentialMayExist: bool,
                ghost start: World, ghost durably: bool)
    returns (out: DefineOutput)
    requires Inv(h.w) && Fresh(start, input.name, id, durably) && OnlyDefinition(start, h.w, input.name, id)
    requires DefineFrame(start, h.w, input.name) && BothNew(h.w.units, input, id)
    requires !credentialMayExist ==> id !in h.w.creds
    requires LeadNow(h.w, id) && (durably ==> Clean(h.w, id) && LeadDurably(h.w, id))
    requires h.alive && armed.outcome == NeedsAttention && armed.cleanupSafe ==>
               Loose(h.w, input.name) && (h.Calm() ==> h.w.live == start.live)
    modifies h
    ensures Inv(h.w) && DiskFrame(h) && DefineFrame(start, h.w, input.name)
    ensures OnlyDefinition(start, h.w, input.name, id) && h.w.temps == old(h.w).temps
    ensures LeadNow(h.w, id) && (durably ==> LeadDurably(h.w, id))
    ensures out.id == id && (out.ok <==> armed.outcome != NeedsAttention)
    ensures out.ok || out.retained ==> h.w == old(h.w) && h.alive == old(h.alive)
    ensures !out.ok && !out.retained ==> UndoneFrom(start, h, input, id, out)
  {
    if armed.outcome != NeedsAttention {
      return DefineOutput(true, id, false, false, false);
    }
    if !armed.cleanupSafe {
      return DefineOutput(false, id, true, false, false);
    }
    out := TakeBack(h, start, input, id, credentialMayExist, true, durably);
  }

  /** armShare for the definition just written, seen from before the call. */
  method ArmDefined(h: Host, input: DefineInput, id: string, ghost start: World) returns (r: ArmResult)
    requires Inv(h.w) && BothNew(h.w.units, input, id) && Loose(h.w, input.name)
    requires DiskOnly(start, h.w) && start.records == h.w.records
    requires CredFits(h.w, id, input.authentication)
    modifies h
    ensures Inv(h.w) && Lived(h) && OnlyHits(h, {}) && DefineFrame(start, h.w, input.name)
    ensures h.w.units == old(h.w).units && h.w.sureUnits == old(h.w).sureUnits && h.w.maybeUnits == old(h.w).maybeUnits
    ensures h.w.creds == old(h.w).creds && h.w.maybeCreds == old(h.w).maybeCreds && h.w.temps == old(h.w).temps
    ensures h.w.sureCreds == old(h.w).sureCreds
    ensures h.Calm() ==> h.w.covers == old(h.w).covers && h.w.foreign == old(h.w).foreign
    ensures r.outcome != NeedsAttention ==>
              h.alive && OnRecord(h.w, input.name) && Since(old(h.w), h.w, input.name)
              && (h.Calm() ==> StartedHere(h, input.name) && Recorded(h.w, input.name))
    ensures h.alive && r.outcome == NeedsAttention && r.cleanupSafe ==>
              Loose(h.w, input.name) && (h.Calm() ==> h.w.live == start.live)
    ensures h.quiet && old(h.alive) ==>
              (r.outcome != NeedsAttention <==>
                 input.name !in old(h.w).live && input.name !in old(h.w).covers && input.walkOk)
  {
    ghost var mid := h.w;
    r := ArmShare(h, input.name, id, input.authentication, input.unc, input.walkOk);
    DiskThenArm(start, mid, h.w, input.name);
  }

  /** The compensation of a call in which nothing of ours runs any more. */
  method TakeBack(h: Host, ghost start: World, input: DefineInput, id: string,
                  credentialMayExist: bool, automountMayExist: bool, ghost durably: bool)
    returns (out: DefineOutput)
    requires Inv(h.w) && Fresh(start, input.name, id, durably) && OnlyDefinition(start, h.w, input.name, id)
    requires h.alive ==> Loose(h.w, input.name) && (h.Calm() ==> h.w.live == start.live)
    requires DefineFrame(start, h.w, input.name)
    requires !automountMayExist ==> File(input.name, AutomountHalf) !in h.w.units
    requires !credentialMayExist ==> id !in h.w.creds
    requires credentialMayExist ==> BothNew(h.w.units, input, id)
    requires LeadNow(h.w, id) && (durably ==> Clean(h.w, id) && LeadDurably(h.w, id))
    modifies h
    ensures Inv(h.w) && DiskFrame(h) && DefineFrame(start, h.w, input.name)
    ensures OnlyDefinition(start, h.w, input.name, id) && h.w.temps == old(h.w).temps
    ensures LeadNow(h.w, id) && (durably ==> LeadDurably(h.w, id))
    ensures out.id == id && !out.ok && !out.retained && UndoneFrom(start, h, input, id, out)
  {
    ghost var mid := h.w;
    var kept, failed := CleanupAfter(h, start, input, id, credentialMayExist, automountMayExist, durably);
    ArmThenDisk(start, mid, h.w, input.name);
    out := DefineOutput(false, id, false, kept, failed);
  }

  lemma DiskIsDefineFrame(a: World, b: World, n: string)
    requires DiskOnly(a, b) && b.records - {n} == a.records - {n}
    ensures DefineFrame(a, b, n)
  {
  }

  /** Cleanup, seen against the state before the whole call. */
  method CleanupAfter(h: Host, ghost start: World, input: DefineInput, id: string,
                      credentialMayExist: bool, automountMayExist: bool, ghost durably: bool)
    returns (credentialKept: bool, failed: bool)
    requires Inv(h.w) && Fresh(start, input.name, id, durably) && OnlyDefinition(start, h.w, input.name, id)
    requires h.alive ==> Loose(h.w, input.name)
    requires start.records - {input.name} == h.w.records - {input.name}
    requires !automountMayExist ==> File(input.name, AutomountHalf) !in h.w.units
    requires !credentialMayExist ==> id !in h.w.creds
    requires credentialMayExist ==> BothNew(h.w.units, input, id)
    requires LeadNow(h.w, id) && (durably ==> Clean(h.w, id) && LeadDurably(h.w, id))
    modifies h
    ensures Inv(h.w) && DiskFrame(h) && OnlyDefinition(start, h.w, input.name, id)
    ensures LeadNow(h.w, id) && (durably ==> LeadDurably(h.w, id))
    ensures h.w.records - {input.name} == old(h.w).records - {input.name} && h.w.temps == old(h.w).temps
    ensures credentialKept ==> failed && BothNew(h.w.units, input, id)
    ensures h.alive ==> Loose(h.w, input.name)
    ensures h.alive && !failed ==>
              h.w.units == start.units && h.w.creds == start.creds && h.w.records == start.records - {input.name}
  {
    credentialKept, failed := false, true;
    if h.alive {
      ghost var mid := h.w;
      credentialKept, failed := Cleanup(h, input.name, id, credentialMayExist, automountMayExist, durably);
      OnlyDefinitionTrans(start, mid, h.w, input.name, id);
      if h.alive && !failed { Restored(start, mid, h.w, input.name, id, durably); }
    }
  }

  /** A state in which nothing but a fault can make define refuse. */
  ghost predicate DefineReady(w: World, input: DefineInput) {
    && Inspect(w, input.name, input.uid).state == Undefined
    && input.name !in w.live && input.name !in w.covers
    && input.walkOk && Encodable(input)
    && exists c :: c in input.candidates && !IdInUse(w, c)
  }

  lemma FreshId(w: World, input: DefineInput, id: string, durably: bool)
    requires Inv(w) && (durably ==> id !in w.maybeCreds) && !IdInUse(w, id)
    requires Inspect(w, input.name, input.uid).state == Undefined
    ensures Fresh(w, input.name, id, durably)
  {
    UndefinedCarriesOnly(w, input.name, input.uid, id);
    UndefinedMeansNotOurs(w, input.name, input.uid);
  }

  /** No image contains more than is there, and what the files do not carry no image carries. */
  lemma NotCarriedDurably(w: World, id: string)
    requires Bounds(w) && !Carried(w.units, id)
    ensures !Carried(w.sureUnits, id)
  {
  }

  /**
   * define under the helper's gate. Whatever fails and wherever the process is
   * killed, no installed credential becomes invisible, now or after a power loss, and at
   * most one temporary file is left; success is exact; a cleaned-up failure leaves no
   * trace. A foreign trigger is stopped or put on record only if it started meanwhile.
   */
  method Define(h: Host, input: DefineInput) returns (out: DefineOutput)
    requires Inv(h.w) && |input.candidates| == 8
    modifies h
    ensures Inv(h.w) && Lived(h) && DefineFrame(old(h.w), h.w, input.name) && OnlyHits(h, {})
    ensures OneTempMore(old(h.w), h.w)
    ensures KeepsSeen(old(h.w), h.w, {}) && KeepsSeenDurably(old(h.w), h.w, {})
    ensures (Visible(old(h.w)) ==> Visible(h.w)) && (DurablyVisible(old(h.w)) ==> DurablyVisible(h.w))
    ensures h.Calm() ==> h.w.covers == old(h.w).covers && h.w.foreign == old(h.w).foreign
    ensures out.ok ==> h.alive && out.id in input.candidates && Defined(h, input, out.id)
    ensures out.retained ==> BothNew(h.w.units, input, out.id)
    ensures !out.ok && !out.retained && Inspect(old(h.w), input.name, input.uid).state == Undefined ==>
              Undone(h, input, out.id, out)
    ensures Inspect(old(h.w), input.name, input.uid).state != Undefined ==> !out.ok && h.w == old(h.w)
    ensures h.quiet && old(h.alive) ==> (out.ok <==> DefineReady(old(h.w), input))
  {
    out := DefineOutput(false, "", false, false, false);
    DiskIsDefineFrame(h.w, h.w, input.name);
    if Inspect(h.w, input.name, input.uid).state != Undefined { return; }
    UndefinedMeansNotOurs(h.w, input.name, input.uid);
    var id := GenerateUniqueShareId(h, input.candidates);
    ghost var mid := h.w;
    OpenedKeeps(old(h.w), mid, CredentialRoot);
    DiskIsDefineFrame(old(h.w), mid, input.name);
    SeenFromRoot(old(h.w), mid, mid);
    if id.None? || !Encodable(input) { return; }
    out := DefineWithId(h, input, id.value);
    FromRoot(old(h.w), mid, h.w, input.name);
    SeenFromRoot(old(h.w), mid, h.w);
    KeepsVisible(old(h.w), h.w);
  }

  method DefineWithId(h: Host, input: DefineInput, id: string) returns (out: DefineOutput)
    requires Inv(h.w) && !IdInUse(h.w, id) && Inspect(h.w, input.name, input.uid).state == Undefined
    modifies h
    ensures Inv(h.w) && Lived(h) && DefineFrame(old(h.w), h.w, input.name) && OnlyHits(h, {})
    ensures OneTempMore(old(h.w), h.w)
    ensures KeepsSeen(old(h.w), h.w, {}) && KeepsSeenDurably(old(h.w), h.w, {})
    ensures (Visible(old(h.w)) ==> Visible(h.w)) && (DurablyVisible(old(h.w)) ==> DurablyVisible(h.w))
    ensures h.Calm() ==> h.w.covers == old(h.w).covers && h.w.foreign == old(h.w).foreign
    ensures out.id == id && (out.ok ==> h.alive && Defined(h, input, id))
    ensures out.retained ==> BothNew(h.w.units, input, id)
    ensures !out.ok && !out.retained ==> Undone(h, input, id, out)
    ensures h.quiet && old(h.alive) ==>
              (out.ok <==> input.name !in old(h.w).live && input.name !in old(h.w).covers && input.walkOk)
  {
    ghost var durably := id !in h.w.maybeCreds;
    FreshId(h.w, input, id, durably);
    NotCarriedDurably(h.w, id);
    UndefinedCarriesOnly(h.w, input.name, input.uid, id);
    out := DefineFresh(h, input, id, durably);
    StaysVisible(old(h.w), h.w, input.name, id);
    StaysDurablyVisible(old(h.w), h.w, input.name, id);
  }

  lemma FromRoot(a: World, mid: World, b: World, n: string)
    requires OnlyRoots(a, mid) && DefineFrame(mid, b, n)
    ensures DefineFrame(a, b, n)
  {
    GrowTrans(a, mid, b);
  }

  lemma SeenFromRoot(a: World, mid: World, b: World)
    requires OnlyRoots(a, mid) && KeepsSeen(mid, b, {}) && KeepsSeenDurably(mid, b, {})
    ensures KeepsSeen(a, b, {}) && KeepsSeenDurably(a, b, {})
  {
  }

  // --- remove ------------------------------------------------------------------

  /** Drops both unit files of a stopped definition, the mount half first. */
  method RemoveBoth(h: Host, n: string, ghost id: string) returns (ok: bool)
    requires Inv(h.w) && (h.alive ==> Loose(h.w, n))
    modifies h
    ensures Inv(h.w) && h.Ran() && OnlyDefinition(old(h.w), h.w, n, id)
    ensures h.w == old(h.w).(units := h.w.units, sureUnits := h.w.sureUnits, maybeUnits := h.w.maybeUnits)
    ensures Submap(h.w.units, old(h.w).units)
    ensures ok ==> h.alive && h.w.units == old(h.w).units - {File(n, MountHalf), File(n, AutomountHalf)}
    ensures ok && old(File(n, MountHalf) in h.w.units || File(n, AutomountHalf) in h.w.units) ==>
              h.w.sureUnits == h.w.units && h.w.maybeUnits == h.w.units.Keys
    ensures ok && old(File(n, MountHalf) !in h.w.units && File(n, AutomountHalf) !in h.w.units) ==> h.w == old(h.w)
    ensures h.w.maybeUnits <= old(h.w).maybeUnits
    ensures h.quiet && old(h.alive) ==> ok
  {
    ok := false;
    if !h.alive { return; }
    ok := RemoveHalf(h, File(n, MountHalf), id);
    if ok {
      ghost var mid := h.w;
      ok := RemoveHalf(h, File(n, AutomountHalf), id);
      OnlyDefinitionTrans(old(h.w), mid, h.w, n, id);
    }
  }

  /** The deletions, once the stop gate has been passed. */
  method RemoveStopped(h: Host, n: string, id: string, ghost durably: bool) returns (ok: bool)
    requires Inv(h.w) && LeadNow(h.w, id) && (durably ==> LeadDurably(h.w, id))
    requires h.alive ==> Loose(h.w, n)
    modifies h
    ensures Inv(h.w) && DiskFrame(h) && OnlyDefinition(old(h.w), h.w, n, id)
    ensures h.w.temps == old(h.w).temps && h.w.drifted == old(h.w).drifted
    ensures LeadNow(h.w, id)
    ensures durably && Clean(old(h.w), id) ==> LeadDurably(h.w, id)
    ensures Submap(h.w.units, old(h.w).units)
    ensures h.w.records - {n} == old(h.w).records - {n}
    ensures ok ==> h.alive && Removed(old(h.w), h.w, n, id)
    ensures h.quiet && old(h.alive) ==> ok
  {
    ok := RemoveSecret(h, id, durably);
    SecretOnly(old(h.w), h.w, n, id);
    if ok {
      ok := RemoveUnitsOf(h, n, id);
    }
    if ok {
      ok := DropRecordOf(h, n);
    }
    if ok {
      ok := h.Fallible();
    }
  }

  /**
   * All of a definition gone and nothing else, its files in every power-loss image too.
   * The secret is gone from every image unless an earlier unlink of it was never synced.
   */
  ghost predicate Removed(a: World, b: World, n: string, id: string) {
    && b.units == a.units - {File(n, MountHalf), File(n, AutomountHalf)}
    && b.creds == a.creds - {id}
    && b.records == a.records - {n}
    && (id in b.maybeCreds <==> !Clean(a, id))
    && (File(n, MountHalf) in a.units || File(n, AutomountHalf) in a.units ==>
          b.sureUnits == b.units && b.maybeUnits == b.units.Keys)
  }

  method RemoveUnitsOf(h: Host, n: string, id: string) returns (ok: bool)
    requires Inv(h.w) && (h.alive ==> Loose(h.w, n))
    modifies h
    ensures Inv(h.w) && h.Ran() && OnlyDefinition(old(h.w), h.w, n, id)
    ensures h.w == old(h.w).(units := h.w.units, sureUnits := h.w.sureUnits, maybeUnits := h.w.maybeUnits)
    ensures Submap(h.w.units, old(h.w).units)
    ensures ok ==> h.alive && h.w.units == old(h.w).units - {File(n, MountHalf), File(n, AutomountHalf)}
    ensures ok && old(File(n, MountHalf) in h.w.units || File(n, AutomountHalf) in h.w.units) ==>
              h.w.sureUnits == h.w.units && h.w.maybeUnits == h.w.units.Keys
    ensures h.quiet && old(h.alive) ==> ok
  {
    var dirOk := h.Fallible();
    if !dirOk { return false; }
    ok := RemoveBoth(h, n, id);
  }

  lemma DefinitionLeads(w: World, n: string, uid: nat)
    requires Inspect(w, n, uid).state in {Pair, Partial}
    ensures Inspect(w, n, uid).marker.Some? && LeadNow(w, Inspect(w, n, uid).marker.value.id)
    ensures File(n, MountHalf) in w.units || File(n, AutomountHalf) in w.units
  {
    var id := Inspect(w, n, uid).marker.value.id;
    var mf, af := File(n, MountHalf), File(n, AutomountHalf);
    if SideOf(w.units, mf, uid).Valid? {
      assert Carries(w.units[mf], id);
    } else {
      assert Carries(w.units[af], id);
    }
  }

  /** When a removed secret can come back: exactly after an unlink that was never synced. */
  lemma RemovedDurably(a: World, b: World, n: string, uid: nat)
    requires Inv(a) && DurablyVisible(a) && Inspect(a, n, uid).state in {Pair, Partial}
    requires Inspect(a, n, uid).marker.Some?
    requires OnlyDefinition(a, b, n, Inspect(a, n, uid).marker.value.id)
    requires Removed(a, b, n, Inspect(a, n, uid).marker.value.id)
    ensures var id := Inspect(a, n, uid).marker.value.id;
            DurablyVisible(b) <==> Clean(a, id) || CarriedElsewhere(a.units, n, id)
  {
    var id := Inspect(a, n, uid).marker.value.id;
    InspectedCarriesOnly(a, n, uid);
    DefinitionLeads(a, n, uid);
    if Clean(a, id) {
      StaysDurablyVisible(a, b, n, id);
    } else {
      RemovedElsewhere(a, b, n, id);
      StaysDurablyVisible(a, b, n, id);
    }
  }

  lemma RemovedElsewhere(a: World, b: World, n: string, id: string)
    requires b.units == a.units - {File(n, MountHalf), File(n, AutomountHalf)} && b.sureUnits == b.units
    ensures Carried(b.sureUnits, id) <==> CarriedElsewhere(a.units, n, id)
  {
    if Carried(b.sureUnits, id) {
      var f :| f in b.sureUnits && Carries(b.sureUnits[f], id);
      match f { case File(_, MountHalf) => case File(_, AutomountHalf) => }
      assert f in a.units && f.name != n && Carries(a.units[f], id);
    }
    if CarriedElsewhere(a.units, n, id) {
      var f :| f in a.units && f.name != n && Carries(a.units[f], id);
      assert f in b.sureUnits && Carries(b.sureUnits[f], id);
    }
  }

  /** Everything remove may touch: the runtime of n, its files and record, one credential. */
  ghost predicate RemoveFrame(a: World, b: World, n: string) {
    && Meddled(a, b.(units := a.units, sureUnits := a.sureUnits, maybeUnits := a.maybeUnits, creds := a.creds,
                     maybeCreds := a.maybeCreds, sureCreds := a.sureCreds, records := a.records,
                     roots := a.roots, sureRoots := a.sureRoots, maybeRoots := a.maybeRoots), n)
    && b.records - {n} == a.records - {n}
  }

  /**
   * remove under the helper's gate. Files go only after nothing runs that ran before;
   * the secret goes before the units that lead to it. Visibility after a power loss
   * needs that no unsynced unlink of this secret is outstanding.
   */
  method Remove(h: Host, n: string, uid: nat) returns (ok: bool)
    requires Inv(h.w)
    modifies h
    ensures Inv(h.w) && Lived(h) && RemoveFrame(old(h.w), h.w, n) && OnlyHits(h, old(h.w).raced)
    ensures h.w.units != old(h.w).units || h.w.creds != old(h.w).creds || h.w.records != old(h.w).records ==>
              Since(old(h.w), h.w, n) && Inspect(old(h.w), n, uid).state in {Pair, Partial}
    ensures h.Calm() ==> h.w.live in {old(h.w).live, old(h.w).live - {n}}
    ensures h.Calm() ==> h.w.covers in {old(h.w).covers, old(h.w).covers - {n}} && h.w.foreign == old(h.w).foreign
    ensures KeepsSeen(old(h.w), h.w, {}) && (Visible(old(h.w)) ==> Visible(h.w))
    ensures var def := Inspect(old(h.w), n, uid);
            if def.marker.Some? && !Clean(old(h.w), def.marker.value.id)
            then KeepsSeenDurably(old(h.w), h.w, {def.marker.value.id})
            else KeepsSeenDurably(old(h.w), h.w, {}) && (DurablyVisible(old(h.w)) ==> DurablyVisible(h.w))
    ensures ok ==>
              var def := Inspect(old(h.w), n, uid);
              h.alive && def.marker.Some? && Since(old(h.w), h.w, n) && Removed(old(h.w), h.w, n, def.marker.value.id)
              && (DurablyVisible(old(h.w)) ==>
                    (DurablyVisible(h.w) <==>
                       || Clean(old(h.w), def.marker.value.id)
                       || CarriedElsewhere(old(h.w).units, n, def.marker.value.id)))
    ensures ok && h.Calm() ==> n !in h.w.live && n !in h.w.covers
    ensures h.quiet && old(h.alive) ==>
              (ok <==> Inspect(old(h.w), n, uid).state in {Pair, Partial}
                       && StopReady(old(h.w), n, Inspect(old(h.w), n, uid).what))
  {
    ok := false;
    var def := Inspect(h.w, n, uid);
    if def.state != Pair && def.state != Partial { return; }
    var id := def.marker.value.id;
    var stop, _ := SafeStop(h, n, def.what);
    if !StopProven(stop) { return; }
    SinceIsLoose(old(h.w), h.w, n);
    ok := RemoveRecognised(h, n, uid, id, old(h.w));
  }

  /** The deletions of a recognised definition, seen from before its stop. */
  method RemoveRecognised(h: Host, n: string, uid: nat, id: string, ghost start: World) returns (ok: bool)
    requires Inv(start) && Inv(h.w) && Meddled(start, h.w, n) && Loose(h.w, n)
    requires Inspect(start, n, uid).state in {Pair, Partial} && Inspect(start, n, uid).marker.Some?
    requires id == Inspect(start, n, uid).marker.value.id
    modifies h
    ensures Inv(h.w) && h.Ran() && RemoveFrame(start, h.w, n)
    ensures h.w.live == old(h.w).live && h.w.covers == old(h.w).covers && h.w.foreign == old(h.w).foreign
    ensures h.w.nextId == old(h.w).nextId
    ensures KeepsSeen(start, h.w, {}) && KeepsSeenDurably(start, h.w, {id})
    ensures (Visible(start) ==> Visible(h.w)) && (Clean(start, id) ==> KeepsSeenDurably(start, h.w, {}))
    ensures DurablyVisible(start) && Clean(start, id) ==> DurablyVisible(h.w)
    ensures ok ==> h.alive && Removed(start, h.w, n, id)
    ensures ok && DurablyVisible(start) ==>
              (DurablyVisible(h.w) <==> Clean(start, id) || CarriedElsewhere(start.units, n, id))
    ensures h.quiet && old(h.alive) ==> ok
  {
    DefinitionLeads(start, n, uid);
    InspectedCarriesOnly(start, n, uid);
    ok := RemoveStopped(h, n, id, LeadDurably(start, id));
    RecognisedSeen(start, h.w, n, id);
    if ok && DurablyVisible(start) { RemovedDurably(start, h.w, n, uid); }
  }

  lemma RecognisedSeen(a: World, b: World, n: string, id: string)
    requires Bounds(a) && OnlyDefinition(a, b, n, id) && CarriesOnly(a.units, n, id) && LeadNow(b, id)
    requires LeadDurably(a, id) && Clean(a, id) ==> LeadDurably(b, id)
    ensures KeepsSeen(a, b, {}) && KeepsSeenDurably(a, b, {id}) && (Visible(a) ==> Visible(b))
    ensures Clean(a, id) ==> KeepsSeenDurably(a, b, {}) && (DurablyVisible(a) ==> DurablyVisible(b))
  {
    StaysVisible(a, b, n, id);
    StaysDurablyVisible(a, b, n, id);
  }
}
