# nasmount: a verified model of its privileged half

nasmount lets a desktop user define CIFS shares that root mounts on demand. A share is two
unit files (`.mount` and `.automount`), at most one credential file, one recorded automount
instance id and one live systemd trigger. The root side keeps no transaction log: the order of
its steps, the compensation a call performs itself, and gates that fail closed carry every
guarantee. This project models that protocol and the components it rests on, and proves what
they promise. `dafny verify dfyconfig.toml` checks all of it.

## What is modelled

**The share lifecycle** (`World`, `Host`, `Trigger`, `Operations`, `Uninstall`, `Boot`, `Runs`,
`Limits`, with `Disk` and `PurgeRules` beneath them). `World` is everything the root side shares
with the host: unit halves, credential files, recorded ids, live triggers, the mounts users put
over them, and the sets of trigger instances started by this tool and by others. It also keeps
what the next power loss may leave: of unit entries, credentials and private directories those every
disk image contains (`sureUnits`, `sureCreds`, `sureRoots`) and those some image contains
(`maybeUnits`, `maybeCreds`, `maybeRoots`), and the temporary files that may hold a secret
(`temps`). `Host` turns the durable and systemd
primitives into methods with every result they can have: done, refused without effect, or
reported as failed after the effect. The process may be killed around any primitive; from then
on its remaining code has no effect, so the state a method ends in stands for every point at
which a kill can strike, and a clause that holds at the end holds there.

Other people do not hold the root lock. Around every primitive that looks at or changes the
runtime of a name they may mount and unmount there, stop the trigger, and start one of their own
(`Host.Host.Traffic`). Their doings at other names, and around disk primitives, commute with the
operation, which neither reads nor writes what they touch; those are events of their own.

`define`, `remove`, `purge`, boot arming, `armShare` and `safeStop` are methods over that host, with
the source's branches and compensation, and the gates their callers apply under the same lock.
`Runs.Run` executes arbitrary sequences of them, mixed with other people's doings, changes of the owner
or mode of a credential file, and power losses. `Limits.FreshInstall` starts it on a host where nasmount
has never run.
An `alone` run is one in which nobody interferes, though steps fail and the process may be killed; in
a `quiet` run nothing fails either, and for those the contracts say exactly when an operation
succeeds, mounted shares included.

Six promises turn out to need a condition. Each is proved with it, and `Limits` runs the
operations into a state in which it fails without it:

* *No installed credential becomes invisible* holds for `define` and `remove` without a power loss
  always; with power losses `remove` keeps it if and only if no earlier unlink of that secret was
  left unsynced, or another definition carries the id (`Operations.RemovedDurably`). The code's
  retry meets a missing file, counts it as removed and syncs nothing
  (`src/root/durablefs.cpp:276-283`; `Limits.UnsyncedUnlinkLetsASecretReturn`). `purge` deletes units
  before credentials: cut short it hides at most one secret, that of a definition it had validated
  (`Runs.Execute`, `Limits.PurgeCutShortHidesASecret`), until a purge finishes. The promise is about installed files. A write of a credential that does not come to
  its end can leave a temporary file with the secret in it, to which no unit leads: at most one per
  `define`, only in the credential directory, and cleared only when purge removes that directory.
* *No stop hits a foreign trigger*: `safeStop` left alone stops a foreign instance that was never
  on record if and only if a mount of the expected share covers it
  (`Trigger.SafeStop`, `Limits.ForeignTriggerUnderOurMountIsStopped`). When others interfere, what any
  operation hits beyond that was started while it was under way, or was put on record in that way.
* *A matching record is ours* as long as no foreign start falls into an arming call. The id that
  goes on record is a foreign trigger's exactly when that trigger is what runs uncovered at the
  moment the id is read (`Trigger.ArmShare`, `Limits.RacedStartIsTakenForOurs`).
* *A defined share is armed and trusted*: the id on record is the trigger's own if and only if no
  mount has crossed the trigger by then (`Limits.CrossedTriggerIsNotRecorded`).
* *A defined share survives a power loss*: its two halves always do; its credential does if and only if
  the entry of the credential directory in `/etc` is durable. A directory found in place is not
  synced again, so a failed sync of its creation is never made good (`Runs.DefinedForGoodIff`,
  `src/root/durablefs.cpp:127-139`, `Limits.DefinedShareCanLoseItsCredential`).
* *An interrupted purge can be finished*: when nobody interferes, every interruption can be retried
  to the end if and only if every managed trigger that runs is on record and no credential file has a
  wrong owner or mode (`Uninstall.FirmExactlyWhenEveryRetryWorks`). A trigger off the record passes the
  gate while its own share is mounted over it; killed between the two stops, purge then refuses for
  good (`Limits.CrossedTriggerBlocksTheRetry`). A spoilt credential is unlinked by its id as long as
  its definition is there; killed after the two halves went, purge leaves it to the removal of the
  directory, which refuses it for good (`Limits.SpoiltCredentialBlocksTheRetry`). And what a finished
  purge removed stays removed after a power loss if and only if neither an unlink in the unit
  directory nor the removal of the credential directory is left unsynced (`Runs.PurgedForGoodIffSynced`),
  which a purge that finds the file or directory missing does not make good
  (`Uninstall.Purge`, `Limits.PurgeForgetsAnUnsyncedUnlink`, `Limits.PurgeForgetsAnUnsyncedRmdir`).

**Durable files** (`DurableFs`, `Refinement`). A directory with a volatile view and a set of views a
crash may leave; the steps of `durableReplace`, `durableUnlink`, `createAndVerifyDir` and
`durableRemoveTree` are single syscalls, and a crash may come around each. `Refinement` carries out
the protocol's unit, credential and credential-directory primitives with them: each ends in one of
the effects `Host` and `Uninstall` allow, and every image a crash leaves is one the protocol's power
loss allows for.

**Unit files** (`Strings`, `UnitValue`, `UnitSpec`, `Sections`, `UnitBodies`, `RoundTrip`,
`UnitReading`). The marker block, the encoder, the generator, the section reader and the
restricted-template validator, over the characters of the files. `UnitReading` connects them to
the protocol: what `World` keeps of a file is a function of its text, judging the one is judging
the other, and the halves `define` writes in the protocol are the files the generator produces.
The mount validator checks What= and Where= up to percent doubling only, so it accepts spellings
the generator never writes (`RoundTrip.AcceptedUpToUndoubling`, `RoundTrip.LonePercentIsAccepted`).
`src/core/unitspec.h:192-194` says validated input never fails to encode; the code disagrees for an
address that ends in a backslash or in white space, and the model follows the code
(`UnitSpec.AcceptedAddressEncodes`).

**Mount-point walks** (`MountWalk`). The creating walk, the boot walk and the read-only preview
over one graph of nodes with mount ids, device numbers, owners and entries.

**Observers** (`Arming`, `Pairing`, `KeyOrder`, `Enumeration`, `PackageState`, `MountInfo`,
`MountStack`). The two decision tables, the grouping of scanned halves, the removal gate of the
package, and the reading of `/proc/self/mountinfo`.

**The session side** (`MountModel`, `Lookup`). The list a user sees, computed by four passes over
one list and an index, and the wallet lookup's controller and child-process transport.

Assumptions about the world outside: root operations are serialised by the root lock; kernel
mount ids are handed out once, ascending, and 0 means unknown; a reported successful stop means
inactive, and stopping a mount unit unmounts whatever is mounted at its path; an injective escape
turns a mount point into a unit name, so a unit is named by its mount point; a directory fsync
makes every earlier change of that directory durable.

## Model

| member | source | states |
|---|---|---|
| `Runs.Run` | src/root/operations.cpp:102-464 | over every history of define, remove, purge, boot arming, others' doings between and inside operations, and power losses, with any primitive failing and a kill anywhere: a trigger of ours keeps both halves; a matching record is ours unless a foreign start raced with an arming call; every foreign trigger stopped unasked is accounted for, and none is if no foreign start fell into an operation; no installed credential is invisible since the beginning or the last finished purge but those a purge that was cut short had validated for deletion (with power losses: and those a remove deleted over an unsynced unlink); at most one temporary file per define |
| `Runs.Execute` | src/root/operations.cpp:102-464 | one event keeps the invariant, hides no secret but the exempt ones (a purge at most one), now and in every power-loss image, and accounts for what it hit and left |
| `Runs.SurvivesPowerLoss` | src/root/durablefs.cpp:200-288 | every disk image a power loss may leave, the credential directory or not, satisfies the invariant, and what led to a credential in every image still does |
| `Runs.NothingComesBackIffSynced` | src/root/durablefs.cpp:269-288 | a power loss brings no unit file back if and only if no unlink of one is unsynced |
| `Runs.PurgedForGoodIffSynced` | src/root/durablefs.cpp:269-386 | every power loss leaves a purged host purged, with its other units as they are, if and only if no change of the unit directory and no removal of the credential directory is unsynced |
| `Runs.DefinedForGoodIff` | src/root/durablefs.cpp:119-147 | every power loss leaves a successfully defined share whole if and only if it is a guest share or the entry of the credential directory is durable |
| `Runs.VisibleUnlessExempt` | src/root/operations.cpp:102-464 | where no purge was cut short since the last clean slate every installed credential is visible, power losses aside; and in every image too where no remove lapsed |
| `World.RecordedIsOurs` | src/core/verify.cpp:568-573 | a recorded id equal to the live instance's id was started by this tool, or its start raced with the recording |
| `World.UndefinedMeansNotOurs` | src/core/verify.cpp:212-282 | where nothing is defined, a live trigger is foreign, no record matches, and there are not both halves |
| `World.Managed` | src/core/verify.cpp:370-408 | exactly the base names with a scannable half are grouped |
| `Host.Host.Attempt` | src/root/operations.cpp:118-124 | a primitive ends in its full effect, its unsynced effect or none; success only in the full one; the dead do nothing |
| `Host.Host.WriteUnit` | src/root/operations.cpp:34-37 | a unit file is replaced, replaced without sync, or untouched |
| `Host.Host.RemoveUnit` | src/root/operations.cpp:42-45 | success removes; removing what is missing succeeds and syncs nothing |
| `Host.Host.WriteCred` | src/root/credentialstore.cpp:68-100 | the credential is written durably, undurably or not; unless it succeeds one temporary file may stay or come back |
| `Host.Host.RemoveCred` | src/root/credentialstore.cpp:102-115 | the credential is unlinked durably, undurably or not; a missing one counts as removed, unsynced |
| `Host.Host.CredAbsent` | src/root/credentialstore.cpp:147-165 | a yes means absent; an unreadable answer is a no; the directory may be created |
| `Host.Host.CredHealthy` | src/root/credentialstore.cpp:117-145 | a yes means present with the right owner and mode; in a quiet run exactly then |
| `Host.Host.WriteRecord` | src/root/runtimefiles.cpp:33-43 | the id of that unit name is recorded, or nothing changes but the directory |
| `Host.Host.RemoveRecord` | src/root/runtimefiles.cpp:45-54 | the record of that unit name goes, or nothing changes but the directory |
| `Host.Host.StopMount` | src/root/arming.cpp:67 | a reported stop leaves nothing mounted at the path; otherwise the mount may be gone or not |
| `Host.Host.StopAutomount` | src/root/arming.cpp:68 | a reported stop leaves none running; stopping a foreign instance without justification is counted, and what is counted ran before or started meanwhile |
| `Host.Host.UniqueMountId` | src/core/verify.cpp:577-589 | a non-zero answer is the id of the topmost mount at that moment |
| `Trigger.InspectRuntime` | src/core/verify.cpp:514-575 | a fault reads as indeterminate or untrusted; Inactive, Match and Trusted each mean what they say whatever others do; exact in a quiet run, covered or not |
| `Trigger.SafeStop` | src/root/arming.cpp:52-74 | after a proven stop nothing runs that ran before; hit unasked are at most instances on record or started meanwhile; left alone a stranger is stopped if and only if a mount of the expected share covers it; in a quiet run it succeeds exactly when the mount is that of the share, or the bare trigger is on record |
| `Trigger.StopStarted` | src/root/arming.cpp:24-48 | an instance that ran already and does not carry the given id is never hit, unless the id is that of a mount covering it; left alone nothing is touched when the topmost id differs; true means stopped |
| `Trigger.ArmGate` | src/root/arming.cpp:143-168 | nothing is touched before the verdict; AlreadyArmed only for what is on record and uncovered; in a quiet run ready exactly when nothing runs or covers and the credential fits |
| `Trigger.FailedStart` | src/root/arming.cpp:178-192 | cleanup is called safe only when nothing runs that ran before, nor anything of ours or on record; hit is at most what ran when it began or started since |
| `Trigger.RecordStarted` | src/root/arming.cpp:194-202 | what goes on record is the topmost id: the started instance's if and only if it still runs uncovered, a stranger's if and only if his is what runs uncovered; otherwise safe means stopped again |
| `Trigger.ArmShare` | src/root/arming.cpp:119-206 | whatever others do, a foreign instance is recorded or stopped only if it started during this call; success means what is topmost is on record and, left alone, that it is a trigger this call started or one already recorded; a safe failure leaves nothing of ours; exact conditions in a quiet run, covered or not |
| `Operations.GenerateUniqueShareId` | src/root/operations.cpp:58-94 | an id no credential and no marker uses, out of eight draws; none exactly when all are in use |
| `Operations.WriteUnits` | src/root/operations.cpp:179-204 | both halves durably written on success; on failure only halves of this call's content, and the automount half only if attempted |
| `Operations.WriteSecret` | src/root/operations.cpp:206-229 | the credential exists exactly for an authenticated share; nothing else moves |
| `Operations.CleanupDisk` | src/root/operations.cpp:130-158 | the secret goes first and, while it may still exist, the units stay; what remains still leads to it |
| `Operations.Cleanup` | src/root/operations.cpp:130-171 | no failed step means both halves, the secret and the record are gone and nothing else changed |
| `Operations.RemoveSecret` | src/root/credentialstore.cpp:102-115 | the definition keeps leading to whatever is left of the secret, on disk and in every power-loss image |
| `Operations.Define` | src/root/operations.cpp:102-273 | invariant and visibility through every failure and kill, at most one temporary file; success is both halves, a credential iff authenticated, all of them in every power-loss image that has the credential directory, and what was read on record; a failed call whose cleanup met no failure restores units, credentials and all records but one of that very name, and leaves no trigger of ours unless it says so; exact success condition in a quiet run |
| `Operations.DefineFresh` | src/root/operations.cpp:118-273 | the same from the point where the id is known to be free, with the exact success condition |
| `Operations.Restored` | src/root/operations.cpp:126-171 | removing what the call wrote gives back the earlier unit and credential maps exactly |
| `Operations.RemoveStopped` | src/root/operations.cpp:293-317 | deletion in order secret, units, record; at every stop the units lead to what is left |
| `Operations.RemovedDurably` | src/root/durablefs.cpp:269-288 | after a successful remove a power loss can bring back an invisible secret if and only if an earlier unlink of it was never synced and no other definition carries it |
| `Operations.Remove` | src/root/operations.cpp:279-320 | nothing is deleted unless the definition was recognised and nothing runs that ran before; visibility is kept; success removes exactly the two halves, durably, the secret and the record; in a quiet run it succeeds exactly when the definition is recognised and its trigger can be stopped, mounted or not |
| `Disk.StaysVisible` | src/root/operations.cpp:203-236 | an operation that touches one definition and one credential, and keeps that definition leading to it, hides no secret |
| `Disk.StaysDurablyVisible` | src/root/durablefs.cpp:276-283 | the same for every image a power loss may leave |
| `Disk.InspectedCarriesOnly` | src/core/verify.cpp:212-282 | a recognised definition's files carry its own id and no other |
| `PurgeRules.ValidShrinks` | src/root/operations.cpp:330-389 | losing files never turns a host that passed purge validation into one that fails it |
| `PurgeRules.PairedOfSubmap` | src/core/verify.cpp:284-362 | an enumerated sound unit keeps its identity when files disappear |
| `Uninstall.Validate` | src/root/operations.cpp:330-389 | accepts exactly the hosts on which every managed definition is sound, owned by the caller and confirmed by its own files, with no stray marker; returns each name once |
| `Uninstall.StopAll` | src/root/operations.cpp:391-404 | no disk change; success means nothing runs that ran at a validated name; in a quiet run it succeeds exactly when each of them can be stopped |
| `Uninstall.DeleteAll` | src/root/operations.cpp:410-424 | success leaves no file, record or credential of any validated name, no other credential touched, and the unit directory synced; whatever happens nothing of another name goes; cut short it hides at most the one credential it was about to delete |
| `Uninstall.RemoveTree` | src/root/durablefs.cpp:290-386 | an entry of the wrong kind, a credential of the wrong owner or mode included, makes it fail and survives; short of success some entries are unlinked, or all of them durably, or the directory too with its parent synced or not; a root that is missing is not synced |
| `Uninstall.RemoveRoots` | src/root/operations.cpp:430-460 | success leaves none of the three roots, and an unsynced removal of the credential directory exactly as unsynced as it was; otherwise only their contents shrink; in a quiet run it succeeds exactly when nothing refused is in them |
| `Uninstall.Purge` | src/root/operations.cpp:326-464 | nothing is deleted before everything is validated and stopped; only validated names lose files; ok means no readable marker, no root, no credential, no temporary file, no record, counts every share, and for a power loss to bring back exactly what was unsynced before, and only if it found nothing to delete; whatever happens at most one credential is hidden; in a quiet run ok if and only if the host was purgeable, a spoilt credential without a definition being in the way |
| `Uninstall.PurgeableAgain` | src/root/operations.cpp:326-404 | whatever happened meanwhile, what an interrupted purge of a purgeable host leaves can be purged if and only if its triggers can be stopped and every spoilt credential is still named by a definition |
| `Uninstall.StaysFirm` | src/root/operations.cpp:391-424 | undisturbed, with every managed trigger that runs on record and no credential spoilt, it always can |
| `Uninstall.FirmExactlyWhenEveryRetryWorks` | src/root/operations.cpp:391-460 | that condition is exact: otherwise some interruption leaves a host no retry gets past |
| `Uninstall.PurgeAndFinish` | src/root/operations.cpp:326-464 | a fault-free retry on exactly what an interrupted purge left succeeds if and only if the triggers left can be stopped and no spoilt credential was orphaned; certain when undisturbed, on record and unspoilt |
| `PackageState.ClassifyHost` | src/core/packagestate.cpp:40-115 | Empty and ManagedState exactly; a malformed or unreadable candidate is never hidden by a valid one |
| `PackageState.PurgedIsEmpty` | src/core/packagestate.cpp:40-115 | a purged host is Empty whenever every remaining candidate can be examined |
| `Boot.ArmOneShare` | src/boot/main.cpp:41-96 | arms at most this share, only as a complete pair; in a quiet run it ends on record exactly when it was, or when gates, path, runtime and credential allow it |
| `Boot.BootRun` | src/boot/main.cpp:119-140 | left alone only adds triggers of its own; exactly the units reported as sound pairs are attempted and the others skipped; in a quiet run every pair ends on record exactly when it was or could be armed |
| `Limits.UnsyncedUnlinkLetsASecretReturn` | src/root/durablefs.cpp:276-283 | a fault-free remove after an unsynced unlink succeeds and leaves a secret some power loss brings back unindexed |
| `Limits.PurgeCutShortHidesASecret` | src/root/operations.cpp:410-424 | purge's own deletion of the two halves, cut before the credential's, leaves a secret invisible, and it is the one the exemption names |
| `Limits.FreshInstall` | src/root/operations.cpp:102-464 | every history that starts on a host without nasmount keeps what `Runs.Run` promises, with at most one temporary file per define and no raced record without an intrusion |
| `Limits.CrossedTriggerIsNotRecorded` | src/root/arming.cpp:194-202 | recording run after a user crossed the trigger: the id on record is not the trigger's |
| `Limits.CrossedTriggerBlocksTheRetry` | src/root/operations.cpp:391-404 | the stop gate passes while that mount is there; once it is gone no purge succeeds |
| `Limits.RacedStartIsTakenForOurs` | src/root/arming.cpp:194-202 | a foreign trigger swapped in before the id is read goes on record, and the next stop hits it |
| `Limits.ForeignTriggerUnderOurMountIsStopped` | src/root/arming.cpp:76-96 | a foreign trigger under a mount of the share is unmounted and stopped |
| `Limits.PurgeForgetsAnUnsyncedUnlink` | src/root/operations.cpp:330-424 | a fault-free purge succeeds although a power loss can bring a managed unit back |
| `Limits.PurgeForgetsAnUnsyncedRmdir` | src/root/durablefs.cpp:299-301 | a fault-free purge succeeds although a power loss can bring the credential directory back |
| `Limits.DefinedShareCanLoseItsCredential` | src/root/durablefs.cpp:127-139 | a fault-free define over a directory whose creation was never synced succeeds although a power loss can take the credential |
| `Limits.SpoiltCredentialBlocksTheRetry` | src/root/durablefs.cpp:347-353 | a purgeable host, cut after the two halves of its share went, is refused by a fault-free retry for its spoilt credential |
| `DurableFs.DurableReplace` | src/root/durablefs.cpp:200-267 | a crash at any syscall gives the complete old state or the complete new content; true means only the new one; before the rename the name is unchanged; no other existing entry is affected; at most one temporary name is left |
| `DurableFs.DurableUnlink` | src/root/durablefs.cpp:269-288 | a crash gives what it could before or absence; a removal by this call is durable; a missing name succeeds only if allowed, and then nothing is synced |
| `DurableFs.DurableRemoveTree` | src/root/durablefs.cpp:290-386 | entries only go, each a plain artifact; any other entry survives and makes it fail; the directory goes only once its emptiness is durable; success on a directory that was there is for good, one already missing is not synced; without faults it succeeds exactly when every entry may go |
| `DurableFs.CreateAndVerifyDir` | src/root/durablefs.cpp:119-147 | a directory that is there is opened without a sync; a new one is durable on success and may be there without being durable after a failure |
| `DurableFs.ClearEntries` | src/root/durablefs.cpp:318-357 | the entry loop stops at the first entry that may not be deleted, whatever the order of the listing |
| `DurableFs.Fill` | src/root/durablefs.cpp:239-246 | the short-write loop ends, having written all of the content or failed |
| `DurableFs.WriteTemp` | src/root/durablefs.cpp:207-253 | all steps before the rename happen to one fresh name |
| `DurableFs.Install` | src/root/durablefs.cpp:255-266 | rename and directory sync: old or new at every crash, new for good on success |
| `DurableFs.RenamedGives` | src/root/durablefs.cpp:255-261 | what a crash can show after the rename of a synced file |
| `DurableFs.NotWorseMeans` | src/root/durablefs.cpp:200-267 | an untouched entry reads the same and a crash gives nothing new for it |
| `Refinement.WriteUnit` | src/root/operations.cpp:34-37 | carried out by durableReplace, writing a unit has exactly the effects the protocol assumes: all of it, all but the sync, or nothing, in the running view and in every crash image |
| `Refinement.RemoveUnit` | src/root/operations.cpp:42-45 | the same for removing a unit by durableUnlink; a missing file is removed without a sync |
| `Refinement.WriteCred` | src/root/credentialstore.cpp:68-100 | the same for installing a credential, whose temporary file is accounted for as the one leftover |
| `Refinement.RemoveCred` | src/root/credentialstore.cpp:102-115 | the same for removing one; an unsynced unlink leaves it among those an image may contain |
| `Refinement.OpenRoot` | src/root/durablefs.cpp:119-147 | createAndVerifyDir on the credential directory ends in one of the protocol's effects: there and durable, there and not durable, or nothing |
| `Refinement.RemoveTree` | src/root/durablefs.cpp:290-386 | durableRemoveTree on the credential directory ends in one of the protocol's outcomes, in the running view and in every crash image, and without faults refuses exactly what the protocol refuses |
| `Refinement.CrashIsAPossibleImage` | src/root/durablefs.cpp:119-386 | every combination of what crashes leave in the two directories and of the credential directory's own entry is an image the protocol's power loss covers, and any other file with content is a counted temporary one |
| `UnitValue.EncodedValue` | src/core/unitvalue.cpp:15-47 | an encoded value is one line, never continues, and undoubling gives the value back |
| `UnitValue.OneField` | src/core/unitvalue.cpp:105-130 | no line belongs to two marker fields |
| `UnitValue.ParseMarker` | src/core/unitvalue.cpp:209-293 | the early-exit loop computes the meaning of the block |
| `UnitValue.AcceptedExactlyWhenComplete` | src/core/unitvalue.cpp:209-293 | accepted if and only if only known marker lines occur, the six required fields once each, Access at most once, and both numbers fit 32 bits; an accepted marker is valid |
| `UnitValue.LineOrderIrrelevant` | src/core/unitvalue.cpp:209-293 | any permutation of the lines gives the same marker |
| `UnitValue.PrintedMarkerIsRead` | src/core/unitvalue.cpp:166-197 | a printed block, among any unmanaged lines, is read back as its marker |
| `UnitSpec.NormalisedStays` | src/core/unitspec.cpp:40-74 | normalising an address is idempotent |
| `UnitSpec.AcceptedAddressEncodes` | src/core/unitvalue.cpp:15-47 | an accepted address can be written into a unit if and only if it ends neither in a backslash nor in white space |
| `UnitSpec.BackslashAddressIsAcceptedNotEncoded` | src/core/unitspec.cpp:40-74 | an address that is accepted and cannot be encoded |
| `UnitSpec.OptionsAlwaysEncode` | src/core/unitspec.cpp:572-655 | the options of a valid share id are encodable and encoded as they are |
| `UnitSpec.OptionsDetermineMarker` | src/core/unitspec.cpp:572-655 | equal option strings mean equal uid, gid, access and authentication and, with credentials, equal id |
| `Sections.ExtractSectionAssignments` | src/core/unitspec.cpp:677-717 | succeeds if and only if the section occurs and its lines, over all its occurrences, are allowed assignments without a repeated key; the map holds exactly those |
| `Sections.AssignIsRead` | src/core/unitspec.cpp:677-717 | a written assignment is read as that key and value, and is neither header nor blank |
| `Sections.ExactlyTheseLines` | src/core/unitspec.cpp:677-717 | a section giving each allowed key one value consists of exactly those lines, in some order |
| `Sections.TwoBodies` | src/core/unitspec.cpp:677-717 | in a file of two sections each reads its own lines and none of the other's |
| `UnitBodies.ValidateMountUnitBody` | src/core/unitspec.cpp:792-849 | returns the address exactly for an acceptable mount body |
| `UnitBodies.ValidateAutomountUnitBody` | src/core/unitspec.cpp:851-913 | accepts exactly the acceptable automount bodies |
| `RoundTrip.MountRoundTrip` | src/core/unitspec.cpp:728-763 | generated exactly when address and mount point are encodable; read back as the same marker, accepted, with the same address |
| `RoundTrip.AutomountRoundTrip` | src/core/unitspec.cpp:765-790 | read back as the same marker and accepted for its mount point |
| `RoundTrip.AcceptedUpToUndoubling` | src/core/unitspec.cpp:792-849 | with any one-line What= and Where= in a generated file, acceptance is exactly that they decode to an acceptable address and to the mount point |
| `RoundTrip.MountBodyIsDetermined` | src/core/unitspec.cpp:792-849 | an accepted mount body is, over all its [Mount] sections, exactly the five generated lines in some order, up to percent doubling in two of them |
| `RoundTrip.AutomountBodyIsDetermined` | src/core/unitspec.cpp:851-913 | an accepted automount body is exactly the three generated lines in some order |
| `RoundTrip.AcceptedForOneMarkerOnly` | src/core/unitspec.cpp:792-849 | no text is accepted for two mount points, or for two markers differing in what the options say |
| `RoundTrip.GenerationIsInjective` | src/core/unitspec.cpp:728-763 | equal mount units come from equal marker, address and mount point |
| `RoundTrip.LonePercentIsAccepted` | src/core/unitspec.cpp:719-724 | a Where= with undoubled lone percent signs is accepted although never generated |
| `RoundTrip.LonePercentExample` | src/core/unitspec.cpp:719-724 | a concrete such mount point |
| `UnitReading.ExtractAssignment` | src/core/verify.cpp:73-84 | the prefix search returns the last assignment to the key in the file |
| `UnitReading.EvaluateSide` | src/core/verify.cpp:105-156 | parsing and validating a half's text gives exactly what the protocol reads off its own picture of that file |
| `UnitReading.SideAgrees` | src/core/verify.cpp:105-156 | the protocol's abstract judgement of a half equals the judgement of its text |
| `UnitReading.GeneratedFilesAreTheNewHalves` | src/core/unitspec.cpp:728-790 | the two files define generates read as the two halves the protocol writes |
| `MountWalk.OpenMountpointNoFollow` | src/core/unitspec.cpp:198-324 | success returns the node at root/suffix, every component the caller's directory on its parent's mount, the last empty and private; nothing that existed changes but the last node's ownership and mode, and directories on that path that gain its next component; without faults it succeeds exactly when the tree is acceptable |
| `MountWalk.OpenMountpointNoCreate` | src/core/unitspec.cpp:326-419 | reads only; accepts exactly an existing path with the recorded owner and group on one mount, ending empty |
| `MountWalk.PreviewMountpointProblem` | src/core/unitspec.cpp:486-570 | a reported problem means the creating walk refuses; without faults silence means it accepts |
| `MountWalk.PreviewAgrees` | src/core/unitspec.cpp:486-570 | comparing each component with the root decides like comparing it with its parent |
| `MountWalk.ExistingImpliesAccepts` | src/core/unitspec.cpp:326-419 | what the boot walk accepts exists already and the creating walk accepts it too |
| `MountWalk.WalkStaysOnRootMount` | src/core/unitspec.cpp:258-315 | a walked path never leaves the root's mount |
| `MountWalk.Enter` | src/core/unitspec.cpp:216-276 | one component: created with the caller's ownership or checked, never more |
| `MountWalk.TakeOver` | src/core/unitspec.cpp:278-303 | only an empty last component is handed over, and nothing else changes |
| `Pairing.PairScannedHalves` | src/core/verify.cpp:284-362 | one entry per base name, ascending, each what its group and the collisions make of it |
| `Pairing.ScanOrderIrrelevant` | src/core/verify.cpp:284-362 | without a repeated half the report does not depend on the scan order |
| `Pairing.SurvivorsDistinct` | src/core/verify.cpp:330-361 | surviving pairs and partials have pairwise distinct ids and mount points |
| `Pairing.CollisionSurfaces` | src/core/verify.cpp:330-361 | every party to a collision loses id, owner, authentication and access; every other entry is as it would be alone |
| `Pairing.ReportedIdsDiffer` | src/core/verify.cpp:284-362 | entries that share an id have none |
| `Pairing.ReportSize` | src/core/verify.cpp:284-362 | as many entries as base names |
| `Pairing.Collisions` | src/core/verify.cpp:330-350 | the two-index second pass finds exactly the entries that clash with another |
| `Enumeration.EnumerateManagedUnits` | src/core/verify.cpp:370-420 | scanning the directory in any order reports its groups |
| `KeyOrder.KeysAscending` | src/core/verify.cpp:296-297 | each key once, in ascending order |
| `KeyOrder.AscendingUnique` | src/core/verify.cpp:296-297 | the ascending order of a key set is unique |
| `MountInfo.FourPassesAreOne` | src/core/verify.cpp:168-178 | the four replacements equal one left-to-right decoding, for every string |
| `MountInfo.UnescapeEscape` | src/core/verify.cpp:168-178 | every path the kernel escapes is read back exactly |
| `MountInfo.BackslashFirstIsWrong` | src/core/verify.cpp:174-176 | decoding the backslash first corrupts every name that spells an escape |
| `MountStack.ClassifyMountEntries` | src/core/verify.cpp:466-512 | the verdict is the one the uncovered entries of the stack determine |
| `MountStack.OrderIrrelevant` | src/core/verify.cpp:466-512 | permuting the entries changes nothing and the verdict is unique |
| `MountStack.MatchMeansOurShareOnTop` | src/core/verify.cpp:466-512 | Present and Match iff the one uncovered entry is a CIFS mount of the share; Indeterminate iff a non-empty stack has not exactly one |
| `MountStack.SomeMountIsVisible` | src/core/verify.cpp:466-512 | with distinct entries and acyclic parents some entry is uncovered |
| `MountModel.ComputeRefresh` | src/session/mountmodel.cpp:516-783 | four passes over one list and an index equal the list computed row by row from each row's own sources |
| `MountModel.RemovalOfferAgreesWithRoot` | src/session/mountmodel.cpp:61-168 | a row offers to remove a definition if and only if it is a pair or partial nothing local contradicts and root's stop gate would accept its runtime; blocked rows stay blocked |
| `MountModel.EveryRecordHasOneRow` | src/session/mountmodel.cpp:566-689 | each local record has exactly one row with its id: a unit's exactly when a unit claims the id |
| `MountModel.EveryMountIsAccountedFor` | src/session/mountmodel.cpp:732-752 | each live CIFS mount has a row of its own or a unit or record at its path |
| `MountModel.ForeignRowsAreASuffix` | src/session/mountmodel.cpp:732-752 | foreign rows are one block at the end and offer nothing |
| `MountModel.RecordOfferIsKeptUnlessInventoried` | src/session/mountmodel.cpp:691-730 | a record no unit claims offers its removal unless it is neither drifted nor corrupt and the inventory lists its id |
| `MountModel.StorePass` | src/session/mountmodel.cpp:566-689 | local records are merged by exact id or appended, and every id keeps leading to its one row |
| `MountModel.InventoryPass` | src/session/mountmodel.cpp:691-730 | each row is informed by exactly the inventory entries of its id |
| `Lookup.AcceptedIsTheAskedAccount` | src/session/credentiallookup.cpp:250-319 | an accepted candidate is the answer's own account, never a guest, the same account the question named, and of the asked share when the answer names one |
| `Lookup.Controller.Slot` | src/session/credentiallookup.cpp:494-559 | a settling event answers once while the lookup listens and never afterwards |
| `Lookup.Controller.Handle` | src/session/credentiallookup.cpp:494-583 | what each event does to started, listening and emitted |
| `Lookup.RunController` | src/session/credentiallookup.cpp:494-583 | over every interleaving the emitted signals are exactly the promised ones |
| `Lookup.AtMostOneSignal` | src/session/credentiallookup.cpp:494-583 | at most one signal over any history |
| `Lookup.NothingAfterCancel` | src/session/credentiallookup.cpp:567-583 | after the cancel of a started lookup nothing that follows is ever said |
| `Lookup.CancelBeforeStartIsNoCancel` | src/session/credentiallookup.cpp:567-583 | a cancel before the start silences nothing |
| `Lookup.DeliveredWasAccepted` | src/session/credentiallookup.cpp:494-559 | a delivered candidate was accepted for the started request from a reply that arrived |
| `Lookup.RunTransport` | src/session/credentiallookup.cpp:375-457 | at most one signal, none after abandon, and one for every child that finishes unabandoned |
| `Lookup.ProcessTransport.Handle` | src/session/credentiallookup.cpp:375-457 | once settled it stays silent; a reply only from a finish within the size limit |

## Left out

- Unit files, credentials and records are changed by nobody but the root operations; other people only touch triggers, mounts and, between operations, the mode of credentials.
- systemd jobs that take effect after their command was reported, and `systemctl` itself: start, stop and reload are primitives with three results.
- The root lock and its weakness around purge, which unlinks the lock's own directory: runs are serialised.
- systemd-escape: a unit name and its mount point are the same string in the protocol, which also hides a unit whose file name does not match its Where= except through purge's own comparison.
- Uninstall.RemoveTree: entries of the record and lock directories are never spoilt on their own; what may not be deleted there is one given fact per directory.
- A private directory whose own owner or mode is wrong: it is opened whenever it is there.
- The umask of the helper, under which a temporary file could get a narrower mode than its kind has and stand in the way of purge.
- readFileBounded, openVerifiedDir and setgid details: verifying what was opened is one fallible step.
- DurableFs.DurableReplace: file owner and the verification of the opened descriptor are one fallible step; content, mode and names are modelled.
- The content of credential files and their field limits: a credential is its id, present or not, and drifted or not.
- Host.Host.CredHealthy: the owner and mode of a credential file change between operations, not during one.
- Transient read errors while unit files are scanned: a file is readable or not for the whole operation.
- validateMountpoint with its allowed roots and home-directory resolution, QDir::cleanPath and the helper's argument checks: the walk starts at an authorised root.
- parseMountinfo's splitting of lines into fields, and kernel escapes other than the four decoded.
- Regular expressions are replaced by explicit predicates; a line ends at a line feed only, and a carriage return is an ordinary character.
- Decoding of bytes into text: files are sequences of characters, and characters outside the basic plane are ordered by code point.
- Sections.ExtractSectionAssignments: returns no error text; which of several faults is reported first is not modelled.
- MountModel.ComputeRefresh: details, labels, sections and boot health are not part of a row; the inspection of a saved path is a parameter.
- Boot.BootRun: the log it writes; account lookup and path walks are parameters.
- QUrl, JSON envelopes, message size of requests and case folding in the wallet lookup: parameters of `Lookup`.
- PackageState.ClassifyHost: an unreadable or missing unit directory and alternative file-system roots.
- KAuth, D-Bus, the dialog, the KCM and translations.
- Randomness of share ids: the candidates are arbitrary inputs.
