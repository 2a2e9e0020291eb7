# git-vws: a verified model of its state keeping

git-vws gives each working session its own clone of a Git tree and keeps everything it knows
about sessions and templates in a plain directory: records that are replaced by atomic renames,
root directories that move through recorded stages, and a journal that carries one
compare-and-swap on a ref of the authority repository. This project models the parts whose
correctness depends on what crashes, reruns and concurrent processes leave behind, and proves
what they are for.

| file | models | form |
|---|---|---|
| `RecordTxn.dfy` | atomic creation, replacement and removal of a record, over names and inodes | class; every directory state is kept, each is what a crash there leaves |
| `AuthorityRecord.dfy` | the text of an authority record, the names of temporary records | functions and lemmas |
| `Publish.dfy` | the publish journal, with outside writers on the ref and failures at every step | class with an event log, and lemmas about every allowed log |
| `SessionLife.dfy` | create, remove and gc of one session name, each cut off after any system call | class with a budget of system calls |
| `SessionLeases.dfy` | exec, publish, remove and gc on one session at once, under leases | step relation, unbounded processes |
| `TemplateGc.dfy` | session creators against template gc, with a census that is not atomic | step relation, unbounded processes |
| `TemplateLife.dfy` | acquire and gc of one template, each cut off after any system call | class with a budget of system calls |
| `Materializer.dfy` | the directory skeleton and the worker pool that fills a template | methods, and a step relation for the pool |
| `TreeStream.dfy` | the tree walk that seals, verifies and clones, and the stream it hashes | class for the walk, lemmas about the stream |
| `OwnedTree.dfy` | two-phase deletion with hard-link accounting | classes over a table of inodes |
| `LooseGc.dfy` | removal of private loose objects that the authority holds too | class |
| `Fiemap.dfy` | the loop that decides from extent maps whether two files share their data | method |
| `GitStream.dfy` | the buffered reader over a Git child's output | class |
| `Base.dfy` | bytes, options, file kinds and identities | |

Failure is modelled in two ways. Where a run is a sequence of commands, a command has a budget of
effective system calls and stops when it is spent, so every crash point is the end state of some
budget. Elsewhere a system call may fail at any time, and a flag `calm` singles out the runs in
which none does: contracts then say exactly when the operation succeeds. What fails for good, such as an
unlink in a directory that its owner cannot write, is part of the state and not of that flag. A
rename may also end with an unknown result.

Seven results say where the program does not do what a caller might expect:

- A creation cut off between making the session directory and recording its identity leaves a
  PREPARED record with a directory, which `remove --force` refuses on every rerun; and a creation
  whose clean-up is cut off after the directory is gone leaves a MATERIALIZING record that it
  refuses too. It also refuses a READY session whose publish journal is not idle or whose topology
  no longer loads. `SessionLife.Slot.Remove` states exactly when a forced removal can succeed, and
  `SessionLife.Slot.CutBeforeIdentity` builds the first case.
- A publish call that finds an attempted compare-and-swap ends there, and so does every later call
  (`Publish.AttemptIsNotReplayed`), even when the swap was never applied (`Publish.LoseSwap`, and
  an allowed log in `Publish.AttemptWithoutUpdate`). No sequence of commands ever removes such a
  session or changes its record (`SessionLife.Slot.Run`).
- The journal's transaction id is computed afresh by every publish, from the link count of the
  authority's Git directory among other things. A publish that was cut off and is rerun after a
  subdirectory came or went there (Git makes such directories itself) is refused, changes nothing,
  and is refused again until the old count is back; meanwhile removal and gc refuse the session too.
  A transaction is taken up exactly when the id computed by the call is the frozen one
  (`Publish.World.Publish`), which is exactly when the link count is that of its preparation
  (`Publish.MatchesByLinkCount`). `Publish.DriftedLinkCount` is a run with three links and then
  four, and `Publish.World.RefuseUntilBack` covers any number of reruns.
- One session that needs recovery stops every gc before it removes anything (`SessionLife.GcAll`),
  and so does a template build that was cut off while MATERIALIZING, which no command ever advances
  (`TemplateLife.Slot.Acquire`, `TemplateLife.Slot.Run`).
- gc refuses a tombstoned session with a special file in it on every rerun; the remove command
  finishes it (`SessionLife.Slot.OnlyRemoveFinishes`, `OwnedTree.GcRejectsSpecial`).
- A forced removal of a session with a file that is also linked from outside, or with a non-empty
  directory that its owner cannot write, tombstones it and then cannot finish
  (`SessionLife.Slot.Remove`). In the second case, entries that come before the first blocked one
  are gone by then; no command completes the removal, gc stops there before the sessions that come
  after, and only changing the modes helps (`SessionLife.Slot.ReadOnlyDirectory`,
  `SessionLife.GcAll`). For a whole tree, `OwnedTree.Volume.RemoveOwnedTree` has the exact
  condition and `OwnedTree.Volume.RemoveBlocked` the reruns. Removal of private objects has the
  same condition on the directories it takes entries from (`LooseGc.PrivateObjects.Sweep`).
- An error code says little about a record: STATE_RECORD_EXISTS and STATE_CLEANUP_FAILED promise the
  old record and STATE_COMMITTED_UNSYNCED the new one, while STATE_UNAVAILABLE and STATE_CORRUPT come
  with either, for example with the new one when only the read after the rename fails
  (`RecordTxn.WriteRecord`).

## Model

| member | source | states |
|---|---|---|
| RecordTxn.WriteRecord | src/authority.rs:1117-1295 | begin, commit and drop in a row: in every directory state of the run the record is its old binding or the complete new one, and no third name is touched; success means that the expectation held, the new binding is there, private and with the given bytes, and no temporary is left; without failures it succeeds exactly when the expectation holds, and no temporary is left in any case, nor when an existing record is refused; which error codes promise which record |
| RecordTxn.RecordTxn.Initialize | src/authority.rs:1187-1236 | while the temporary is protected, written chunk by chunk and synced, every state leaves the record and all other names as they were |
| RecordTxn.RecordTxn.Commit | src/authority.rs:1238-1260 | if the transaction is still armed afterwards nothing was renamed; outside drift right after the exchange that breaks either binding leaves the whole directory as the outside writer left it |
| RecordTxn.RecordTxn.CommitNew | src/authority.rs:1262-1295 | an unknown rename result leaves only legal states behind and disarms; an existing record is refused and kept; without failures the record is created exactly when there is none, also when the read after the rename fails |
| RecordTxn.RecordTxn.CommitExchange | src/authority.rs:1297-1382 | every state shows exactly the old or exactly the new binding, with the other one under the temporary name or gone; success removes the displaced record |
| RecordTxn.RecordTxn.FinishExchange | src/authority.rs:1324-1382 | acts only while both names hold exactly what the exchange put there, and otherwise changes nothing |
| RecordTxn.RecordTxn.Rollback | src/authority.rs:1399-1462 | swaps back only bindings this transaction owns, and then removes only its own temporary |
| RecordTxn.RecordTxn.RollbackIsLegal | src/authority.rs:1399-1462 | every state of a rollback shows the old binding or the new one |
| RecordTxn.RecordTxn.Abort | src/authority.rs:1464-1494 | touches nothing once a rename has happened or may have; before that it leaves the record alone and removes the temporary, which is gone when nothing fails and whenever the caller's own error is returned |
| RecordTxn.RecordTxn.Drop | src/authority.rs:1505-1512 | the same for a transaction that goes out of scope |
| RecordTxn.RecordTxn.VerifyNewBinding | src/authority.rs:1384-1397 | accepts only the exact new bytes under the temporary's own inode |
| RecordTxn.Directory.UnlinkCapability | src/authority.rs:2011-2026 | a name is removed only while it has the expected identity and one link |
| RecordTxn.Directory.ReadBinding | src/authority.rs:2302-2340 | a binding is returned only if it is what the name holds, private, and within the limit |
| RecordTxn.UnlinkedTemporary | src/authority.rs:2226-2243 | removing the temporary name shows under no other name and keeps the directory on its side of the commit |
| RecordTxn.ExchangedIsAfter | src/authority.rs:1320-1346 | an exchange over the expected record publishes exactly the new binding and displaces exactly the old one |
| RecordTxn.ExchangedBack | src/authority.rs:1428-1439 | a second exchange restores the state before publication |
| RecordTxn.ReadExpected | src/authority.rs:972-1014 | the transaction starts only from a record that matches the caller's expectation |
| RecordTxn.RemoveRecord | src/authority.rs:2157-2182 | a record is removed in one step, only while it is exactly the expected one, and no other name changes |
| AuthorityRecord.ReadsExactlyEncodings | src/authority.rs:1725-1823 | within the size limit the reader accepts a text exactly when it is the encoding of a valid record, and returns that record |
| AuthorityRecord.ParseEncode | src/authority.rs:191-203 | parsing undoes encoding for every valid record |
| AuthorityRecord.ParsedIsValid | src/authority.rs:1780-1823 | whatever the parser accepts satisfies the record's invariants |
| AuthorityRecord.ReadsBack | src/authority.rs:1780-1823 | which records are read back after writing, field by field and with the numbers written out |
| AuthorityRecord.SampleText | src/authority.rs:191-203 | one record's text, letter by letter |
| AuthorityRecord.UnhexHex | src/authority.rs:2100-2127 | lower-case Base16 decoding undoes encoding, and encodings have no line break |
| AuthorityRecord.ParseDecimal | src/authority.rs:1831-1838 | the number parser reads back every printed machine word without overflow |
| AuthorityRecord.FinalNameOfTemporary | src/authority.rs:2245-2263 | the record name is recovered from every temporary name, also when it contains dashes |
| AuthorityRecord.FinalNameIs | src/authority.rs:2245-2263 | a basename is recovered from exactly the names of a dot, a non-empty basename, two dashed runs of digits and the suffix |
| AuthorityRecord.TemporaryNameInjective | src/authority.rs:1130-1139 | different records, processes or serial numbers have different temporary names |
| Publish.World.Run | src/session.rs:787-882 | any number of publish calls, each cut off anywhere, with arbitrary outside ref writes in between, produces only allowed event logs |
| Publish.World.Publish | src/session.rs:787-882 | one call from any journal stage: a transaction is taken up only if the id computed from what this call finds is the frozen one, and otherwise the call fails and changes nothing, in any world; an attempted swap is reported and left alone; in a calm world any other transaction with its own id is published if nothing is in its way and the ref is still the frozen one, ends as a conflict if only the ref has moved, and stays where it is, with the ref untouched and the fitting error, if configuration or private branch has changed, the tip is no descendant, or objects are missing; from an idle journal every calm outcome is determined |
| Publish.MatchesByLinkCount | src/session.rs:1567-1594 | if the id determines what is hashed, a call takes the transaction up exactly when the authority directory has the link count it had when the transaction was prepared |
| Publish.World.RefuseUntilBack | src/session.rs:1521-1549 | any number of calls that find another id are all refused, with nothing but calls and outside writes in the log; a calm call that finds the old id again brings the transaction to its end |
| Publish.DriftedLinkCount | src/session.rs:884-893 | a concrete run: prepared with three links, refused with four, published with three again |
| Publish.World.PublishIdle | src/session.rs:812-868 | a calm publish from idle moves the ref to the private tip exactly when that is a fast-forward and not already there, and every other case has its answer; a journal it leaves behind carries the id of the link count it found |
| Publish.World.SameTip | src/session.rs:831-852 | with nothing to move, success needs the whole closure in the authority and the ref at the tip, and writes nothing |
| Publish.World.PublishPrepared | src/session.rs:884-924 | with another id nothing happens; with its own id, from PREPARED a calm run ends published with the ref at the frozen tip, or idle with a conflict and the ref untouched, or, with configuration or private branch changed, failed with the transaction kept |
| Publish.World.PublishObjectsImported | src/session.rs:926-986 | the same from OBJECTS_IMPORTED, where the closure must be in the authority again |
| Publish.World.CompareAndSwap | src/session.rs:953-986 | the only place that moves the ref needs the closure, the ancestry and a journal written by this very call; a lost swap leaves the attempt in the journal and the ref where it was |
| Publish.World.FinalizeCommitted | src/session.rs:988-999 | with another id nothing happens; otherwise a committed swap is finished as published with the record's expected-old advanced to the tip, without touching the ref |
| Publish.World.AbortConflict | src/session.rs:1611-1632 | a conflict returns the journal to idle and reports no success |
| Publish.World.WriteJournal | src/session.rs:1598-1609 | a journal write happens or not, and may be reported as failed either way; only successor stages can be written |
| Publish.World.UpdateRef | src/session.rs:4388-4414 | an atomic compare-and-swap; only a reported success says that the ref had the new value |
| Publish.World.EnsureRelation | src/session.rs:4270-4302 | without objection the tip descends from the frozen old value; in a calm world the converse too |
| Publish.World.VerifyClosure | src/session.rs:4349-4386 | acceptance means that everything reachable from the tip is in the authority; in a calm world the converse too |
| Publish.World.Import | src/session.rs:4319-4347 | authority objects only grow; a calm import brings the whole closure |
| Publish.Traverse | src/session.rs:4349-4386 | the walk finds exactly what is reachable, or names a missing object |
| Publish.UpdateIsItsEpisodes | src/session.rs:884-986 | every ref update by publish goes from exactly the frozen old value to exactly the frozen tip of the latest preparation, is the first one since then, and finds closure and ancestry in place |
| Publish.OneUpdatePerEpisode | src/session.rs:787-999 | between two updates the journal returned to idle and a new transaction was prepared |
| Publish.AttemptIsNotReplayed | src/session.rs:798-808 | after a call that finds CAS_ATTEMPTED no later event of the run writes the journal or moves the ref for publish |
| Publish.StageIsChecked | src/session.rs:812-986 | in every allowed run the fetch and each stage on the way to the swap come after fresh looks in the same call, since its last write or fetch: configuration and private branch as frozen, the ref at the frozen old value where it matters, objects fetched before they count as imported |
| Publish.LookIsTrue | src/session.rs:812-986 | a look finds what was there at that moment |
| Publish.LoseSwap | src/session.rs:953-986 | a swap that was never applied leaves the journal at the attempt, and the next call refuses, as an attempt or, after a change of the link count, as a mismatch |
| Publish.AttemptWithoutUpdate | src/session.rs:953-986 | a run that ends at the attempt without any update is allowed |
| Publish.ReportedWasThere | src/session.rs:823-999 | success is reported only for a value the ref had at some moment of the episode, also when a later call only finishes what a crash interrupted |
| Publish.EpisodeStart | src/session.rs:858-868 | a journal that is not idle goes back to one preparation with the same frozen fields |
| SessionLife.Slot.Run | src/session.rs:787-1209 | for any sequence of create, publish, remove and gc, each cut off anywhere, no directory is without its record, root and tombstone never coexist, and each directory is the one its record names; a session left at an attempted swap keeps its record and root through all of them, and one whose removal is blocked keeps its record and stays blocked |
| SessionLife.Slot.CompleteTombstone | src/session.rs:2055-2131 | on a tree the operation accepts and in which everything can be unlinked, every effective step lowers the number of steps left by exactly one; the run succeeds exactly for such a tree with enough budget, with record, root and tombstone gone; a tree it does not accept stays whole; any other loses, with enough budget, exactly what comes before the first entry that cannot be unlinked |
| SessionLife.Slot.Converge | src/session.rs:2055-2131 | rerunning a removal by an operation that can finish the tree, with at least one step each time, ends with everything gone within as many runs as steps were left |
| SessionLife.Slot.OnlyRemoveFinishes | src/session.rs:2114-2118 | a tombstoned session with a special file and nothing else in the way survives any number of gc runs, and one removal by the remove command ends it |
| SessionLife.Slot.ReadOnlyDirectory | src/storage.rs:2027-2163 | a READY session with a read-only directory that holds a file: a forced removal is cut off with the session tombstoned, whatever commands follow leave it there, and a removal after the modes are changed ends it |
| SessionLife.Slot.FinishBlocked | src/session.rs:1005-1088 | a removal that is blocked by modes alone ends once they are changed |
| SessionLife.Slot.Promote | src/session.rs:2133-2199 | the root is renamed to the tombstone name at most once, and never while a tombstone is there |
| SessionLife.Slot.RemoveTombstoneTree | src/storage.rs:1708-1806 | a tree that is not accepted is left whole; any other shrinks by one entry a step until it is gone or the next entry cannot be unlinked |
| SessionLife.Slot.Remove | src/session.rs:1005-1088 | a forced removal with enough budget leaves nothing exactly when the session is recoverable: it is admitted (if READY, its journal is idle and its topology loads), its tree is accepted, and every non-empty directory in it can be written; forced, it refuses exactly what is not admitted; a refusal changes nothing; without force only a clean READY or a TOMBSTONED session goes; a READY session with an outside link or a blocked entry is tombstoned and stays |
| SessionLife.Slot.CutBeforeIdentity | src/session.rs:1182-1195 | a concrete cut after which forced removal refuses for good |
| SessionLife.Slot.Gc | src/session.rs:2826-2900 | gc finishes removals and starts none; a tombstoned session is gone after enough steps exactly when nothing needs recovery, its tree has no special file, and its non-empty directories can be written |
| SessionLife.GcAll | src/session.rs:506-593 | one session that needs recovery stops the collection of every session; a tombstoned one that gc cannot finish stops it for all that come after; when there is neither and nothing fails, every tombstoned one is gone and no other has changed |
| SessionLife.Census | src/session.rs:2629-2749 | the census is safe exactly when there is no PREPARED record with a root, no MATERIALIZING one without, and no READY one whose journal is not idle, whose topology is not intact or whose private objects cannot be told apart |
| SessionLife.Slot.Publish | src/session.rs:787-882 | only a READY session that loads has its journal moved, through exactly the stages that may follow one another within the budget, and an attempt found in it is left alone |
| SessionLife.Slot.Create | src/session.rs:1090-1209 | a creation that is not cut off ends READY under a new identity, or with nothing, or with what was built so far, according to the error; an existing record is never changed, and found ready exactly when it matches, link count of the authority directory included, its journal is idle and it loads |
| SessionLife.Slot.AbortCreate | src/session.rs:2469-2491 | the clean-up of a failed creation takes root and then record, and never leaves a root without a record |
| SessionLeases.StepKeepsInv | src/session.rs:1862-1931 | lease plus second look: what each process relies on is kept by every step of every other process |
| SessionLeases.WorkersAreSafe | src/session.rs:753-808 | in every reachable state whoever works under a lease works in a READY session whose root is in place; a journal that is not idle belongs to a READY record; while an exec'd program lives the journal is idle |
| SessionLeases.DestructionIsExclusive | src/session.rs:1904-1931 | no step renames the tree or unlinks in it, tombstones the record or writes the journal while another process works there; tombstoning finds an idle journal |
| SessionLeases.TombstonedIsFinal | src/session.rs:4893-4902 | a TOMBSTONED record never changes until it is removed, and nobody let in on the READY record is at work |
| SessionLeases.OrphanKeepsLease | src/git.rs:110-164 | a program that outlives its parent keeps the lease: no other command can lock the root or holds it |
| SessionLeases.CanBeRemoved | src/session.rs:1005-1088 | from every reachable state some continuation removes the session: no lease and no half-done step is in the way for good |
| SessionLeases.CanBeUsed | src/session.rs:753-808 | from every reachable READY state some continuation publishes, runs a program that outlives its parent, and collects loose objects after it has ended |
| SessionLeases.CanShare | src/session.rs:1862-1931 | any number of programs can run in one session at once |
| TemplateGc.StepKeepsInv | src/template.rs:253-286 | what creators and collectors rely on after their second look is kept by every step of every other process |
| TemplateGc.NamedTemplatesAreReady | src/session.rs:2629-2749 | in every reachable state a template named by a session record is READY with its sealed root in place and untouched |
| TemplateGc.CensusIsRight | src/template.rs:463-575 | a census that read everything it listed and found nothing is right although it is not atomic; no census of a completer finds a tombstoned template reachable |
| TemplateGc.TombstonedIsUnnamed | src/template.rs:463-575 | a tombstoned template is named by no session record at any time, so neither by a census taken without a lease |
| TemplateGc.NothingNamesIt | src/template.rs:463-487 | tombstoning after such a census happens only when no session record names the template |
| TemplateGc.DestructionIsExclusive | src/template.rs:513-575 | nothing of a template is destroyed while a creator that looked again under its lease is at work, nor while a session record names it |
| TemplateGc.CanBeRenewed | src/template.rs:404-575 | from every reachable state some continuation removes the template, and another builds it again and names it |
| TemplateGc.CanShare | src/template.rs:253-286 | any number of creators can work on one template at once |
| TemplateLife.Slot.Run | src/template.rs:160-251 | for any sequence of acquire and gc, each cut off anywhere, PREPARED roots are absent or empty, PUBLISHING and READY roots are complete under the sealed receipt, and a tombstoned root that is still read-only is complete; a MATERIALIZING build stays as it is |
| TemplateLife.Slot.Acquire | src/template.rs:160-251 | an undisturbed rerun from PREPARED or PUBLISHING ends READY, from PUBLISHING under the very receipt that was sealed; MATERIALIZING and TOMBSTONED are never advanced |
| TemplateLife.Slot.AdvancePrepared | src/template.rs:975-1067 | every cut leaves a state that a rerun's checks accept; an undisturbed run ends READY with the manifest as content |
| TemplateLife.Slot.PublishTemplate | src/template.rs:1103-1199 | whatever the mode swings around the rename left, no check rejects it, and four effective steps reach READY |
| TemplateLife.Slot.RenameReady | src/template.rs:2566-2636 | a failed rename seals the building root again; a done one leaves a sealed root under the READY name |
| TemplateLife.Slot.CompleteTombstone | src/template.rs:513-575 | no check rejects a half-removed tree; every effective step lowers the steps left by exactly one, and the run succeeds exactly when the budget suffices |
| TemplateLife.Slot.PrepareRename | src/template.rs:578-615 | on macOS the root is private before it is renamed, elsewhere nothing changes |
| TemplateLife.Slot.RemoveTree | src/storage.rs:1983-2025 | a root becomes private before anything in it is removed, so a read-only one is complete at every cut |
| TemplateLife.Slot.Gc | src/template.rs:404-487 | an incomplete template stops gc before it changes anything; a reachable one is kept and gc goes on; otherwise an unreachable READY or a TOMBSTONED one is gone after enough steps |
| TemplateLife.Slot.Converge | src/template.rs:513-575 | rerunning the removal ends with record, root and tombstone absent |
| Materializer.PrepareSkeleton | src/template.rs:1668-1684 | afterwards exactly the directories of all entries have been added, and without failures it succeeds exactly when the volume takes none of them for a file, for a directory of another name, or for one another |
| Materializer.DestinationParent | src/template.rs:2044-2116 | makes only missing directories, in the way the specification says, and none where all are there |
| Materializer.ParentsFound | src/template.rs:2044-2116 | where the directories exist the mkdir branch is not taken |
| Materializer.ParentsFit | src/template.rs:2044-2116 | the directories above one path can be had exactly where they fit, and are all that is added |
| Materializer.SkeletonFits | src/template.rs:1668-1684 | the same for the whole manifest |
| Materializer.StepKeepsInv | src/template.rs:1797-1906 | every step of dispatcher and workers keeps each entry accounted for |
| Materializer.OkMeansComplete | src/template.rs:1686-1795 | success means every manifest entry was written exactly once, nothing else was, and no worker made a directory |
| Materializer.NothingFailedMeansOk | src/template.rs:1757-1794 | when all workers are joined, success is returned exactly when nothing failed: the final count check never decides |
| Materializer.NoDeadlock | src/template.rs:1797-1827 | the bounded queues never block a run in which nothing has failed |
| Materializer.AlwaysWithinManifest | src/template.rs:1829-1906 | at every moment of every schedule no directory was added, no queue is over its bound, and only manifest entries were written |
| TreeStream.PreimageDeterminesTree | src/storage.rs:647-864 | two accepted trees have the same preimage exactly when they are the same tree, whichever walks hashed them |
| TreeStream.TreePrefixFree | src/storage.rs:1057-1138 | no node's stream is a prefix of another's, whatever follows |
| TreeStream.FieldsPrefixFree | src/storage.rs:2282-2285 | lists of length-prefixed fields are determined by their bytes |
| TreeStream.ListingIsUnique | src/storage.rs:1410-1452 | name order makes the stream independent of the order in which a directory is read |
| TreeStream.AcceptableIsGood | src/storage.rs:647-864 | a walk accepts exactly the trees in which every path leads to a directory, file or link with the modes, link counts, names and sizes that are written out |
| TreeStream.FileBytes | src/storage.rs:1057-1124 | the stream of a short 0444 file, byte by byte |
| TreeStream.LinkBytes | src/storage.rs:1126-1138 | the stream of a short symbolic link, byte by byte |
| TreeStream.DirectoryBytes | src/storage.rs:843-864 | the stream of an empty directory, byte by byte |
| TreeStream.Walker.WalkTree | src/storage.rs:647-864 | a finished walk accepted the tree, appended exactly its stream and its count in every mode, sealed or copied it as the mode says; it objects only to a tree it may not accept |
| TreeStream.Walker.WalkEntry | src/storage.rs:680-860 | the same for one entry of a listing |
| TreeStream.Walker.HashRegular | src/storage.rs:1057-1124 | the bytes hashed for a file do not depend on how reads split it |
| TreeStream.SealTree | src/storage.rs:273-305 | the receipt is the digest of the sealed tree's preimage and its count; when no system call fails, a tree is sealed exactly when every path in it is acceptable for sealing and its entries are as many as expected |
| TreeStream.VerifyTree | src/storage.rs:318-346 | succeeds exactly on trees that are acceptable path by path and match the receipt, when no system call fails |
| TreeStream.CowClone | src/storage.rs:181-271 | a finished clone is the old worktree plus the image of the source, under the expected receipt; when no system call fails, it is made exactly from a fresh worktree and a sealed tree that is acceptable path by path and matches the receipt |
| TreeStream.CloneIsExact | src/storage.rs:181-271 | path by path: below .git the clone is what it was, and everywhere else it has exactly the source's paths, contents, targets and adjusted modes |
| TreeStream.ReceiptBindsTree | src/storage.rs:318-346 | a tree later verified against a receipt is the tree that was sealed, or two different preimages collide |
| TreeStream.SealedIsSame | src/storage.rs:273-305 | sealing changes directory modes only, and every later walk accepts the result |
| OwnedTree.Volume.RemoveOwnedTree | src/storage.rs:1708-1806 | undisturbed, it succeeds exactly when, by kinds, owners, modes and link counts alone, every directory is the user's and open to its owner, everything else is a regular file, a symbolic link or, unless gc runs, a special file, every regular file has all its links in the tree, every other file one, and in an unsealed tree every non-empty directory can be written; a tree the first pass does not accept is neither unlinked from nor chmodded; afterwards no file of the tree has a link; a stop half way leaves the entries from some point on in name order, out of writable directories only, as a tree that is accepted again and is as writable as before; while a sealed root is still read-only nothing at all has changed |
| OwnedTree.Volume.RemoveBlocked | src/storage.rs:2027-2163 | an accepted unsealed tree with a non-empty directory that cannot be written survives any number of removals by either command, accepted and blocked every time |
| OwnedTree.Volume.RemoveAgain | src/storage.rs:1983-2163 | after any number of removals of a sealed tree, each failing anywhere, the root is gone, or private, or read-only with everything in it as it was sealed |
| OwnedTree.GcRejectsSpecial | src/storage.rs:1692-1706 | gc and the remove command accept the same trees except for special files |
| OwnedTree.AcceptsByStat | src/storage.rs:2165-2256 | the first pass lets in exactly the trees whose directories and leaves are good ones, with kinds and modes written out |
| OwnedTree.DeletableByStat | src/storage.rs:1708-1806 | the same for the whole condition of a removal |
| OwnedTree.Volume.Preflight | src/storage.rs:2165-2256 | accepts exactly the removable kinds, owners and modes, and counts every link of multiply linked files |
| OwnedTree.Volume.RemoveChildren | src/storage.rs:2027-2163 | throughout, each file's links are exactly those in what is left of the tree and each counter equals them; undisturbed, it succeeds exactly when the directory is sealed or everything in it can be unlinked, which no unsealed removal changes; a sealed directory becomes private before anything below it changes |
| OwnedTree.Volume.RemoveLeaf | src/storage.rs:2113-2150 | a counter that equals its file's link count never refuses it, the unlink goes through exactly when the directory can be written, and counter and link count still agree after it |
| OwnedTree.Volume.PreflightLeaf | src/storage.rs:2202-2246 | a file is accepted exactly when its kind may be removed and anything but a regular file has one link; the counters then cover it, without overflow |
| OwnedTree.ContainedByCounters | src/storage.rs:53-57 | the counters are full exactly when all regular files are contained |
| OwnedTree.StartCounting | src/storage.rs:1743-1775 | after the first pass counters and link counts agree for every file |
| OwnedTree.StillRemovable | src/storage.rs:2027-2163 | what a failed removal leaves passes the first pass again |
| LooseGc.PrivateObjects.Sweep | src/session.rs:2923-3045 | at whatever step it stops every object id reads as before; when it ends, exactly those objects are gone whose authority copy has the same bytes where both have one link, and no empty fanout is left; calm, it ends exactly when the plan still holds and every directory that loses an entry can be written |
| LooseGc.PrivateObjects.SweepFanout | src/session.rs:3047-3095 | only redundant objects of the fanout go |
| LooseGc.PrivateObjects.UnlinkIdentical | src/storage.rs:1886-1918 | an object is unlinked only while it and the authority's copy have the same bytes and one link each |
| LooseGc.PrivateObjects.ClassifyFanout | src/session.rs:3474-3532 | the plan is the classification of every object, in whatever order they are read: exactly the singly linked duplicates are to be removed |
| LooseGc.SweepKeepsView | src/session.rs:3560-3601 | any part of a sweep leaves every object readable with the same bytes |
| LooseGc.SweepIsExact | src/session.rs:2923-3095 | a finished sweep keeps exactly what is not redundant, in exactly the fanouts that have some |
| LooseGc.CleanPlansNothing | src/session.rs:3560-3601 | a second classification finds nothing to remove |
| Fiemap.ProvesShared | src/storage.rs:2296-2408 | for any answers the loop ends without overflow; true means gap-free evidence of shared, usable, identical extents; identical fully shared layouts are recognised |
| Fiemap.TrustedBits | src/storage.rs:2345-2375 | an extent counts exactly when its shared bit is set and none of eight others, by their numbers |
| GitStream.GitChild.ReadNulRecord | src/git.rs:574-635 | the record depends on the remaining stream only, never on its chunks; it is rejected exactly when too long or unterminated; nothing is lost or duplicated |
| GitStream.GitChild.ReadListing | src/template.rs:1516-1549 | a whole listing is the NUL-split of the stream |
| GitStream.GitChild.ReadExactStdout | src/git.rs:523-572 | returns exactly the next bytes, or says that the stream is too short |
| GitStream.GitChild.ReadLineStdout | src/git.rs:643-656 | returns exactly the next line within the limit |
| GitStream.GitChild.DrainBatchStdout | src/git.rs:742-777 | buffers without losing or reordering, within the bound |
| GitStream.RecordIs | src/git.rs:574-635 | a record is exactly what comes before the first zero byte within the limit; the three other answers are told apart exactly |
| GitStream.LineIs | src/git.rs:643-656 | the same for a line, whose line break counts towards the limit |
| GitStream.SplitJoin | src/git.rs:574-635 | splitting undoes joining of terminated records |
| GitStream.JoinSplit | src/git.rs:574-635 | joining undoes splitting, and what follows the accepted records is what was rejected |
| GitStream.AcceptedIffJoined | src/git.rs:574-635 | a listing is accepted exactly when it is a sequence of terminated records within the limit |

## Left out

- SHA-256, FNV and JSON: a digest is an arbitrary function of its preimage, and session and template records are values, as their codec compares a re-encoding.
- Git itself: update-ref is one compare-and-swap, fetch adds objects, merge-base and fsck walk the object graph.
- Power loss that reorders directory updates: a crash stops a process between system calls, and a sync is a step that may fail.
- Concurrency of create and remove on sessions that are not READY: those commands are sequences, each cut off anywhere, because remove releases the HOME lock early.
- Identities: a root directory's inode and a session record are not reused while a process still refers to them; in `TemplateGc` each build and each session record has a number of its own.
- Outside writers on the state directory, other than the drift right after an exchange that the record tests provoke, and on a tree while it is deleted.
- SessionLeases.StepKeepsInv: does not create the session again after its record is removed; a new session has another root, and its life is in `SessionLife`.
- SessionLife.Slot.Create: what is built is a list of entry kinds, and whether an existing record matches is an answer given to it; the content of a clone is in `TreeStream`.
- SessionLife.Slot.RemoveTombstoneTree: a session tree is a list of entry kinds in the order of their removal, with a verdict on its links and the place of its first blocked entry; the recursive removal and that verdict are in `OwnedTree`.
- SessionLife.GcAll: template gc and private-object clean-up are answers given to it; they are in `TemplateLife`, `TemplateGc` and `LooseGc`.
- SessionLeases.CanBeRemoved: says that a continuation exists, in which running programs end and other commands run; a scheduler that never lets them is not excluded. The same holds for `TemplateGc.CanBeRenewed`, which also removes the sessions.
- TemplateLife.Slot.RemoveTree: a template is a list of items; that a read-only root of a real tree is complete at every failure is `OwnedTree.Volume.RemoveAgain`.
- Publish.AttemptIsNotReplayed: a publish that is killed takes its `git update-ref` child with it; a child that outlives it and swaps late would be one more ref update of that episode.
- TemplateLife.Slot.Acquire: a template's content is a list of items and sealing is one step; content, directory modes and digests are in `TreeStream`.
- TreeStream.Walker.WalkTree: ownership, volume, extended attributes, access lists and flags are two booleans per node, and a copied file has the source's bytes.
- OwnedTree.Volume.RemoveOwnedTree: the user is not privileged, so the owner's mode bits decide; mount changes during a walk are not modelled.
- Materializer.OkMeansComplete: an entry's blob content, the idle deadline of a worker's Git child and the join order are not modelled; a deadline is a failure at any moment.
- Publish.World.Publish: the link count of the authority directory is the one thing in the transaction id that can change without an earlier check refusing; the other fields of that directory, the session and the target are constant.
- LooseGc.PrivateObjects.Sweep: packs, alternates and the fanout binding checks are not modelled; the authority store is stable during the run.
- Predecessor temporaries of records that gc removes, `list`, `doctor` and their reports.
- Process spawning, poll, signals, kill logic and wall-clock time in `git.rs`: a read or a wait may fail at any moment.
- Filesystem probes, clone ioctls, the macOS branches other than the root mode changes, the command line, and error texts.
