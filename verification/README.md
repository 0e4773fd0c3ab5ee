# gnome-pilot: a verified model

gnome-pilot keeps a Palm handheld and a PC in step. This project models the parts
of it that decide what happens to a user's data, and proves what they keep:

* **The record synchronisation engine** (`gpilotd/gnome-pilot-conduit-standard-abs.c`).
  Two databases, the device's and the PC's, are reconciled record by record with
  the 20-case table of Palm's conduit manual (quoted at lines 1094-1170), in a slow
  or a fast pass, a merge in each direction, a sweep over deleted records, and a
  close. `Records`, `Databases` and `StandardAbs` hold the records, the two mutable
  sides and the conduit object with its loops; `SyncState` gives the meaning of every
  operation as a function of the state; `SyncCells`, `SyncSteps`, `SyncPasses` and
  `SyncRuns` show that a run treats every record identifier on its own, and
  `SyncStrays` follows the PC records that have none; `SyncTheorems`, `PalmTable`,
  `SyncResults`, `SyncReruns`, `SyncMerges`, `SyncCopies` and `SyncSequels` hold the results.
* **The persistent request queue** (`gpilotd/queue_io.c`) and the installs that use
  it (`gpilotd/manager.c`): `KeyFiles`, `Text`, `GroupNames`, `SyncTypes`,
  `RequestQueue`, `RequestHistories`, `QueueRuns`, `QueueBooks`, `Installs`.
* **The list of enabled conduits and the one-time first synchronisation**
  (`gpilotd/gnome-pilot-conduit-config.c`, `gpilotd/manager.c`): `ConduitFiles`,
  `ConduitConfig`, `ConduitHistories`, `Sessions`.
* **The saved setup and its two readers** (`capplet/pilot.c`,
  `gpilotd/gnome-pilot-structures.c`): `Setup`, `SetupFile`, `SetupResults`.
* **The search for a fresh name** (`capplet/util.c`) and **the throttled progress
  signal** (`gpilotd/gnome-pilot-conduit.c`): `FreshNames`, `Progress`.

`dafny verify dfyconfig.toml` checks everything.

## Where the promise fails, and exactly when it holds

Several properties one expects of the code do not hold for all inputs. For each the
model keeps the code as it is and proves the exact condition; `SyncCounterexamples` and
`FileCounterexamples` hold an input for each that shows the condition to matter:

* *No edit is lost*: `SyncTheorems.LosesEdit` names the three losing situations (a
  conflict on a record archived on the PC, which is stored before it is sent; a
  conflict whose write the device refuses; a changed device record whose identifier a
  new, or under an archived device record a pending, PC record carries). A PC record
  without an identifier is never lost (`SyncResults.UnnumberedStaysOnPC`).
* *Both sides agree after a run*: `SyncTheorems.Mendable` for the pairs, and no PC
  record that ends without an identifier (`SyncStrays.Strays`): a new record whose write
  is refused is marked clean, loses the identifier if it has one, and is never sent
  again; a modified record without one is sent, but gets none.
* *The fast form gives the slow form's result*: `SyncTheorems.FastSuffices`.
* *A second run changes nothing*: a fast one never does, whatever the databases held
  before the first; a slow one does for the four situations of `SyncTheorems.Restless` and
  after a modified record without an identifier was sent.
* *A copy to the device mirrors the PC*, and *copying there and back changes nothing*: the
  device accepts every live record.
* *A run after a merge in one direction does what a run instead of it would*:
  `SyncSequels.MendableAfterPush` and `MendableAfterPull`. The close after a merge clears
  the device's dirty flags and drops the PC's deleted records, also those the merge did not
  carry over (lines 574-600, 1706-1720).
* *The table is followed*: `PalmTable.Departs` names row 20; row 16 when the device has
  no record, or in the fast form, whose modified pass asks for records that are not
  archived (line 1538); and, in the fast form, unflagged device records of row 1.
* *A stored request reads back as itself*: `RequestHistories.NoLeftovers`. *A load shows
  everything pending*, *a store adds a request*, *removing a request undoes its store*: the
  number against the counter, or whether the number was free.
  *Installing leaves the other requests visible*: installs queued last.
* *Disabling a conduit touches that conduit only*: no second spelling of its id in the
  list (it is found by an exact comparison and removed by one that ignores case).
* *The setup that was saved is read back*: `SetupResults.Plain`, which also shows that a
  `creation` or `romversion` from 2^31 upwards does not survive a 64-bit `unsigned long`.
* *The first synchronisation runs once*: it is taken in one session at most, but within
  that session every time the conduit is run (`ConduitHistories.FirstSyncEveryTimeWithin`).

## What the engine assumes of code it only calls

* `dlp_WriteRecord` replaces a record with a known identifier in place, creates one with
  an unknown nonzero identifier, and gives identifier 0 the next number of the device's
  seed, which is above every identifier in use. What it wrote is dirty, and neither
  deleted nor archived. A set of identifiers the device refuses to write is a parameter
  of the model; a refused write changes nothing.
* `dlp_DeleteRecord` leaves a tombstone in place, and fails without effect on an unknown
  identifier. `dlp_CleanUpDatabase` drops tombstones and archived records,
  `dlp_ResetSyncFlags` the dirty flags. `dlp_ReadNextModifiedRec` visits every dirty,
  deleted or archived record once, in order. A read of an unknown identifier leaves a
  record without flags.
* The conduit's virtual methods do what their names say: `match_record` finds by
  identifier, `transmit` keeps identifier and content, `compare` tells whether contents
  differ, `store_remote` replaces or appends by identifier and leaves the record clean and
  not archived, `archive_local` and `archive_remote` move a record to the archive,
  `iterate` and `iterate_specific` are cursors over the list, `purge` drops deleted records.
* Identifiers are distinct on each side, except 0 among PC records, where it means "none".
  Whether the device accepts writes of records without an identifier is whether it refuses
  identifier 0.
* A conduit object is new for each session, so `record_ids_to_ignore` starts empty
  (`SyncResults.Start`).

A tombstone on the device without a PC record is stored as in case 1, as the code does
(lines 1456-1475), and a record is marked clean before it is written (line 1073), also when
the write is refused.

## Model

| member | source | states |
|---|---|---|
| SyncResults.Convergence | gpilotd/gnome-pilot-conduit-standard-abs.c:632-696 | from any start: after a two-way run every PC record has an identifier, and every identifier, old or newly assigned, is clean and equal on both sides, or gone from both, or a conflict whose versions were exchanged, if and only if every pair was mendable before and no PC record was bound to end without an identifier |
| SyncResults.ConvergenceAt | gpilotd/gnome-pilot-conduit-standard-abs.c:632-696 | the same for each identifier known before the run, whatever the other records are and whichever writes the device refuses |
| SyncTheorems.ConvergesExactly | gpilotd/gnome-pilot-conduit-standard-abs.c:1174-1479 | the same for one identifier, with a condition read off the two records before the run |
| SyncResults.NewRecordsArrive | gpilotd/gnome-pilot-conduit-standard-abs.c:1519-1532 | whatever else the databases hold, the m-th new PC record without an identifier ends on both sides, equal and clean, under the m-th identifier the device hands out, if and only if the device accepts such records |
| SyncResults.ModifiedRecordsAreSent | gpilotd/gnome-pilot-conduit-standard-abs.c:1538-1543 | the m-th modified PC record without an identifier is sent under the m-th number after those of the new ones, and nothing on the PC is under that number, if and only if the device accepts such records |
| SyncResults.FreshIdentifiers | gpilotd/gnome-pilot-conduit-standard-abs.c:1506-1546 | what is under every identifier not known before the run, on both sides, and how many the device hands out; the same in both forms |
| SyncResults.LooseEnd | gpilotd/gnome-pilot-conduit-standard-abs.c:1522-1528 | the PC records that end without an identifier are exactly those that have none and get none and the new ones whose write is refused, in their order, with their content, marked clean if they were new or modified |
| SyncResults.UnnumberedStaysOnPC | gpilotd/gnome-pilot-conduit-standard-abs.c:1519-1543 | the content of a PC record without an identifier is on the PC after every run, unless it was deleted |
| SyncResults.EditsSurvive | gpilotd/gnome-pilot-conduit-standard-abs.c:632-696 | for every identifier both sides' new or changed content is on the device or the PC, or was archived, after a run, if and only if the pair is not one of the losing situations; a new PC record whose write is refused is found on the PC without its identifier |
| SyncTheorems.EditsSurviveExactly | gpilotd/gnome-pilot-conduit-standard-abs.c:1223-1475 | the same for one identifier, with refused writes, archived records and case 20's order included |
| SyncResults.DeviceTouchedOnce | gpilotd/gnome-pilot-conduit-standard-abs.c:1190-1202 | after a whole run the ignore list holds exactly the identifiers written or deleted; an identifier known before is on it once or not at all, as a condition on its two records before the run says |
| SyncTheorems.TouchedExactly | gpilotd/gnome-pilot-conduit-standard-abs.c:1223-1475 | the number of writes and deletes a run issues for one identifier is 1 or 0, and 1 exactly for the pairs listed |
| SyncTheorems.DecidedOnce | gpilotd/gnome-pilot-conduit-standard-abs.c:675-692 | of the passes of a run at most one acts on an identifier, so what it decides is never redone or undone, and which one acts depends on the records at the start alone |
| SyncResults.FastIsSlow | gpilotd/gnome-pilot-conduit-standard-abs.c:677-692 | from any start the fast and the slow form end in the same device and PC records for every identifier, known or newly assigned, if and only if each unflagged device record has a PC record that is not archived; PC records without an identifier end alike in any case |
| SyncTheorems.FastIsSlowExactly | gpilotd/gnome-pilot-conduit-standard-abs.c:1622-1655 | the same for one identifier, and then the archive and the number of device operations are equal too |
| SyncReruns.RunQuiets | gpilotd/gnome-pilot-conduit-standard-abs.c:1706-1720 | whatever the databases held, after a run no device record is flagged, and no PC record is new, modified or deleted unless it is archived; deleted ones are gone |
| SyncReruns.SettledExactly | gpilotd/gnome-pilot-conduit-standard-abs.c:675-692 | after a run every device record has a PC record that is not archived, if and only if no pair was one of the four restless situations and no modified record without an identifier was sent |
| SyncReruns.SecondRunChangesNothing | gpilotd/gnome-pilot-conduit-standard-abs.c:675-692 | from any start: a second run, by a new conduit object, changes no content, identifier, flag, status or archive entry on either side, if and only if it is fast, or the first run left nothing to do |
| SyncReruns.SecondRunAt | gpilotd/gnome-pilot-conduit-standard-abs.c:675-692 | the same for the records of each identifier, whatever the other records are |
| SyncTheorems.SecondRunExactly | gpilotd/gnome-pilot-conduit-standard-abs.c:1223-1475 | the same for one identifier, with a condition read off the two records before the first run |
| SyncReruns.SameObjectChangesNothing | gpilotd/gnome-pilot-conduit-standard-abs.c:675-692 | the conduit object of the first run, which ignores what that wrote, changes nothing in these cases either |
| SyncReruns.SettledIsFixed | gpilotd/gnome-pilot-conduit-standard-abs.c:675-692 | a fast run over databases without marks is the identity on the whole state, and so is a slow one if each device record has a PC record that is not archived |
| SyncReruns.FixedExactly | gpilotd/gnome-pilot-conduit-standard-abs.c:675-692 | for a new conduit object these are the only runs over such databases that change nothing |
| SyncResults.Stages | gpilotd/gnome-pilot-conduit-standard-abs.c:675-692 | every pass of a run keeps the invariant of the state; the device hands out one identifier for each new and each modified record without one, if it accepts them, and none besides; what becomes of each position on the PC |
| PalmTable.FollowsTable | gpilotd/gnome-pilot-conduit-standard-abs.c:1115-1170 | a run leaves on the device, on the PC and in the archive what the manual's row for the two records says, if and only if the row is not one of the listed departures |
| SyncRuns.SynchronizeDecomposes | gpilotd/gnome-pilot-conduit-standard-abs.c:632-696 | a whole run keeps the state's invariant, and what it does to the records of one identifier depends on those records and on nothing else |
| SyncRuns.MergeDecomposes | gpilotd/gnome-pilot-conduit-standard-abs.c:1506-1546 | the merge to the device, in any direction, acts on each identifier by itself and keeps the invariant |
| SyncRuns.CloseStep | gpilotd/gnome-pilot-conduit-standard-abs.c:1706-1720 | the close drops tombstones, archived device records and deleted PC records, clears the dirty flags, and keeps the invariant |
| SyncPasses.RemotePassCell | gpilotd/gnome-pilot-conduit-standard-abs.c:1603-1616 | a pass over the device records visits the record of each identifier once, whatever the other visits write |
| SyncPasses.LocalPassCell | gpilotd/gnome-pilot-conduit-standard-abs.c:1538-1543 | a pass over the PC records with a status visits the record of each identifier once, whatever the other visits write |
| SyncPasses.NewPassNumbers | gpilotd/gnome-pilot-conduit-standard-abs.c:1519-1532 | the pass over new records gives those without an identifier the device's next ones in the order of the list |
| SyncStrays.ModifiedNumbers | gpilotd/gnome-pilot-conduit-standard-abs.c:1538-1543 | the pass over modified records, in any direction that reaches the device, sends those without an identifier under the device's next ones in the order of the list |
| SyncStrays.ErasedStays | gpilotd/gnome-pilot-conduit-standard-abs.c:1410-1418 | a record deleted before the device ever saw it stays deleted until the purge |
| SyncSteps.RemoteStep | gpilotd/gnome-pilot-conduit-standard-abs.c:1187-1194 | synchronising one device record keeps the invariant and changes no record of another identifier |
| SyncSteps.LocalVisitStep | gpilotd/gnome-pilot-conduit-standard-abs.c:1195-1215 | synchronising one PC record keeps the invariant and changes no record of another identifier |
| SyncSteps.InstallStep | gpilotd/gnome-pilot-conduit-standard-abs.c:1522-1532 | sending one new record and giving it the identifier the write reports, or none when it is refused, keeps the invariant and changes no record of another identifier |
| SyncMerges.MergeToLocalKeepsDevice | gpilotd/gnome-pilot-conduit-standard-abs.c:1548-1583 | a merge to the PC issues no device write and no delete, and ignores no identifier, from any state |
| SyncMerges.MergeToRemoteKeepsPC | gpilotd/gnome-pilot-conduit-standard-abs.c:1506-1546 | a merge to the device leaves every PC content, archive flag and archive entry as it was, and changes the status, or a new record's identifier, only of new and modified records, from any state |
| SyncMerges.MergeToRemoteSendsAt | gpilotd/gnome-pilot-conduit-standard-abs.c:1506-1546 | from any valid state such a merge changes exactly the PC records that are written: every new one, and every modified one that is not ignored and not the same edit as the device's, with or without an identifier; if the write is accepted the device holds the content under the record's identifier, or the next number in list order, new ones first, which a new record takes over; if not, the device is as it was there, and the record is marked clean all the same, a new one without identifier |
| SyncMerges.MergeToRemoteSends | gpilotd/gnome-pilot-conduit-standard-abs.c:1073-1085 | the same for every known identifier; one nothing was written or deleted under is otherwise unchanged |
| SyncMerges.MergeToRemoteSeed | gpilotd/gnome-pilot-conduit-standard-abs.c:1519-1543 | the device hands out one identifier for each new and each modified record without one, if it accepts them, and none besides; modified ones are passed over when 0 is ignored |
| SyncMerges.MergeGivesNew | gpilotd/gnome-pilot-conduit-standard-abs.c:1519-1532 | under the m-th of them both sides hold the m-th new record |
| SyncMerges.MergeGivesModified | gpilotd/gnome-pilot-conduit-standard-abs.c:1538-1543 | under the m-th after those the device alone holds the m-th modified record |
| SyncMerges.MergeToLocalBrings | gpilotd/gnome-pilot-conduit-standard-abs.c:1548-1583 | a merge to the PC puts every edit of the device on the PC in place of nothing, a clean or deleted record, or a different edit, or into the archive if the record is archived on either side; it marks the PC's record clean when both made the same edit, and changes nothing else |
| SyncSequels.PushThenSync | gpilotd/gnome-pilot-conduit-standard-abs.c:574-600 | after a merge to the device, its close, and a two-way run by a new conduit object, the sides agree on an identifier if and only if the pair before the merge was one of those listed, whatever the other records are |
| SyncSequels.PullThenSync | gpilotd/gnome-pilot-conduit-standard-abs.c:603-629 | the same after a merge to the PC |
| SyncSequels.PushThenSyncExactly | gpilotd/gnome-pilot-conduit-standard-abs.c:1706-1720 | for one identifier, with a condition read off the two records before the merge |
| SyncSequels.PullThenSyncExactly | gpilotd/gnome-pilot-conduit-standard-abs.c:1706-1720 | likewise for a merge to the PC |
| SyncSequels.DeletionIsForgotten | gpilotd/gnome-pilot-conduit-standard-abs.c:1706-1720 | a record deleted on the PC that the device still has is back on the PC after a merge to the device and a slow run |
| SyncCopies.CopyFromMirrors | gpilotd/gnome-pilot-conduit-standard-abs.c:507-571 | after a copy from the device the PC holds exactly the device's live records in their order, each archived device record was archived once, and the two sides mirror each other |
| SyncCopies.CopyToMirrors | gpilotd/gnome-pilot-conduit-standard-abs.c:433-504 | after a copy to the device it holds exactly the contents of the live PC records it accepts, in their order, and each archived PC record was archived once; the two sides mirror each other if and only if it accepts all of them |
| SyncCopies.CopyToKeeps | gpilotd/gnome-pilot-conduit-standard-abs.c:475-499 | after a copy to the device, whichever writes it refuses, the PC holds exactly its live records, in order, with their content and marked clean; one that had an identifier keeps it, one without has the device's next number in list order if the device accepts such records and none otherwise; the device holds the accepted ones under these identifiers |
| SyncCopies.MirrorCopiesBack | gpilotd/gnome-pilot-conduit-standard-abs.c:433-504 | copying a mirror image to the device changes neither side, if and only if the device accepts every record it holds |
| SyncCopies.CopyRoundTrip | gpilotd/gnome-pilot-conduit-standard-abs.c:433-571 | copying from the device and back leaves the device the very records the first copy left, and the PC too, if and only if the device accepts every live record it held; tombstones and archived records do not matter |
| SyncCopies.MirrorIsFixed | gpilotd/gnome-pilot-conduit-standard-abs.c:675-692 | synchronising mirror images, fast or slow, changes nothing |
| StandardAbs.StandardAbsConduit.DeleteFromPilot | gpilotd/gnome-pilot-conduit-standard-abs.c:1033-1051 | deletes on the device and ignores the identifier from then on, also after an error |
| StandardAbs.StandardAbsConduit.AddToPilot | gpilotd/gnome-pilot-conduit-standard-abs.c:1057-1092 | marks the PC record clean, writes it, returns the identifier given, or 0 when the write is refused, and ignores that identifier from then on |
| StandardAbs.StandardAbsConduit.SyncWithArchived | gpilotd/gnome-pilot-conduit-standard-abs.c:1225-1280 | the switch for an archived device record computes the decision's effects in order, those the direction permits |
| StandardAbs.StandardAbsConduit.SyncWithModified | gpilotd/gnome-pilot-conduit-standard-abs.c:1284-1357 | the same for a modified device record, with case 20 storing before it sends |
| StandardAbs.StandardAbsConduit.SyncWithDeleted | gpilotd/gnome-pilot-conduit-standard-abs.c:1358-1400 | the same for a deleted device record |
| StandardAbs.StandardAbsConduit.SyncWithUnchanged | gpilotd/gnome-pilot-conduit-standard-abs.c:1401-1437 | the same for an unchanged device record |
| StandardAbs.StandardAbsConduit.SyncRecord | gpilotd/gnome-pilot-conduit-standard-abs.c:1173-1479 | the nested switches compute the decision table's effects, from a device record, a PC record or both, after the check of the ignore list |
| StandardAbs.StandardAbsConduit.SlowSync | gpilotd/gnome-pilot-conduit-standard-abs.c:1585-1620 | the loop by index computes the pass over all device records, although visits write to the database it walks |
| StandardAbs.StandardAbsConduit.FastSync | gpilotd/gnome-pilot-conduit-standard-abs.c:1622-1655 | the loop over changed records computes the pass over the dirty, deleted and archived device records |
| StandardAbs.StandardAbsConduit.AddNewRecords | gpilotd/gnome-pilot-conduit-standard-abs.c:1519-1532 | the first loop of the merge sends each new record once and gives it its identifier |
| StandardAbs.StandardAbsConduit.SyncFlagged | gpilotd/gnome-pilot-conduit-standard-abs.c:1482-1504 | the loop over PC records of one status computes that pass, for the deleted sweep and the modified records |
| StandardAbs.StandardAbsConduit.MergeToRemote | gpilotd/gnome-pilot-conduit-standard-abs.c:1506-1546 | computes the merge to the device for every direction and keeps the invariant |
| StandardAbs.StandardAbsConduit.MergeToLocal | gpilotd/gnome-pilot-conduit-standard-abs.c:1548-1583 | computes the merge to the PC for every direction and keeps the invariant |
| StandardAbs.StandardAbsConduit.CloseDatabase | gpilotd/gnome-pilot-conduit-standard-abs.c:1706-1720 | cleans both sides after a success and nothing after a failure |
| StandardAbs.StandardAbsConduit.Synchronize | gpilotd/gnome-pilot-conduit-standard-abs.c:632-696 | returns -1 or -2 and changes nothing when opening or preparing fails; otherwise computes the fast or the slow run and clears the slow mark |
| StandardAbs.StandardAbsConduit.MergeToPilot | gpilotd/gnome-pilot-conduit-standard-abs.c:574-600 | the error codes, and on success the merge to the device and the close |
| StandardAbs.StandardAbsConduit.MergeFromPilot | gpilotd/gnome-pilot-conduit-standard-abs.c:603-629 | the error codes, and on success the merge to the PC and the close |
| StandardAbs.StandardAbsConduit.CopyToPilot | gpilotd/gnome-pilot-conduit-standard-abs.c:433-504 | the error codes, and on success the copy of all live PC records to an emptied device, of which CopyToKeeps and CopyToMirrors say what both sides end with |
| StandardAbs.StandardAbsConduit.CopyFromPilot | gpilotd/gnome-pilot-conduit-standard-abs.c:507-571 | the error codes, and on success the copy of all live device records to an emptied PC side |
| QueueRuns.StackHistories | gpilotd/queue_io.c:148-182 | over any history of stores and newest-first purges the groups of each owner are numbered exactly 1 to the counter and a load of all types returns the pending requests, newest first |
| QueueRuns.AnyHistoryCounted | gpilotd/queue_io.c:366-395 | over any history of stores and purges of stored requests in any order the counter is never negative and never below the number of stored groups |
| QueueRuns.LoadShowsExactly | gpilotd/queue_io.c:158-178 | a load of any file returns every request of the wanted type numbered up to the counter once, with falling numbers, and nothing else |
| QueueBooks.QueueKeepsBook | gpilotd/queue_io.c:269-395 | over any history of stores and purges the counter is the stores less the purges that met a request; under each number a request is loaded if and only if one was stored there and not purged since; and it is that very request if and only if its group was clean when it was stored |
| QueueBooks.LoadsPending | gpilotd/queue_io.c:147-182 | over any history a load returns exactly the requests stored and not purged since, numbered up to the counter, each once, highest number first, if and only if each was stored in a clean group |
| QueueRuns.MissesAboveCounter | gpilotd/queue_io.c:366-375 | after any history a load misses a pending request if and only if one is numbered above the counter |
| QueueRuns.StoreAddsExactly | gpilotd/queue_io.c:280-286 | a store adds a group if and only if the number after the counter is free; otherwise it overwrites a pending request |
| QueueRuns.PurgeInTheMiddle | gpilotd/queue_io.c:366-395 | purging any but the newest request hides the newest from loads and puts it where the next store overwrites it |
| QueueRuns.StoreThenRemove | gpilotd/queue_io.c:434-456 | in any file, storing a request and removing it by the handle returned gives back the counter, and every group of every owner if and only if its number was free, for every handle that leads back |
| QueueRuns.StoreThenRemoveOnStack | gpilotd/queue_io.c:434-456 | on a stack that restores the stack |
| RequestHistories.HandleLeadsBack | gpilotd/gpilot-daemon.c:1793-1800 | dividing a handle by 65535 gives back owner and number, with 0 for the system, if and only if the number is below 65535 and, for a pilot, its identifier is not 0 and the handle did not overflow |
| RequestHistories.HandlesDistinct | gpilotd/queue_io.c:81-100 | for pilot identifiers up to 65536 and numbers 1 to 65534 the handle does not overflow 32 bits and no two requests share one |
| RequestHistories.StoreThenLoad | gpilotd/queue_io.c:185-341 | a request just stored is loaded with its type, its handle and every field its type stores, whatever the file holds elsewhere, if and only if its group held no text it would inherit |
| RequestHistories.PushOnStack | gpilotd/queue_io.c:269-341 | a store puts the request on top of its owner's stack |
| RequestHistories.PopFromStack | gpilotd/queue_io.c:378-432 | purging the newest request takes the top off its owner's stack |
| RequestHistories.OtherOwnersKeep | gpilotd/queue_io.c:65-100 | a store or purge for one owner leaves the stacks of the others alone |
| RequestHistories.LoadStack | gpilotd/queue_io.c:148-182 | a load of one type, or of all, returns those requests of the stack, newest first |
| RequestQueue.KindRoundTrip | gpilotd/queue_io.c:102-117 | the name stored for a type is read back as that type, and the comparison that ignores case confuses no two |
| RequestHistories.ParseOver | gpilotd/queue_io.c:184-260 | what a load makes of a group a request was stored in is that request, with its type's fields, its handle and its section, if and only if no text the group held before shows through |
| RequestQueue.Queue.LoadRequests | gpilotd/queue_io.c:147-260 | the loop from the counter down to 1 returns the requests of the wanted type, or all; each is read key by key as its type demands, and a group whose type is missing or unknown is none |
| RequestQueue.Queue.StoreRequest | gpilotd/queue_io.c:268-341 | raises the counter, writes the request's fields under the new number, and returns its handle |
| RequestQueue.Queue.PurgeRequest | gpilotd/queue_io.c:377-432 | lowers the owner's counter and removes the request's group, and changes nothing else |
| RequestQueue.Queue.PurgeRequestPoint | gpilotd/queue_io.c:434-456 | purges the request found under a pilot and number, and changes nothing if there is none |
| SyncTypes.NamesRoundTrip | gpilotd/gnome-pilot-structures.c:838-885 | the name of a synchronisation type is read back as that type |
| GroupNames.QueueNamesDistinct | gpilotd/queue_io.c:65-100 | no two counters or requests of any owners share a group name in the queue file |
| GroupNames.DaemonNamesDistinct | capplet/pilot.c:344-395 | no two groups of the daemon's configuration share a name |
| Text.DecimalReads | gpilotd/queue_io.c:65-100 | the number printed in a group's name reads, in base ten, as that number |
| Text.SameIgnoringCaseExactly | gpilotd/gnome-pilot-conduit-config.c:556-566 | the comparison that ignores case finds two texts the same if and only if they are as long as each other and so is each letter, but for the case of A to Z |
| Installs.ShownInstallsOnce | gpilotd/manager.c:551-583 | whatever the file holds, with a bus there are as many deliveries as a load shows installs, the k-th handing the k-th of these, with falling numbers, to the first file conduit; later conduits get nothing, and afterwards their groups are gone and every other group is as it was |
| Installs.InstallsExactlyOnce | gpilotd/manager.c:551-583 | on a stack there are as many deliveries as pending installs, an install with k newer ones being the k-th, to the first file conduit; all are gone afterwards, and every other request keeps its number |
| Installs.InstallsEmptyQueue | gpilotd/manager.c:905-906 | when only installs are pending, each is delivered at the place its age gives it, newest first, to the first conduit, and the queue ends empty |
| Installs.OthersStayVisible | gpilotd/manager.c:568-583 | after the installs every other pending request can still be loaded, if and only if all installs were queued after all of them |
| Installs.WithoutBus | gpilotd/gpilot-daemon.c:2317-2345 | when completions cannot be announced nothing is purged, and there are as many deliveries as installs shown times conduits |
| Installs.WithoutBusAt | gpilotd/manager.c:568-583 | conduit after conduit is then handed every install shown, in order |
| Installs.InstallManager.InstallForeach | gpilotd/manager.c:568-583 | adds one delivery for each loaded install, in order, to the log of one conduit, and purges each as it completes |
| Installs.InstallManager.InstallAll | gpilotd/manager.c:905-906 | runs that for every file conduit in turn; with a bus the log grows by the installs shown, each to the first conduit, and only their groups disappear |
| ConduitHistories.HistoryKeeps | gpilotd/gnome-pilot-conduit-config.c:393-586 | over any history of edits, with ids told apart without regard to ASCII case, the list stays duplicate-free, a conduit has a group exactly when it is listed, and it is listed exactly when the last edit about it enabled it |
| ConduitHistories.HistorySettings | gpilotd/gnome-pilot-conduit-config.c:393-586 | over the same histories every conduit is loaded with exactly the settings the edits about it say, and no other is loaded: the ordinary type is the last one enabled or saved, the first-sync type the last one given since it was enabled unless it was removed, and the slow mark goes with a two-way first synchronisation only |
| ConduitHistories.DisableKeepsExactly | gpilotd/gnome-pilot-conduit-config.c:551-583 | disabling keeps the file well formed if and only if no other listed id differs from it in ASCII case only |
| ConduitHistories.DisableKeepsOrder | gpilotd/gnome-pilot-conduit-config.c:551-574 | disabling takes out that id and keeps the others in order, if and only if no other id differs from it in case only |
| ConduitHistories.ListLeftExactly | gpilotd/gnome-pilot-conduit-config.c:568-576 | the file names a list after a disabling if and only if a conduit is left |
| ConduitHistories.FirstSyncInOneSession | gpilotd/manager.c:517-531 | over any run of sessions and edits that do not arm it again, at most one session runs a conduit's first synchronisation |
| ConduitHistories.FirstThenOrdinary | gpilotd/manager.c:517-531 | the sessions of a conduit nobody edits dispatch it to a pending first action once, slow if the file says so, and to the ordinary action, never slow, ever after |
| ConduitHistories.ArmedThenOrdinary | gpilotd/manager.c:517-531 | in any file in which a conduit was just enabled with a first synchronisation: the next session that runs it takes that, slow if and only if it is two-way and was asked to be, and all later ones the ordinary type |
| ConduitHistories.SessionDispatches | gpilotd/manager.c:517-531 | the log of a session has one dispatch for each time an enabled conduit is wanted, in that order, each to the first action, slow as the file says, if one was pending at the start, and else to the ordinary one |
| Sessions.PerformedByName | gpilotd/manager.c:533-548 | the name stored in the file tells which of the five operations is run, "custom" running as "synchronize", and a missing or unknown name runs nothing |
| Sessions.OperationsByName | gpilotd/manager.c:517-548 | over the sessions of a conduit nobody edits the first operation is told by the name of a pending first synchronisation and all others by the ordinary name |
| ConduitHistories.FirstSyncEveryTimeWithin | gpilotd/manager.c:517-531 | within one session a pending first action is taken as often as the conduit is run |
| ConduitHistories.SessionStep | gpilotd/manager.c:517-531 | a session changes nothing in the file but the first-sync entries of conduits it ran, and leaves none of those pending |
| ConduitHistories.SaveThenLoad | gpilotd/gnome-pilot-conduit-config.c:249-325 | saved settings are loaded back, if and only if the slow mark is off or the first synchronisation is two-way |
| ConduitHistories.ReportedAfterSave | gpilotd/gnome-pilot-conduit-config.c:334-387 | after a save the reported type is the ordinary one if and only if the first-sync type equals it |
| ConduitHistories.ReportedOtherwise | gpilotd/gnome-pilot-conduit-config.c:370-375 | without a first-sync entry the ordinary type is reported: after the first synchronisation was taken, and after enabling a conduit that has none |
| ConduitConfig.ConduitConfig.IsEnabled | gpilotd/gnome-pilot-conduit-config.c:333-387 | whether the id is listed, and then the first-sync type if there is an entry, else the ordinary type |
| ConduitConfig.ConduitConfig.Enable | gpilotd/gnome-pilot-conduit-config.c:395-453 | appends the id unless it is listed, and writes the type, which is then loaded |
| ConduitConfig.ConduitConfig.EnableWithFirstSync | gpilotd/gnome-pilot-conduit-config.c:461-490 | enables, writes the first-sync type, and keeps a slow mark for a two-way one only; these settings are then loaded |
| ConduitConfig.ConduitConfig.RemoveFirstSync | gpilotd/gnome-pilot-conduit-config.c:498-524 | removes the first-sync entries of an enabled conduit and changes nothing else; its ordinary type is then loaded, without a first one |
| ConduitConfig.ConduitConfig.Disable | gpilotd/gnome-pilot-conduit-config.c:532-586 | rewrites the list without the id, never writing past an array one shorter than the list, and removes the group |
| ConduitConfig.ConduitConfig.LoadConfig | gpilotd/gnome-pilot-conduit-config.c:248-286 | reads the settings of an enabled conduit; one that is not enabled keeps what it had |
| ConduitConfig.ConduitConfig.SaveConfig | gpilotd/gnome-pilot-conduit-config.c:291-325 | writes the settings of an enabled conduit and no others; they are then loaded, but for a slow mark that does not go with a two-way first synchronisation |
| Sessions.LoadConduits | gpilotd/manager.c:644-714 | every listed conduit that is known, loads and is of one of the three kinds gets an object of its own, in the list of its kind and in the order of the ids, with the settings the file has at the start of the session; the others are passed over |
| Sessions.SyncDefault | gpilotd/manager.c:504-549 | takes the first action, slow if the settings say so, and disarms it in the file when one was loaded, else the ordinary action; reports which operation ran, "custom" being a synchronisation and an unset action none |
| Sessions.RunSession | gpilotd/manager.c:788-837 | over a whole session the actions taken and the file left are those of the loaded settings of the standard conduits among the wanted ones, however often and in whatever order they run; conduits that are not enabled, not known or did not load are passed over |
| SetupResults.CappletReadsBack | capplet/pilot.c:99-300 | whatever the file held before, the capplet reads the saved devices and pilots back in order: of a device the fields stored for its kind, of a pilot those stored at all, the creation and ROM version as narrowed, the position as its number, and a name and a base directory made up where there was none |
| SetupResults.DaemonReadsBack | gpilotd/gnome-pilot-structures.c:543-596 | so does the daemon, with a pilot's charset or the default one |
| SetupResults.PriorFileIrrelevant | capplet/pilot.c:328-399 | what the file held before, groups with higher numbers included, has no effect on either reader |
| SetupResults.Defaults | capplet/pilot.c:185-300 | what both programs make of a group without keys: the made-up name, speeds 9600 and 57600, timeouts 2 and 3, the user's id, the default charset |
| SetupResults.DefaultsOfFile | capplet/pilot.c:99-150 | a file without General has no device and no pilot, a stepping of 5, and a made-up host identity |
| SetupResults.Counts | capplet/pilot.c:354-392 | a missing, zero or negative count is none, and a saved file has a count if and only if there is something to count |
| SetupResults.CappletRoundTripExactly | capplet/pilot.c:99-399 | the capplet reads back the very state it saved, if and only if the state uses only what is stored |
| SetupResults.LoadSaveLoad | capplet/pilot.c:99-399 | a state loaded from any file whatsoever survives saving and loading unchanged |
| SetupResults.DevicesReadAlikeExactly | gpilotd/gnome-pilot-structures.c:543-596 | the two programs read the saved devices alike, if and only if each has a name and a kind the daemon knows, or neither port nor speed |
| SetupResults.PilotsReadAlikeExactly | gpilotd/gnome-pilot-structures.c:736-781 | charsets aside they read a saved pilot alike, if and only if it has a name and a base directory |
| SetupResults.ResavingKeepsCharsetExactly | capplet/pilot.c:283-288 | loading and saving in the capplet keeps a pilot's charset for the daemon, if and only if it is the default one |
| SetupResults.NarrowedExactly | capplet/pilot.c:381-382 | an unsigned long survives being written as an integer, if and only if it is below 2^31 or at least 2^64 - 2^31 |
| SetupFile.SetupFile.Save | capplet/pilot.c:328-399 | replaces General and the groups of the devices and pilots given, writes a count only when it is not 0, and leaves all other groups |
| SetupFile.SetupFile.CappletLoad | capplet/pilot.c:99-300 | the capplet's three loaders read exactly the counted groups, with its defaults for missing keys |
| SetupFile.SetupFile.DaemonLoad | gpilotd/gnome-pilot-structures.c:653-726 | the daemon's loaders read exactly the counted groups, with its own defaults |
| FreshNames.NextName | capplet/util.c:449-463 | the search ends within as many steps as there are names, with a name nobody has, all earlier candidates being taken |
| FreshNames.NextCradleName | capplet/util.c:449-463 | the same for cradles |
| FreshNames.NextPilotName | capplet/util.c:473-487 | the same for pilots |
| FreshNames.TakenFillTheList | capplet/util.c:456-461 | a list in which the first n candidates are taken has at least n names |
| FreshNames.FitsExactly | capplet/util.c:453-461 | a candidate fits the 16-byte buffer, if and only if its number is below 10^9 for cradles and 10^10 for pilots |
| FreshNames.EveryTryFits | capplet/util.c:453-461 | with fewer than 10^9 cradles, or 10^10 pilots, no try of the search overruns the buffer |
| Progress.Throttled | gpilotd/gnome-pilot-conduit.c:666-693 | for a positive total, reports that never fall back and a stepping s above 0, at most 100/s signals are sent from a fresh start and one more from any other, all with percentages from 1 to 100 |
| Progress.ReportAll | gpilotd/gnome-pilot-conduit.c:655-701 | a loop of such reports to the object appends exactly those signals, and no more than the bound allows |
| Progress.SignalsAreSent | gpilotd/gnome-pilot-conduit.c:666-693 | signal by signal the percentages are those the tests on the top let through |
| Progress.BoundIsMet | gpilotd/gnome-pilot-conduit.c:666-693 | that bound is reached for every stepping |
| Progress.StepsApart | gpilotd/gnome-pilot-conduit.c:683-690 | successive signals of a rising run are at least a whole step apart |
| Progress.RiseSendsExactly | gpilotd/gnome-pilot-conduit.c:683-690 | of a rising run exactly those reports are sent that are a whole step above the last one sent |
| Progress.FallStartsOver | gpilotd/gnome-pilot-conduit.c:683-690 | a report below the top is sent, and steps are then counted from it if it is a whole step itself, and from 0 if not, for every stepping |
| Progress.PhaseStartsOver | gpilotd/gnome-pilot-conduit.c:683-690 | a second phase that begins below the last percentage sent adds just the signals it would send by itself, and its first report |
| Progress.SecondRunIsSentAgain | gpilotd/gnome-pilot-conduit.c:683-690 | a second run over 100 has every whole step sent again, if and only if there is more than one step |
| Progress.LastSentIsNear | gpilotd/gnome-pilot-conduit.c:683-690 | after every report the top is less than a step below the percentage, so no whole step goes unreported, and a signal is sent exactly after a fall or a whole step |
| Progress.PercentIsQuotient | gpilotd/gnome-pilot-conduit.c:674-681 | the percentage of a positive total is the rounded-down quotient, at least 1 and at most 100 |
| Progress.PercentIgnoresSigns | gpilotd/gnome-pilot-conduit.c:674 | negative progress or totals count by their size |
| Progress.Conduit.SendProgress | gpilotd/gnome-pilot-conduit.c:655-701 | sends every capped report when stepping is 0, and otherwise those the two tests on the top let through, with the new top, for every total |
| SyncCounterexamples.ArchivedConflictLosesEdit | gpilotd/gnome-pilot-conduit-standard-abs.c:1288-1296 | an edited device record against an edited, archived PC record: the PC's edit is lost |
| SyncCounterexamples.RefusedConflictLosesEdit | gpilotd/gnome-pilot-conduit-standard-abs.c:1073-1085 | a conflict whose write the device refuses: the PC's edit is lost |
| SyncCounterexamples.NewRecordReplacesEdit | gpilotd/gnome-pilot-conduit-standard-abs.c:1522-1527 | a new PC record that has an identifier: the device's edit is lost |
| SyncCounterexamples.CleanDifferenceStays | gpilotd/gnome-pilot-conduit-standard-abs.c:1410-1437 | two clean records that differ: a run leaves them different |
| SyncCounterexamples.TombstoneComesBack | gpilotd/gnome-pilot-conduit-standard-abs.c:1456-1475 | a tombstone without a PC record: a run leaves the sides different |
| SyncCounterexamples.FastMissesArchived | gpilotd/gnome-pilot-conduit-standard-abs.c:1538 | a clean device record and an archived PC record: the fast form and the slow form end differently |
| SyncCounterexamples.RowTwentyDeparts | gpilotd/gnome-pilot-conduit-standard-abs.c:1288-1296 | a pair of row 20 for which a run does not do what the row says |
| SyncCounterexamples.FastLeavesToSlow | gpilotd/gnome-pilot-conduit-standard-abs.c:677-681 | a clean device record without a PC record: a fast run passes it over and a slow run after it stores it |
| SyncCounterexamples.SentThenArchived | gpilotd/gnome-pilot-conduit-standard-abs.c:1253-1262 | case 13 on an archived PC record: it is sent, and the next slow run archives and deletes it |
| SyncCounterexamples.PendingIsArchivedLater | gpilotd/gnome-pilot-conduit-standard-abs.c:1401-1408 | a changed device record against an archived pending PC record: left alone by the first run and archived by the next slow one |
| SyncCounterexamples.RefusedNewIsDoubled | gpilotd/gnome-pilot-conduit-standard-abs.c:1525-1528 | a new PC record that is refused under an identifier the device has: the next slow run stores the device's record beside it |
| SyncCounterexamples.RefusedNewIsNeverSent | gpilotd/gnome-pilot-conduit-standard-abs.c:1073-1085 | a new PC record that is refused is marked clean, and no later run sends it, even when the device accepts it again |
| SyncCounterexamples.ModifiedIsDoubled | gpilotd/gnome-pilot-conduit-standard-abs.c:1538-1543 | a modified PC record without an identifier is sent, and the next slow run stores it on the PC a second time |
| SyncCounterexamples.RefusedIsNotCopied | gpilotd/gnome-pilot-conduit-standard-abs.c:475-490 | a copy of a PC record that the device refuses does not end in mirror images |
| SyncCounterexamples.MergeHidesDeviceEdit | gpilotd/gnome-pilot-conduit-standard-abs.c:574-600 | a changed device record against a clean, different PC record: a run brings them together, but no run after a merge to the device does |
| SyncCounterexamples.MergeHidesDeletion | gpilotd/gnome-pilot-conduit-standard-abs.c:1706-1720 | a record deleted on the PC: a fast run deletes it on the device, but not after a merge to the device |
| SyncCounterexamples.MergeSettlesConflict | gpilotd/gnome-pilot-conduit-standard-abs.c:603-629 | a conflict: a run exchanges the versions, but a merge to the PC and a run leave the device's on both sides |
| FileCounterexamples.SecondRequestVanishes | gpilotd/queue_io.c:366-375 | two stored requests of which the first is purged: the second is not loaded any more, and a third takes its place |
| FileCounterexamples.OtherSpellingIsDropped | gpilotd/gnome-pilot-conduit-config.c:556-566 | a list with "a" and "A": disabling the one drops the other and leaves its group |
| FileCounterexamples.FirstSyncTwiceInOneSession | gpilotd/manager.c:517-531 | a conduit run twice in a session: its first synchronisation is run twice |
| FileCounterexamples.LateCreationIsSpoilt | capplet/pilot.c:381-382 | a saved pilot created at 2^31: both programs read another date back |
| FileCounterexamples.DescriptionShowsThrough | gpilotd/queue_io.c:289-293 | a request without a description, stored over a leftover group, is loaded with the description of the request that was there |
| FileCounterexamples.RestoreVanishes | gpilotd/queue_io.c:366-395 | an install queued before a restore: once it is delivered the restore is not loaded any more |

## Left out

- The progress counters and `total_progress` of the engine, its messages and sync-log entries: they decide nothing about records.
- The engine's `secret` flag is part of a record's content; categories are numbers.
- Error codes of device calls other than refused writes and failed opening, preparing and deleting all: the code ignores them.
- `gpilotd/gnome-pilot-conduit-sync-abs.c` and the pilot-link loop behind it.
- QueueRuns.StackHistories: starts from an empty file and fewer than 2^31 operations, as the counter is a 32-bit integer.
- QueueRuns.AnyHistoryCounted: likewise.
- QueueBooks.QueueKeepsBook: likewise.
- QueueRuns.StoreThenRemove: for handles that lead back to their request; HandleLeadsBack says which do.
- SyncReruns.SameObjectChangesNothing: one way only, as records written by the first run are ignored and may hide that there is something left to do.
- Widths of record identifiers (24 bits on the device, an `int` in the ignore list): identifiers are unbounded natural numbers.
- The text syntax of key files, escapes and the list separator (a space, so an id with a space would split): values are typed. The group a conduit named "General" would share with the list is kept apart.
- Failures to write a configuration file, and two programs writing one at the same time.
- Device.rejects: which identifiers the device refuses does not change during a run, and records without one are all refused or all accepted, so a device that fills up part-way through the new records is not covered.
- Removing the installed file from disk when an install request is purged.
- `gpc_queue_load_requests_for_cradle`, a filter over the load that is modelled.
- Matching conduits to databases and requests by creator, name or number: a session is given the ids it runs. Which ids are known, load, and as which kind is a parameter; what backup and file conduits then do, installing apart, is left out.
- Opening devices: `get_devices` drops a device that cannot be initialised; the reader of the configuration keeps all.
- The host identity the daemon makes up and saves when the file has none; the capplet's `random ()` is a parameter.
- Progress.Conduit.SendProgress: computes with exact fractions where the program uses `float`; what a division by a total of 0 gives as an integer is a parameter.
- FreshNames.NextName: counts without a bound where the program's counter is an `int`; no list is that long.
- Windows, D-Bus signals, device input and output, sockets, USB, the UUCP lock, conduit discovery and module loading.
