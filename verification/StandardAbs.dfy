// The conduit base class itself: the operations of GnomePilotConduitStandardAbs
// on the device database and the PC store, each proved to compute the function
// of the state that SyncState gives for it.
module StandardAbs {
  import opened Records
  import opened SyncState
  import opened SyncCells
  import opened SyncSteps
  import opened SyncPasses
  import opened SyncRuns
  import opened SyncCopies
  import opened SyncMerges
  import opened Databases

  lemma ApplyTwo(s: State, i: nat, remote: PilotRecord, es: seq<Effect>, dir: Direction)
    requires |es| <= 2
    ensures var s1 := if |es| > 0 && Permitted(es[0], dir) then Apply(s, i, remote, es[0]) else s;
      ApplyAll(s, i, remote, es, dir) ==
      if |es| > 1 && Permitted(es[1], dir) then Apply(s1, i, remote, es[1]) else s1
    decreases |es|
  {
    if |es| > 0 {
      ApplyTwo(if Permitted(es[0], dir) then Apply(s, i, remote, es[0]) else s, i, remote, es[1..], dir);
    }
  }

  // A cursor may jump over positions its pass does not stop at.
  lemma {:induction false} SkipDevice(s: State, k: nat, m: nat, scan: Scan, dir: Direction)
    requires k <= m <= |s.device.records|
    requires forall j :: k <= j < m ==> !Visits(scan, s.device.records[j])
    ensures RemotePass(s, k, |s.device.records|, scan, dir) == RemotePass(s, m, |s.device.records|, scan, dir)
    decreases m - k
  {
    if k < m { SkipDevice(s, k + 1, m, scan, dir); }
  }

  lemma {:induction false} SkipLocal(s: State, k: nat, m: nat, flag: Attr, dir: Direction)
    requires k <= m <= |s.local.slots|
    requires forall j :: k <= j < m ==> !Selected(s.local.slots[j], flag)
    ensures LocalPass(s, k, |s.local.slots|, flag, dir) == LocalPass(s, m, |s.local.slots|, flag, dir)
    ensures flag.New? ==> NewPass(s, k, |s.local.slots|) == NewPass(s, m, |s.local.slots|)
    decreases m - k
  {
    if k < m { SkipLocal(s, k + 1, m, flag, dir); }
  }

  lemma {:induction false} SkipVacant(s: State, k: nat, m: nat)
    requires k <= m <= |s.local.slots|
    requires forall j :: k <= j < m ==> s.local.slots[j].Vacant?
    ensures CopyToPass(s, k, |s.local.slots|) == CopyToPass(s, m, |s.local.slots|)
    decreases m - k
  {
    if k < m { SkipVacant(s, k + 1, m); }
  }

  class StandardAbsConduit {
    const device: PilotDatabase
    const pc: LocalStore
    var ignore: seq<RecordId>
    var slow: bool

    constructor (device: PilotDatabase, pc: LocalStore)
      ensures this.device == device && this.pc == pc && ignore == [] && !slow
    {
      this.device, this.pc, ignore, slow := device, pc, [], false;
    }

    function Snapshot(): State
      reads this, device, pc
    {
      State(device.View(), pc.View(), ignore)
    }

    method DeleteFromPilot(id: RecordId)
      modifies this`ignore, device
      ensures Snapshot() == SyncState.DeleteFromPilot(old(Snapshot()), id)
    {
      var err := device.DeleteRecord(id);
      ignore := [id] + ignore;
    }

    method AddToPilot(i: nat) returns (given: RecordId)
      requires pc.Holds(i)
      modifies this`ignore, device, pc
      ensures Snapshot() == SendLocal(old(Snapshot()), i)
      ensures given == SentId(old(Snapshot()), i)
      ensures pc.Holds(i)
    {
      var remote := pc.Transmit(i);
      pc.SetStatus(i, Nothing);
      var err, id := device.WriteRecord(remote.id, remote.payload);
      if err < 0 {
        return 0;
      }
      ignore := [id] + ignore;
      return id;
    }

    // The switch over the local record's state when the device record is archived.
    method SyncWithArchived(i: nat, remote: PilotRecord, dir: Direction)
      requires pc.Holds(i) && remote.archived
      modifies this`ignore, device, pc
      ensures Snapshot() ==
        ApplyAll(old(Snapshot()), i, remote, Decide(old(pc.slots[i].rec), remote), dir)
    {
      ghost var s0 := Snapshot();
      ApplyTwo(s0, i, remote, Decide(pc.slots[i].rec, remote), dir);
      match pc.slots[i].rec.attr {
        case Modified =>
          if remote.attr == Modified {
            var c := pc.Compare(i, remote);
            if c != 0 {
              if dir.toRemote { var _ := AddToPilot(i); }
              if dir.toLocal { pc.StoreRemote(remote); }
            } else {
              var plain := remote.(attr := Nothing, archived := false);
              if dir.toLocal { pc.ArchiveRemote(Some(i), plain); }
              if dir.toRemote { DeleteFromPilot(plain.id); }
            }
          } else {
            if dir.toRemote { var _ := AddToPilot(i); }
          }
        case Nothing =>
          if dir.toLocal { pc.ArchiveRemote(Some(i), remote.(attr := Nothing, archived := false)); }
        case Deleted =>
          if dir.toLocal { pc.ArchiveRemote(Some(i), remote.(attr := Nothing, archived := false)); }
        case _ =>
      }
    }

    // The switch when the device record was modified.
    method SyncWithModified(i: nat, remote: PilotRecord, dir: Direction)
      requires pc.Holds(i) && !remote.archived && remote.attr == Modified
      modifies this`ignore, device, pc
      ensures Snapshot() ==
        ApplyAll(old(Snapshot()), i, remote, Decide(old(pc.slots[i].rec), remote), dir)
    {
      ghost var s0 := Snapshot();
      ApplyTwo(s0, i, remote, Decide(pc.slots[i].rec, remote), dir);
      match pc.slots[i].rec.attr {
        case Modified =>
          var c := pc.Compare(i, remote);
          if c != 0 {
            if pc.slots[i].rec.archived {
              if dir.toLocal { pc.StoreRemote(remote); }
              if dir.toRemote { var _ := AddToPilot(i); }
            } else {
              if dir.toRemote { var _ := AddToPilot(i); }
              if dir.toLocal { pc.StoreRemote(remote); }
            }
          } else if pc.slots[i].rec.archived {
            if dir.toLocal { pc.ArchiveLocal(i); }
            if dir.toRemote { DeleteFromPilot(remote.id); }
          } else {
            if dir.toLocal { pc.SetStatus(i, Nothing); }
          }
        case Nothing =>
          if dir.toLocal { pc.StoreRemote(remote); }
        case Deleted =>
          if dir.toLocal { pc.StoreRemote(remote); }
        case _ =>
      }
    }

    // The switch when the device record was deleted.
    method SyncWithDeleted(i: nat, remote: PilotRecord, dir: Direction)
      requires pc.Holds(i) && !remote.archived && remote.attr == Deleted
      modifies this`ignore, device, pc
      ensures Snapshot() ==
        ApplyAll(old(Snapshot()), i, remote, Decide(old(pc.slots[i].rec), remote), dir)
    {
      ghost var s0 := Snapshot();
      ApplyTwo(s0, i, remote, Decide(pc.slots[i].rec, remote), dir);
      if pc.slots[i].rec.archived {
        if dir.toLocal { pc.ArchiveLocal(i); }
        if dir.toRemote { DeleteFromPilot(remote.id); }
      } else {
        match pc.slots[i].rec.attr {
          case Modified =>
            if dir.toRemote { var _ := AddToPilot(i); }
          case Deleted =>
          case Nothing =>
            if dir.toRemote { DeleteFromPilot(remote.id); }
            if dir.toLocal { pc.SetStatus(i, Deleted); }
          case _ =>
        }
      }
    }

    // The switch when the device record is unchanged.
    method SyncWithUnchanged(i: nat, remote: PilotRecord, dir: Direction)
      requires pc.Holds(i) && !remote.archived && remote.attr == Nothing
      modifies this`ignore, device, pc
      ensures Snapshot() ==
        ApplyAll(old(Snapshot()), i, remote, Decide(old(pc.slots[i].rec), remote), dir)
    {
      ghost var s0 := Snapshot();
      ApplyTwo(s0, i, remote, Decide(pc.slots[i].rec, remote), dir);
      if pc.slots[i].rec.archived {
        if dir.toLocal { pc.ArchiveLocal(i); }
        if dir.toRemote { DeleteFromPilot(remote.id); }
      } else {
        match pc.slots[i].rec.attr {
          case Deleted =>
            if dir.toRemote { DeleteFromPilot(remote.id); }
            if dir.toLocal { pc.SetStatus(i, Deleted); }
          case Modified =>
            if dir.toRemote { var _ := AddToPilot(i); }
          case Nothing =>
          case _ =>
        }
      }
    }

    // standard_abs_sync_record. `at` is the position of the local record, if one
    // was passed; a record that was not passed is looked up.
    method SyncRecord(at: Option<nat>, given: Option<PilotRecord>, dir: Direction) returns (r: int)
      requires at.Some? || given.Some?
      requires at.Some? ==> pc.Holds(at.value)
      modifies this`ignore, device, pc
      ensures r == 0
      ensures at.None? ==> Snapshot() == SyncRemote(old(Snapshot()), given.value, dir)
      ensures at.Some? && given.None? ==> Snapshot() == SyncLocal(old(Snapshot()), at.value, dir)
      ensures at.Some? && given.Some? ==>
        Snapshot() == ApplyAll(old(Snapshot()), at.value, given.value,
                               Decide(old(pc.slots[at.value].rec), given.value), dir)
    {
      r := 0;
      var found := at;
      var remote: PilotRecord;
      if at.None? {
        remote := given.value;
        if remote.id in ignore {
          return;
        }
        found := pc.MatchRecord(remote);
      } else if given.None? {
        var id := pc.slots[at.value].rec.id;
        if id in ignore {
          return;
        }
        remote := device.ReadRecordById(id);
      } else {
        remote := given.value;
      }

      if found.Some? {
        if remote.archived {
          SyncWithArchived(found.value, remote, dir);
        } else {
          match remote.attr {
            case Modified => SyncWithModified(found.value, remote, dir);
            case Deleted => SyncWithDeleted(found.value, remote, dir);
            case Nothing => SyncWithUnchanged(found.value, remote, dir);
            case _ =>
          }
        }
      } else if remote.archived {
        if dir.toLocal { pc.ArchiveRemote(None, remote.(attr := Nothing, archived := false)); }
      } else if dir.toLocal {
        pc.StoreRemote(remote);
        var stored := pc.MatchRecord(remote);
        if stored.Some? {
          pc.SetStatus(stored.value, Nothing);
        }
      }
    }

    // One turn of the loops over the device records.
    method SyncDeviceRecord(k: nat, scan: Scan, dir: Direction)
      requires Valid(Snapshot()) && k < |device.records| && Visits(scan, device.records[k])
      modifies this`ignore, device, pc
      ensures Valid(Snapshot()) && |device.records| == |old(device.records)|
      ensures RemotePass(Snapshot(), k + 1, |device.records|, scan, dir)
           == RemotePass(old(Snapshot()), k, |device.records|, scan, dir)
    {
      RemoteStep(Snapshot(), k, scan, dir, 1);
      var _ := SyncRecord(None, Some(ComputeAttr(device.records[k])), dir);
    }

    // Visits every device record by its index.
    method SlowSync()
      requires Valid(Snapshot())
      modifies this`ignore, device, pc
      ensures Snapshot() == DevicePass(old(Snapshot()), Every, BothWays)
      ensures Valid(Snapshot())
    {
      var index := 0;
      ghost var n, goal := |device.records|, DevicePass(Snapshot(), Every, BothWays);
      var d := device.ReadRecordByIndex(index);
      while d.Some?
        invariant 0 <= index <= n == |device.records| && Valid(Snapshot())
        invariant d == if index < n then Some(device.records[index]) else None
        invariant RemotePass(Snapshot(), index, n, Every, BothWays) == goal
        decreases n - index
      {
        SyncDeviceRecord(index, Every, BothWays);
        index := index + 1;
        d := device.ReadRecordByIndex(index);
      }
    }

    // Visits the device records that are dirty, deleted or archived.
    method FastSync()
      requires Valid(Snapshot())
      modifies this`ignore, device, pc
      ensures Snapshot() == DevicePass(old(Snapshot()), Changed, BothWays)
      ensures Valid(Snapshot())
    {
      var cursor := 0;
      ghost var n, goal := |device.records|, DevicePass(Snapshot(), Changed, BothWays);
      var at := device.ReadNextModifiedRec(cursor);
      while at.Some?
        invariant 0 <= cursor <= n == |device.records| && Valid(Snapshot())
        invariant at.Some? ==> cursor <= at.value < n && Flagged(device.records[at.value])
        invariant forall j :: cursor <= j < (if at.Some? then at.value else n) ==> !Flagged(device.records[j])
        invariant RemotePass(Snapshot(), cursor, n, Changed, BothWays) == goal
        decreases n - cursor
      {
        SkipDevice(Snapshot(), cursor, at.value, Changed, BothWays);
        SyncDeviceRecord(at.value, Changed, BothWays);
        cursor := at.value + 1;
        at := device.ReadNextModifiedRec(cursor);
      }
      SkipDevice(Snapshot(), cursor, n, Changed, BothWays);
    }

    // standard_abs_merge_to_local
    method MergeToLocal(dir: Direction)
      requires Valid(Snapshot())
      modifies this`ignore, device, pc
      ensures Snapshot() == SyncMerges.MergeToLocal(old(Snapshot()), dir)
      ensures Valid(Snapshot())
    {
      var index := 0;
      ghost var n, goal := |device.records|, DevicePass(Snapshot(), ModifiedOnly, dir);
      var d := device.ReadRecordByIndex(index);
      while d.Some?
        invariant 0 <= index <= n == |device.records| && Valid(Snapshot())
        invariant d == if index < n then Some(device.records[index]) else None
        invariant RemotePass(Snapshot(), index, n, ModifiedOnly, dir) == goal
        decreases n - index
      {
        var remote := ComputeAttr(d.value);
        if remote.attr == New || remote.attr == Modified {
          SyncDeviceRecord(index, ModifiedOnly, dir);
        }
        index := index + 1;
        d := device.ReadRecordByIndex(index);
      }
    }

    // One turn of the loop below: the record takes over the identifier given, or
    // 0 when the write was refused.
    method InstallSelected(i: nat)
      requires Valid(Snapshot()) && i < |pc.slots| && Selected(pc.slots[i], New)
      modifies this`ignore, device, pc
      ensures Valid(Snapshot()) && |pc.slots| == |old(pc.slots)|
      ensures NewPass(Snapshot(), i + 1, |pc.slots|) == NewPass(old(Snapshot()), i, |pc.slots|)
    {
      ghost var s1 := NewPassNext(Snapshot(), i, 1);
      var given := AddToPilot(i);
      pc.SetPilotId(i, given);
    }

    // The first loop of standard_abs_merge_to_remote: new records are written and
    // take over the identifier the device gave them.
    method AddNewRecords()
      requires Valid(Snapshot())
      modifies this`ignore, device, pc
      ensures Snapshot() == AddPass(old(Snapshot()))
      ensures Valid(Snapshot())
    {
      var cursor := 0;
      ghost var n, goal := |pc.slots|, AddPass(Snapshot());
      var at := pc.IterateSpecific(cursor, New);
      while at.Some?
        invariant 0 <= cursor <= n == |pc.slots| && Valid(Snapshot())
        invariant at.Some? ==> cursor <= at.value < n && Selected(pc.slots[at.value], New)
        invariant forall j :: cursor <= j < (if at.Some? then at.value else n) ==> !Selected(pc.slots[j], New)
        invariant NewPass(Snapshot(), cursor, n) == goal
        decreases n - cursor
      {
        SkipLocal(Snapshot(), cursor, at.value, New, BothWays);
        InstallSelected(at.value);
        cursor := at.value + 1;
        at := pc.IterateSpecific(cursor, New);
      }
      SkipLocal(Snapshot(), cursor, n, New, BothWays);
    }

    // One turn of the loop below.
    method SyncSelected(i: nat, flag: Attr, dir: Direction)
      requires Valid(Snapshot()) && i < |pc.slots| && Selected(pc.slots[i], flag)
      modifies this`ignore, device, pc
      ensures Valid(Snapshot()) && |pc.slots| == |old(pc.slots)|
      ensures LocalPass(Snapshot(), i + 1, |pc.slots|, flag, dir)
           == LocalPass(old(Snapshot()), i, |pc.slots|, flag, dir)
    {
      LocalVisitStep(Snapshot(), i, flag, dir, 1);
      var _ := SyncRecord(Some(i), None, dir);
    }

    // Synchronises the local records with the flag, one after the other: the
    // second loop of the merge, and standard_abs_check_locally_deleted_records.
    method SyncFlagged(flag: Attr, dir: Direction)
      requires Valid(Snapshot())
      modifies this`ignore, device, pc
      ensures Snapshot() == FlagPass(old(Snapshot()), flag, dir)
      ensures Valid(Snapshot())
    {
      var cursor := 0;
      ghost var n, goal := |pc.slots|, FlagPass(Snapshot(), flag, dir);
      var at := pc.IterateSpecific(cursor, flag);
      while at.Some?
        invariant 0 <= cursor <= n == |pc.slots| && Valid(Snapshot())
        invariant at.Some? ==> cursor <= at.value < n && Selected(pc.slots[at.value], flag)
        invariant forall j :: cursor <= j < (if at.Some? then at.value else n) ==> !Selected(pc.slots[j], flag)
        invariant LocalPass(Snapshot(), cursor, n, flag, dir) == goal
        decreases n - cursor
      {
        SkipLocal(Snapshot(), cursor, at.value, flag, dir);
        SyncSelected(at.value, flag, dir);
        cursor := at.value + 1;
        at := pc.IterateSpecific(cursor, flag);
      }
      SkipLocal(Snapshot(), cursor, n, flag, dir);
    }

    method MergeToRemote(dir: Direction)
      requires Valid(Snapshot())
      modifies this`ignore, device, pc
      ensures Snapshot() == SyncState.MergeToRemote(old(Snapshot()), dir)
      ensures Valid(Snapshot())
    {
      if dir.toRemote {
        AddNewRecords();
      }
      SyncFlagged(Modified, dir);
    }

    // standard_abs_close_db_and_purge_local
    method CloseDatabase(clean: bool)
      modifies device, pc
      ensures Snapshot() == if clean then Close(old(Snapshot())) else old(Snapshot())
    {
      if clean {
        device.CleanUpDatabase();
        pc.Purge();
        device.ResetSyncFlags();
      }
    }

    /* ----- The five operations a conduit is asked for ----- */

    // Every operation first opens the database and lets the conduit prepare;
    // `open` and `preSync` are the codes these return. When either fails nothing
    // is changed.

    method Synchronize(open: int, preSync: int, pcMatch: bool) returns (result: int)
      requires Valid(Snapshot())
      modifies this`ignore, this`slow, device, pc
      ensures result == if open < 0 then -1 else if preSync != 0 then -2 else 0
      ensures result != 0 ==> Snapshot() == old(Snapshot()) && slow == old(slow)
      ensures result == 0 ==> Snapshot() == Synchronized(old(Snapshot()), !old(slow) && pcMatch) && !slow
    {
      if open < 0 {
        CloseDatabase(false);
        return -1;
      }
      if preSync != 0 {
        CloseDatabase(false);
        return -2;
      }
      if !slow && pcMatch {
        FastSync();
      } else {
        SlowSync();
      }
      slow := false;
      MergeToRemote(BothWays);
      SyncFlagged(Deleted, BothWays);
      CloseDatabase(true);
      return 0;
    }

    method MergeToPilot(open: int, preSync: int) returns (result: int)
      requires Valid(Snapshot())
      modifies this`ignore, device, pc
      ensures result == if open < 0 then -1 else if preSync != 0 then -2 else 0
      ensures Snapshot() == if result == 0 then Close(SyncState.MergeToRemote(old(Snapshot()), ToRemote))
                            else old(Snapshot())
    {
      if open < 0 {
        CloseDatabase(false);
        return -1;
      }
      if preSync != 0 {
        CloseDatabase(false);
        return -2;
      }
      MergeToRemote(ToRemote);
      CloseDatabase(true);
      return 0;
    }

    method MergeFromPilot(open: int, preSync: int) returns (result: int)
      requires Valid(Snapshot())
      modifies this`ignore, device, pc
      ensures result == if open < 0 then -1 else if preSync != 0 then -2 else 0
      ensures Snapshot() == if result == 0 then Close(SyncMerges.MergeToLocal(old(Snapshot()), ToLocal))
                            else old(Snapshot())
    {
      if open < 0 {
        CloseDatabase(false);
        return -1;
      }
      if preSync != 0 {
        CloseDatabase(false);
        return -2;
      }
      MergeToLocal(ToLocal);
      CloseDatabase(true);
      return 0;
    }

    // `deletion` is the code of deleting all records on the side that is replaced.
    method CopyToPilot(open: int, preSync: int, deletion: int) returns (result: int)
      modifies device, pc
      ensures result == if open < 0 then -1 else if preSync != 0 then -2 else if deletion < 0 then -4 else 0
      ensures Snapshot() == if result == 0 then CopiedTo(old(Snapshot())) else old(Snapshot())
    {
      if open < 0 {
        CloseDatabase(false);
        return -1;
      }
      if preSync != 0 {
        CloseDatabase(false);
        return -2;
      }
      if deletion < 0 {
        CloseDatabase(false);
        return -4;
      }
      device.DeleteAllRecords();
      var cursor := 0;
      ghost var n, goal := |pc.slots|, CopyToPass(Snapshot(), 0, |pc.slots|);
      var at := pc.Iterate(cursor);
      while at.Some?
        invariant 0 <= cursor <= n == |pc.slots|
        invariant at.Some? ==> cursor <= at.value && pc.Holds(at.value)
        invariant forall j :: cursor <= j < (if at.Some? then at.value else n) ==> pc.slots[j].Vacant?
        invariant CopyToPass(Snapshot(), cursor, n) == goal
        decreases n - cursor
      {
        SkipVacant(Snapshot(), cursor, at.value);
        CopyRecordToPilot(at.value);
        cursor := at.value + 1;
        at := pc.Iterate(cursor);
      }
      SkipVacant(Snapshot(), cursor, n);
      CloseDatabase(true);
      return 0;
    }

    method CopyRecordToPilot(i: nat)
      requires pc.Holds(i)
      modifies device, pc
      ensures Snapshot() == CopyOneTo(old(Snapshot()), i)
    {
      if pc.slots[i].rec.archived {
        pc.ArchiveLocal(i);
      } else if pc.slots[i].rec.attr != Deleted {
        var remote := pc.Transmit(i);
        pc.SetStatus(i, Nothing);
        var err, given := device.WriteRecord(remote.id, remote.payload);
        if err > 0 {
          pc.SetPilotId(i, given);
        }
      }
    }

    method CopyFromPilot(open: int, preSync: int, deletion: int) returns (result: int)
      modifies device, pc
      ensures result == if open < 0 then -1 else if preSync != 0 then -2 else if deletion < 0 then -3 else 0
      ensures Snapshot() == if result == 0 then CopiedFrom(old(Snapshot())) else old(Snapshot())
    {
      if open < 0 {
        CloseDatabase(false);
        return -1;
      }
      if preSync != 0 {
        CloseDatabase(false);
        return -2;
      }
      if deletion < 0 {
        CloseDatabase(false);
        return -3;
      }
      pc.DeleteAll();
      var index := 0;
      ghost var goal := CopyFromPass(pc.View(), device.records, 0);
      var d := device.ReadRecordByIndex(index);
      while d.Some?
        invariant 0 <= index <= |device.records|
        invariant device.View() == old(device.View()) && ignore == old(ignore)
        invariant d == if index < |device.records| then Some(device.records[index]) else None
        invariant CopyFromPass(pc.View(), device.records, index) == goal
        decreases |device.records| - index
      {
        var remote := ComputeAttr(d.value);
        if remote.archived {
          pc.ArchiveRemote(None, remote.(attr := Nothing, archived := false));
        } else if remote.attr != Deleted {
          pc.StoreRemote(remote.(attr := Nothing, archived := false));
        }
        index := index + 1;
        d := device.ReadRecordByIndex(index);
      }
      CloseDatabase(true);
      return 0;
    }
  }
}
