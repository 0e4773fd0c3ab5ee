// The two mutable sides of a synchronisation: the device database behind the
// dlp_* calls, and the PC store behind the conduit's virtual methods. Both are
// the assumptions of this model about code the framework only calls.
module Databases {
  import opened Records
  import SyncState

  class PilotDatabase {
    var records: seq<DeviceRecord>
    var nextId: RecordId
    var rejects: set<RecordId>
    var journal: seq<RecordId>

    function View(): SyncState.Device
      reads this
    {
      SyncState.Device(records, nextId, rejects, journal)
    }

    method WriteRecord(id: RecordId, p: Payload) returns (err: int, given: RecordId)
      modifies this
      ensures View() == SyncState.WriteRecord(old(View()), id, p)
      ensures err < 0 <==> SyncState.AssignedId(old(View()), id).None?
      ensures err >= 0 ==> err > 0 && given == SyncState.AssignedId(old(View()), id).value
    {
      if id in rejects {
        err, given := -1, 0;
      } else if id == 0 {
        err, given := 1, nextId;
        records := records + [SyncState.Written(nextId, p)];
        journal := journal + [nextId];
        nextId := nextId + 1;
      } else {
        err, given := 1, id;
        var at := FindDevice(records, id);
        records := if at.Some? then records[at.value := SyncState.Written(id, p)]
                   else records + [SyncState.Written(id, p)];
        journal := journal + [id];
      }
    }

    method DeleteRecord(id: RecordId) returns (err: int)
      modifies this
      ensures View() == SyncState.DeleteRecord(old(View()), id)
      ensures err < 0 <==> FindDevice(old(records), id).None?
    {
      var at := FindDevice(records, id);
      err := if at.Some? then 0 else -1;
      if at.Some? {
        records := records[at.value := records[at.value].(deleted := true)];
      }
      journal := journal + [id];
    }

    method DeleteAllRecords()
      modifies this
      ensures View() == old(View()).(records := [])
    {
      records := [];
    }

    method ReadRecordById(id: RecordId) returns (remote: PilotRecord)
      ensures remote == SyncState.ReadById(View(), id)
    {
      var at := FindDevice(records, id);
      remote := if at.Some? then ComputeAttr(records[at.value]) else Unread(id);
    }

    // None stands for a negative return code.
    method ReadRecordByIndex(index: nat) returns (d: Option<DeviceRecord>)
      ensures d == if index < |records| then Some(records[index]) else None
    {
      d := if index < |records| then Some(records[index]) else None;
    }

    // The next record at or after the cursor that is dirty, deleted or archived.
    method ReadNextModifiedRec(cursor: nat) returns (at: Option<nat>)
      ensures at.Some? ==> cursor <= at.value < |records| && Flagged(records[at.value])
      ensures at.Some? ==> forall j :: cursor <= j < at.value ==> !Flagged(records[j])
      ensures at.None? ==> forall j :: cursor <= j < |records| ==> !Flagged(records[j])
    {
      var k := cursor;
      while k < |records|
        invariant cursor <= k
        invariant forall j :: cursor <= j < k && j < |records| ==> !Flagged(records[j])
      {
        if Flagged(records[k]) {
          return Some(k);
        }
        k := k + 1;
      }
      return None;
    }

    method CleanUpDatabase()
      modifies this
      ensures View() == old(View()).(records := SyncState.CleanUp(old(records)))
    {
      records := SyncState.CleanUp(records);
    }

    method ResetSyncFlags()
      modifies this
      ensures View() == old(View()).(records := SyncState.ResetFlags(old(records)))
    {
      records := SyncState.ResetFlags(records);
    }
  }

  class LocalStore {
    var slots: seq<Slot>
    var archive: seq<ArchiveEntry>

    function View(): SyncState.Store
      reads this
    {
      SyncState.Store(slots, archive)
    }

    predicate Holds(i: nat)
      reads this
    {
      i < |slots| && slots[i].Used?
    }

    method MatchRecord(remote: PilotRecord) returns (at: Option<nat>)
      ensures at == FindLocal(slots, remote.id)
      ensures at.Some? ==> Holds(at.value)
    {
      at := FindLocal(slots, remote.id);
    }

    // Nonzero exactly when the contents differ.
    method Compare(i: nat, remote: PilotRecord) returns (r: int)
      requires Holds(i)
      ensures r != 0 <==> slots[i].rec.payload != remote.payload
    {
      r := if slots[i].rec.payload == remote.payload then 0 else 1;
    }

    // The record as it is to be written to the device: same identifier, same content.
    method Transmit(i: nat) returns (remote: PilotRecord)
      requires Holds(i)
      ensures remote.id == slots[i].rec.id && remote.payload == slots[i].rec.payload
    {
      remote := PilotRecord(slots[i].rec.id, slots[i].rec.payload, slots[i].rec.attr, slots[i].rec.archived);
    }

    method StoreRemote(remote: PilotRecord)
      modifies this
      ensures View() == SyncState.StoreRemote(old(View()), remote)
    {
      var at := FindLocal(slots, remote.id);
      slots := if at.Some? then slots[at.value := Used(SyncState.Stored(remote))]
               else slots + [Used(SyncState.Stored(remote))];
    }

    method ArchiveRemote(at: Option<nat>, remote: PilotRecord)
      modifies this
      ensures View() == SyncState.ArchiveRemote(old(View()), at, remote)
    {
      if at.Some? && at.value < |slots| {
        slots := slots[at.value := Vacant];
      }
      archive := archive + [ArchiveEntry(remote.id, remote.payload)];
    }

    method ArchiveLocal(i: nat)
      requires Holds(i)
      modifies this
      ensures View() == SyncState.ArchiveLocal(old(View()), i)
    {
      archive := archive + [ArchiveEntry(slots[i].rec.id, slots[i].rec.payload)];
      slots := slots[i := Vacant];
    }

    method SetStatus(i: nat, attr: Attr)
      requires Holds(i)
      modifies this
      ensures View() == SyncState.SetStatus(old(View()), i, attr)
    {
      slots := slots[i := Used(slots[i].rec.(attr := attr))];
    }

    method SetPilotId(i: nat, id: RecordId)
      requires Holds(i)
      modifies this
      ensures View() == SyncState.SetPilotId(old(View()), i, id)
    {
      slots := slots[i := Used(slots[i].rec.(id := id))];
    }

    // The next record at or after the cursor.
    method Iterate(cursor: nat) returns (at: Option<nat>)
      ensures at.Some? ==> cursor <= at.value && Holds(at.value)
      ensures at.Some? ==> forall j :: cursor <= j < at.value ==> slots[j].Vacant?
      ensures at.None? ==> forall j :: cursor <= j < |slots| ==> slots[j].Vacant?
    {
      var k := cursor;
      while k < |slots|
        invariant cursor <= k
        invariant forall j :: cursor <= j < k && j < |slots| ==> slots[j].Vacant?
      {
        if slots[k].Used? {
          return Some(k);
        }
        k := k + 1;
      }
      return None;
    }

    // The next record at or after the cursor with the flag, not archived.
    method IterateSpecific(cursor: nat, flag: Attr) returns (at: Option<nat>)
      ensures at.Some? ==> cursor <= at.value < |slots| && SyncState.Selected(slots[at.value], flag)
      ensures at.Some? ==> forall j :: cursor <= j < at.value ==> !SyncState.Selected(slots[j], flag)
      ensures at.None? ==> forall j :: cursor <= j < |slots| ==> !SyncState.Selected(slots[j], flag)
    {
      var k := cursor;
      while k < |slots|
        invariant cursor <= k
        invariant forall j :: cursor <= j < k && j < |slots| ==> !SyncState.Selected(slots[j], flag)
      {
        if SyncState.Selected(slots[k], flag) {
          return Some(k);
        }
        k := k + 1;
      }
      return None;
    }

    method Purge()
      modifies this
      ensures View() == old(View()).(slots := SyncState.Purge(old(slots)))
    {
      slots := SyncState.Purge(slots);
    }

    method DeleteAll()
      modifies this
      ensures View() == old(View()).(slots := [])
    {
      slots := [];
    }
  }
}
