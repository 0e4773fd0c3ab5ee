// The close and the complete two-way run, one identifier at a time.
module SyncRuns {
  import opened Records
  import opened SyncState
  import opened SyncCells
  import opened SyncSteps
  import opened SyncPasses

  predicate Remains(slot: Slot) {
    slot.Used? && !slot.rec.attr.Deleted?
  }

  lemma {:induction false} CleanUpAt(ds: seq<DeviceRecord>, id: RecordId)
    requires DistinctDevice(ds)
    ensures DistinctDevice(CleanUp(ds))
    ensures forall i :: 0 <= i < |CleanUp(ds)| ==> CleanUp(ds)[i] in ds && Stays(CleanUp(ds)[i])
    ensures var was := DeviceAt(ds, id);
      DeviceAt(CleanUp(ds), id) == if was.Some? && Stays(was.value) then was else None
    decreases |ds|
  {
    if ds != [] {
      var t := ds[1..];
      assert forall j :: 0 <= j < |t| ==> t[j] == ds[j + 1];
      CleanUpAt(t, id);
      DeviceAtCons(ds, id);
      forall i | 0 <= i < |CleanUp(t)|
        ensures CleanUp(t)[i].id != ds[0].id
      {
        assert CleanUp(t)[i] in t;
      }
      if Stays(ds[0]) {
        assert CleanUp(ds)[1..] == CleanUp(t);
        DeviceAtCons(CleanUp(ds), id);
      } else if id == ds[0].id {
        assert FindDevice(CleanUp(t), id).None?;
      }
    }
  }

  lemma DeviceAtCons(ds: seq<DeviceRecord>, id: RecordId)
    requires DistinctDevice(ds) && ds != []
    ensures DeviceAt(ds, id) == if ds[0].id == id then Some(ds[0]) else DeviceAt(ds[1..], id)
  {
    var t := ds[1..];
    var rest := FindDevice(t, id);
    if ds[0].id == id {
      DeviceAtIs(ds, 0);
    } else if rest.Some? {
      DeviceAtIs(ds, rest.value + 1);
    } else {
      var at := FindDevice(ds, id);
      assert forall j :: 1 <= j < |ds| ==> ds[j] == t[j - 1];
    }
  }

  lemma ResetFlagsAt(ds: seq<DeviceRecord>, id: RecordId)
    requires DistinctDevice(ds)
    ensures DistinctDevice(ResetFlags(ds))
    ensures var was := DeviceAt(ds, id);
      DeviceAt(ResetFlags(ds), id) == if was.Some? then Some(was.value.(dirty := false)) else None
  {
    var ds' := ResetFlags(ds);
    assert forall j :: 0 <= j < |ds| ==> ds'[j] == ds[j].(dirty := false);
    var at := FindDevice(ds, id);
    if at.Some? { DeviceAtIs(ds', at.value); }
  }

  lemma {:induction false} PurgeMembers(slots: seq<Slot>)
    ensures forall i :: 0 <= i < |Purge(slots)| ==> Purge(slots)[i] in slots && Remains(Purge(slots)[i])
    decreases |slots|
  {
    if slots != [] {
      PurgeMembers(slots[1..]);
      assert forall x :: x in slots[1..] ==> x in slots;
    }
  }

  lemma {:induction false} PurgeDistinct(slots: seq<Slot>)
    requires DistinctLocal(slots)
    ensures DistinctLocal(Purge(slots))
    decreases |slots|
  {
    if slots != [] {
      var t := slots[1..];
      assert forall j :: 0 <= j < |t| ==> t[j] == slots[j + 1];
      PurgeDistinct(t);
      PurgeMembers(t);
      forall i | 0 <= i < |Purge(t)|
        ensures slots[0].Used? ==> Purge(t)[i].rec.id != slots[0].rec.id || slots[0].rec.id == 0
      {
        assert Purge(t)[i] in t;
      }
    }
  }

  lemma {:induction false} PurgeAt(slots: seq<Slot>, id: RecordId)
    requires DistinctLocal(slots) && id != 0
    ensures DistinctLocal(Purge(slots))
    ensures forall i :: 0 <= i < |Purge(slots)| ==> Purge(slots)[i] in slots && Remains(Purge(slots)[i])
    ensures var was := LocalAt(slots, id);
      LocalAt(Purge(slots), id) == if was.Some? && !was.value.attr.Deleted? then was else None
    decreases |slots|
  {
    PurgeDistinct(slots);
    PurgeMembers(slots);
    if slots != [] {
      var t := slots[1..];
      assert forall j :: 0 <= j < |t| ==> t[j] == slots[j + 1];
      PurgeAt(t, id);
      LocalAtCons(slots, id);
      if Remains(slots[0]) {
        assert Purge(slots)[1..] == Purge(t);
        LocalAtCons(Purge(slots), id);
      } else if HasId(slots[0], id) {
        NotAmong(slots, id);
      }
    }
  }

  // Behind the record with an identifier there is no other one.
  lemma NotAmong(slots: seq<Slot>, id: RecordId)
    requires DistinctLocal(slots) && slots != [] && HasId(slots[0], id) && id != 0
    ensures LocalAt(slots[1..], id) == None
  {
    var at := FindLocal(slots[1..], id);
    assert forall j :: 0 <= j < |slots[1..]| ==> slots[1..][j] == slots[j + 1];
  }

  lemma LocalAtCons(slots: seq<Slot>, id: RecordId)
    requires DistinctLocal(slots) && slots != [] && id != 0
    ensures LocalAt(slots, id) == if HasId(slots[0], id) then Some(slots[0].rec) else LocalAt(slots[1..], id)
  {
    var t := slots[1..];
    var rest := FindLocal(t, id);
    if HasId(slots[0], id) {
      LocalAtIs(slots, 0);
    } else if rest.Some? {
      LocalAtIs(slots, rest.value + 1);
    } else {
      var at := FindLocal(slots, id);
      assert forall j :: 1 <= j < |slots| ==> slots[j] == t[j - 1];
    }
  }

  // The close drops tombstones and archived records from the device, deleted
  // records from the PC, and every dirty flag.
  lemma CloseStep(s: State, id: RecordId)
    requires Valid(s) && id != 0
    ensures Valid(Close(s)) && CellOf(Close(s), id) == CloseCell(CellOf(s, id))
  {
    CleanUpAt(s.device.records, id);
    ResetFlagsAt(CleanUp(s.device.records), id);
    PurgeAt(s.local.slots, id);
    var ds := ResetFlags(CleanUp(s.device.records));
    forall i | 0 <= i < |ds|
      ensures 0 < ds[i].id < s.device.nextId
    {
      assert CleanUp(s.device.records)[i] in s.device.records;
    }
  }

  /* ----- Full passes ----- */

  lemma DevicePassStep(s: State, scan: Scan, dir: Direction, id: RecordId)
    requires Valid(s)
    ensures var s' := DevicePass(s, scan, dir);
      && Valid(s') && s.device.nextId <= s'.device.nextId && s'.device.rejects == s.device.rejects
      && (0 < id < s.device.nextId ==>
            CellOf(s', id) == RemoteVisit(CellOf(s, id), scan, dir, id !in s.device.rejects))
  {
    RemotePassCell(s, 0, scan, dir, id);
    if !DeviceHas(s.device.records, id, 0) {
      var at := FindDevice(s.device.records, id);
      assert at.None?;
    }
  }

  lemma FlagPassStep(s: State, flag: Attr, dir: Direction, id: RecordId)
    requires Valid(s)
    ensures var s' := FlagPass(s, flag, dir);
      && Valid(s') && s.device.nextId <= s'.device.nextId && s'.device.rejects == s.device.rejects
      && (0 < id < s.device.nextId ==>
            CellOf(s', id) == LocalVisit(CellOf(s, id), flag, dir, id !in s.device.rejects))
  {
    LocalPassCell(s, 0, flag, dir, id);
    if !LocalHas(s.local.slots, id, 0) {
      var at := FindLocal(s.local.slots, id);
      assert at.None?;
    }
  }

  lemma AddPassStep(s: State, id: RecordId)
    requires Valid(s)
    ensures var s' := AddPass(s);
      && Valid(s') && s.device.nextId <= s'.device.nextId && s'.device.rejects == s.device.rejects
      && (0 < id < s.device.nextId ==> CellOf(s', id) == NewVisit(CellOf(s, id), id !in s.device.rejects))
      && (s.device.nextId <= id < s'.device.nextId ==> Installed(CellOf(s', id), id))
  {
    NewPassCell(s, 0, id);
    if !LocalHas(s.local.slots, id, 0) {
      var at := FindLocal(s.local.slots, id);
      assert at.None?;
    }
  }

  // Merging to the device, in any direction, acts on each identifier alone.
  lemma MergeDecomposes(s: State, dir: Direction, id: RecordId)
    requires Valid(s) && 0 < id < s.device.nextId
    ensures Valid(MergeToRemote(s, dir))
    ensures CellOf(MergeToRemote(s, dir), id) == MergeCell(CellOf(s, id), dir, id !in s.device.rejects)
    ensures s.device.nextId <= MergeToRemote(s, dir).device.nextId
    ensures MergeToRemote(s, dir).device.rejects == s.device.rejects
  {
    AddPassStep(s, id);
    FlagPassStep(if dir.toRemote then AddPass(s) else s, Modified, dir, id);
  }

  // The two-way run on a state is, under every identifier known at its start,
  // the two-way run on that identifier's cell.
  lemma SynchronizeDecomposes(s: State, fast: bool, id: RecordId)
    requires Valid(s) && 0 < id < s.device.nextId
    ensures Valid(Synchronized(s, fast))
    ensures CellOf(Synchronized(s, fast), id) == SyncCell(CellOf(s, id), fast, id !in s.device.rejects)
  {
    var scan := if fast then Changed else Every;
    DevicePassStep(s, scan, BothWays, id);
    var s1 := DevicePass(s, scan, BothWays);
    MergeDecomposes(s1, BothWays, id);
    FlagPassStep(MergeToRemote(s1, BothWays), Deleted, BothWays, id);
    CloseStep(Reconcile(s, fast), id);
  }
}
