// Each step of the engine, and each pass over all records, acts on every
// identifier separately: the lemmas here carry the state-level functions of
// SyncState over to the cell-level functions of SyncCells.
module SyncSteps {
  import opened Records
  import opened SyncState
  import opened SyncCells

  // b is what a step for identifier id may turn the device a into.
  ghost predicate DeviceFrame(a: Device, b: Device, id: RecordId) {
    && a.nextId <= b.nextId && b.rejects == a.rejects
    && |a.records| <= |b.records|
    && (forall j :: 0 <= j < |a.records| ==>
          b.records[j].id == a.records[j].id && (a.records[j].id != id ==> b.records[j] == a.records[j]))
    && (id != 0 && (exists j :: 0 <= j < |a.records| && a.records[j].id == id) ==>
          |b.records| == |a.records|)
  }

  // b is what a step for the record at position i may turn the positions a into.
  ghost predicate SlotFrame(a: seq<Slot>, b: seq<Slot>, i: nat) {
    && i < |a| == |b|
    && (forall j :: 0 <= j < |a| && j != i ==> b[j] == a[j])
    && (b[i].Vacant? || (a[i].Used? && b[i].rec.id == a[i].rec.id))
  }

  lemma WriteKeeps(d: Device, me: RecordId, p: Payload)
    requires ValidDevice(d) && me < d.nextId
    ensures ValidDevice(WriteRecord(d, me, p)) && DeviceFrame(d, WriteRecord(d, me, p), me)
  {
    if me !in d.rejects {
      var id := if me == 0 then d.nextId else me;
      assert FindDevice(d.records, d.nextId).None?;
      DeviceAfterWrite(d.records, Written(id, p), id);
    }
  }

  lemma WriteJournal(d: Device, me: RecordId, p: Payload)
    ensures var given := AssignedId(d, me);
      multiset(WriteRecord(d, me, p).journal) ==
        multiset(d.journal) + (if given.Some? then multiset{given.value} else multiset{})
  {
  }

  lemma WriteFinds(d: Device, me: RecordId, p: Payload, id: RecordId)
    requires ValidDevice(d) && me < d.nextId
    ensures DeviceAt(WriteRecord(d, me, p).records, id) ==
            if AssignedId(d, me) == Some(id) then Some(Written(id, p)) else DeviceAt(d.records, id)
  {
    if me !in d.rejects {
      assert FindDevice(d.records, d.nextId).None?;
      DeviceAfterWrite(d.records, Written(if me == 0 then d.nextId else me, p), id);
    }
  }

  lemma WriteStep(d: Device, me: RecordId, p: Payload, id: RecordId)
    requires ValidDevice(d) && me < d.nextId
    ensures var d' := WriteRecord(d, me, p);
      var given := AssignedId(d, me);
      && ValidDevice(d')
      && DeviceFrame(d, d', me)
      && multiset(d'.journal) ==
           multiset(d.journal) + (if given.Some? then multiset{given.value} else multiset{})
      && DeviceAt(d'.records, id) ==
           if given == Some(id) then Some(Written(id, p)) else DeviceAt(d.records, id)
  {
    WriteKeeps(d, me, p);
    WriteJournal(d, me, p);
    WriteFinds(d, me, p, id);
  }

  lemma EraseDevice(d: Device, me: RecordId, id: RecordId)
    requires ValidDevice(d) && me < d.nextId
    ensures var d' := DeleteRecord(d, me);
      && ValidDevice(d')
      && DeviceFrame(d, d', me)
      && multiset(d'.journal) == multiset(d.journal) + multiset{me}
      && DeviceAt(d'.records, id) ==
           if id == me && DeviceAt(d.records, id).Some?
           then Some(DeviceAt(d.records, id).value.(deleted := true)) else DeviceAt(d.records, id)
  {
    var at := FindDevice(d.records, me);
    if at.Some? {
      DeviceAfterWrite(d.records, d.records[at.value].(deleted := true), id);
    }
  }

  // Replacing the record at a used position by another one of the same
  // identifier, or by a vacant position.
  lemma SlotStep(slots: seq<Slot>, d: Device, i: nat, slot: Slot, id: RecordId)
    requires ValidLocal(slots, d) && i < |slots| && slots[i].Used?
    requires slot.Used? ==> slot.rec.id == slots[i].rec.id
    ensures ValidLocal(slots[i := slot], d) && SlotFrame(slots, slots[i := slot], i)
    ensures id != 0 ==> LocalAt(slots[i := slot], id) ==
                        if id != slots[i].rec.id then LocalAt(slots, id)
                        else if slot.Used? then Some(slot.rec) else None
    ensures slots[i].rec.id != 0 ==> LocalAt(slots, slots[i].rec.id) == Some(slots[i].rec)
  {
    if id != 0 { LocalAfterUpdate(slots, i, slot, id); } else { LocalAfterUpdate(slots, i, slot, 1); }
    if slots[i].rec.id != 0 { LocalAtIs(slots, i); }
  }

  lemma SendStep(s: State, i: nat, id: RecordId)
    requires Valid(s) && i < |s.local.slots| && s.local.slots[i].Used?
    ensures var s' := SendLocal(s, i);
      var me := s.local.slots[i].rec.id;
      && Valid(s')
      && DeviceFrame(s.device, s'.device, me)
      && SlotFrame(s.local.slots, s'.local.slots, i) && s'.local.slots[i].Used?
      && (0 < id < s.device.nextId ==>
            CellOf(s', id) == if id == me then SendCell(CellOf(s, id), id !in s.device.rejects)
                              else CellOf(s, id))
  {
    var rec := s.local.slots[i].rec;
    WriteStep(s.device, rec.id, rec.payload, id);
    SlotStep(s.local.slots, WriteRecord(s.device, rec.id, rec.payload), i, Used(rec.(attr := Nothing)), id);
  }

  lemma EraseStep(s: State, me: RecordId, id: RecordId)
    requires Valid(s) && me < s.device.nextId
    ensures var s' := DeleteFromPilot(s, me);
      && Valid(s')
      && DeviceFrame(s.device, s'.device, me)
      && s'.local == s.local
      && (0 < id < s.device.nextId ==>
            CellOf(s', id) == if id == me then ApplyCell(CellOf(s, id), Unread(me), Erase, true)
                              else CellOf(s, id))
  {
    EraseDevice(s.device, me, id);
  }

  // Steps that change nothing but the record at one position.
  lemma LocalStep(s: State, i: nat, remote: PilotRecord, e: Effect, id: RecordId)
    requires Valid(s) && i < |s.local.slots| && HasId(s.local.slots[i], remote.id)
    requires !e.Send? && !e.Erase? && (e.Keep? ==> remote.id != 0)
    ensures var s' := Apply(s, i, remote, e);
      && Valid(s')
      && SlotFrame(s.local.slots, s'.local.slots, i)
      && (!e.ArchiveDevice? && !e.ArchivePC? ==> s'.local.slots[i].Used?)
      && (id != 0 ==> CellOf(s', id) == if id == remote.id then ApplyCell(CellOf(s, id), remote, e, true)
                                        else CellOf(s, id))
  {
    var rec := s.local.slots[i].rec;
    if e.Keep? { LocalAtIs(s.local.slots, i); }
    if e.ArchiveDevice? || e.ArchivePC? {
      ArchivedAfter(s.local.archive,
                    ArchiveEntry(remote.id, if e.ArchivePC? then rec.payload else remote.payload), id);
    }
    SlotStep(s.local.slots, s.device, i,
             if e.Keep? then Used(Stored(remote))
             else if e.MarkClean? then Used(rec.(attr := Nothing))
             else if e.MarkDeleted? then Used(rec.(attr := Deleted))
             else Vacant, id);
  }

  // The effects Decide lists can be carried out one after the other: nothing
  // touches the local record once it was archived, and nothing is stored under
  // an unassigned identifier.
  ghost predicate Runnable(s: State, i: nat, remote: PilotRecord, es: seq<Effect>) {
    && i < |s.local.slots| && remote.id < s.device.nextId
    && (HasId(s.local.slots[i], remote.id) || forall k :: 0 <= k < |es| ==> es[k].Erase?)
    && (remote.id == 0 ==> Keep !in es)
    && (forall k, m :: 0 <= k < m < |es| && (es[k].ArchiveDevice? || es[k].ArchivePC?) ==> es[m].Erase?)
  }

  lemma EffectStep(s: State, i: nat, remote: PilotRecord, e: Effect, id: RecordId)
    requires Valid(s) && i < |s.local.slots| && remote.id < s.device.nextId
    requires e.Erase? || HasId(s.local.slots[i], remote.id)
    requires remote.id == 0 ==> !e.Keep?
    ensures var s' := Apply(s, i, remote, e);
      && Valid(s')
      && DeviceFrame(s.device, s'.device, remote.id)
      && SlotFrame(s.local.slots, s'.local.slots, i)
      && (HasId(s.local.slots[i], remote.id) && !e.ArchiveDevice? && !e.ArchivePC? ==>
            HasId(s'.local.slots[i], remote.id))
      && (0 < id < s.device.nextId ==>
            CellOf(s', id) == if id == remote.id then ApplyCell(CellOf(s, id), remote, e, id !in s.device.rejects)
                              else CellOf(s, id))
  {
    match e
    case Send => SendStep(s, i, id);
    case Erase => EraseStep(s, remote.id, id);
    case _ => LocalStep(s, i, remote, e, id);
  }

  lemma ApplyStep(s: State, i: nat, remote: PilotRecord, es: seq<Effect>, id: RecordId)
    requires Valid(s) && Runnable(s, i, remote, es) && es != []
    ensures var s' := Apply(s, i, remote, es[0]);
      && Valid(s') && Runnable(s', i, remote, es[1..])
      && DeviceFrame(s.device, s'.device, remote.id)
      && SlotFrame(s.local.slots, s'.local.slots, i)
      && (0 < id < s.device.nextId ==>
            CellOf(s', id) == if id == remote.id then ApplyCell(CellOf(s, id), remote, es[0], id !in s.device.rejects)
                              else CellOf(s, id))
  {
    EffectStep(s, i, remote, es[0], id);
    assert forall k :: 0 <= k < |es[1..]| ==> es[1..][k] == es[k + 1];
  }

  lemma {:induction false} ApplyAllStep(s: State, i: nat, remote: PilotRecord, es: seq<Effect>, dir: Direction,
                                        id: RecordId)
    requires Valid(s) && Runnable(s, i, remote, es)
    ensures var s' := ApplyAll(s, i, remote, es, dir);
      && Valid(s')
      && DeviceFrame(s.device, s'.device, remote.id)
      && SlotFrame(s.local.slots, s'.local.slots, i)
      && (0 < id < s.device.nextId ==>
            CellOf(s', id) == if id == remote.id
                              then ApplyAllCell(CellOf(s, id), remote, es, dir, id !in s.device.rejects)
                              else CellOf(s, id))
    decreases |es|
  {
    if es != [] {
      var s1 := if Permitted(es[0], dir) then Apply(s, i, remote, es[0]) else s;
      if Permitted(es[0], dir) {
        ApplyStep(s, i, remote, es, id);
      } else {
        SkipStep(s, i, remote, es);
      }
      ApplyAllStep(s1, i, remote, es[1..], dir, id);
    }
  }

  // A step the direction forbids leaves the remaining ones possible.
  lemma SkipStep(s: State, i: nat, remote: PilotRecord, es: seq<Effect>)
    requires Runnable(s, i, remote, es) && es != []
    ensures Runnable(s, i, remote, es[1..])
  {
    if !HasId(s.local.slots[i], remote.id) {
      assert forall k :: 0 <= k < |es[1..]| ==> es[1..][k] == es[k + 1];
    }
  }

  lemma DecideRunnable(s: State, i: nat, remote: PilotRecord)
    requires i < |s.local.slots| && HasId(s.local.slots[i], remote.id) && remote.id < s.device.nextId
    requires remote.id == 0 ==> remote.attr.Nothing? && !remote.archived
    ensures Runnable(s, i, remote, Decide(s.local.slots[i].rec, remote))
  {
  }

  // A device record without a local counterpart touches only the PC side.
  lemma UnmatchedStep(s: State, remote: PilotRecord, dir: Direction, id: RecordId)
    requires Valid(s) && 0 < remote.id < s.device.nextId && FindLocal(s.local.slots, remote.id).None?
    ensures var s' := Unmatched(s, remote, dir);
      && Valid(s')
      && s'.device == s.device
      && (0 < id < s.device.nextId ==>
            CellOf(s', id) == if id == remote.id then UnmatchedCell(CellOf(s, id), remote, dir) else CellOf(s, id))
  {
    if dir.toLocal {
      if remote.archived {
        ArchivedAfter(s.local.archive, ArchiveEntry(remote.id, remote.payload), id);
      } else {
        var slots := s.local.slots + [Used(Stored(remote))];
        LocalAfterAppend(s.local.slots, Stored(remote), remote.id);
        if id != 0 { LocalAfterAppend(s.local.slots, Stored(remote), id); }
        LocalAtIs(slots, |s.local.slots|);
        assert slots[|s.local.slots| := Used(Stored(remote))] == slots;
        assert Unmatched(s, remote, dir).local.slots == slots;
      }
    }
  }

  // One stop of a device pass.
  lemma RemoteStep(s: State, k: nat, scan: Scan, dir: Direction, id: RecordId)
    requires Valid(s) && k < |s.device.records|
    ensures var d := s.device.records[k];
      var s' := if Visits(scan, d) then SyncRemote(s, ComputeAttr(d), dir) else s;
      && Valid(s')
      && DeviceFrame(s.device, s'.device, d.id) && |s'.device.records| == |s.device.records|
      && (0 < id < s.device.nextId ==>
            CellOf(s', id) == if id == d.id then RemoteVisit(CellOf(s, id), scan, dir, id !in s.device.rejects)
                              else CellOf(s, id))
  {
    var d := s.device.records[k];
    DeviceAtIs(s.device.records, k);
    IgnoredIsHit(s, d.id);
    if Visits(scan, d) && d.id !in s.ignore {
      var remote := ComputeAttr(d);
      var at := FindLocal(s.local.slots, d.id);
      if at.None? {
        UnmatchedStep(s, remote, dir, id);
      } else {
        DecideRunnable(s, at.value, remote);
        ApplyAllStep(s, at.value, remote, Decide(s.local.slots[at.value].rec, remote), dir, id);
      }
    }
  }

  lemma IgnoredIsHit(s: State, id: RecordId)
    requires Valid(s)
    ensures id in s.ignore <==> multiset(s.device.journal)[id] > 0
  {
    assert id in s.ignore <==> id in multiset(s.ignore);
  }

  // One stop of a local pass.
  lemma LocalVisitStep(s: State, k: nat, flag: Attr, dir: Direction, id: RecordId)
    requires Valid(s) && k < |s.local.slots| && Selected(s.local.slots[k], flag)
    ensures var me := s.local.slots[k].rec.id;
      var s' := SyncLocal(s, k, dir);
      && Valid(s')
      && DeviceFrame(s.device, s'.device, me)
      && SlotFrame(s.local.slots, s'.local.slots, k)
      && (0 < id < s.device.nextId ==>
            CellOf(s', id) == if id == me then LocalVisit(CellOf(s, id), flag, dir, id !in s.device.rejects)
                              else CellOf(s, id))
  {
    var me := s.local.slots[k].rec.id;
    IgnoredIsHit(s, me);
    if me != 0 { LocalAtIs(s.local.slots, k); }
    if me !in s.ignore {
      var remote := ReadById(s.device, me);
      assert remote.id == me;
      DecideRunnable(s, k, remote);
      ApplyAllStep(s, k, remote, Decide(s.local.slots[k].rec, remote), dir, id);
    }
  }

  // One stop of the pass over new records. A record without an identifier gets
  // the device's next one, the others keep theirs, and a record whose write is
  // refused ends without one.
  lemma InstallStep(s: State, k: nat, id: RecordId)
    requires Valid(s) && k < |s.local.slots| && Selected(s.local.slots[k], New)
    ensures var rec := s.local.slots[k].rec;
      var s' := InstallNew(s, k);
      && Valid(s')
      && DeviceFrame(s.device, s'.device, rec.id)
      && |s'.local.slots| == |s.local.slots|
      && (forall j :: 0 <= j < |s.local.slots| && j != k ==> s'.local.slots[j] == s.local.slots[j])
      && s'.local.slots[k] == Used(rec.(attr := Nothing, id := SentId(s, k)))
      && s'.local.archive == s.local.archive
      && (0 < id < s.device.nextId ==>
            CellOf(s', id) == if id == rec.id then NewVisit(CellOf(s, id), id !in s.device.rejects)
                              else CellOf(s, id))
  {
    var rec := s.local.slots[k].rec;
    SendStep(s, k, id);
    var sent := SendLocal(s, k);
    if rec.id != 0 && rec.id in s.device.rejects {
      LocalAtIs(s.local.slots, k);
      NoIdStep(sent.local.slots, sent.device, k, id);
    } else if rec.id != 0 {
      LocalAtIs(s.local.slots, k);
      assert SetPilotId(sent.local, k, rec.id).slots == sent.local.slots;
    } else if 0 !in s.device.rejects {
      FreshIdStep(sent.local.slots, sent.device, k, s.device.nextId, id);
    } else {
      assert SetPilotId(sent.local, k, 0).slots == sent.local.slots;
    }
  }

  // Taking the identifier from a record.
  lemma NoIdStep(slots: seq<Slot>, d: Device, k: nat, id: RecordId)
    requires ValidLocal(slots, d) && k < |slots| && slots[k].Used? && 0 < d.nextId
    ensures var slots' := slots[k := Used(slots[k].rec.(id := 0))];
      && ValidLocal(slots', d)
      && (id != 0 ==> LocalAt(slots', id) == if id == slots[k].rec.id then None else LocalAt(slots, id))
  {
    var slots' := slots[k := Used(slots[k].rec.(id := 0))];
    assert forall j :: 0 <= j < |slots| && j != k ==> slots'[j] == slots[j];
    var was, now := FindLocal(slots, id), FindLocal(slots', id);
    if id != 0 && id != slots[k].rec.id && was.Some? {
      assert HasId(slots'[was.value], id);
    }
  }

  // Giving an identifier nobody holds to a record without one.
  lemma FreshIdStep(slots: seq<Slot>, d: Device, k: nat, newId: RecordId, id: RecordId)
    requires ValidLocal(slots, d) && k < |slots| && HasId(slots[k], 0)
    requires 0 < newId < d.nextId && FindLocal(slots, newId).None?
    ensures var slots' := slots[k := Used(slots[k].rec.(id := newId))];
      && ValidLocal(slots', d)
      && (id != 0 ==> LocalAt(slots', id) == if id == newId then Some(slots'[k].rec) else LocalAt(slots, id))
  {
    var slots' := slots[k := Used(slots[k].rec.(id := newId))];
    forall j | 0 <= j < |slots| && j != k
      ensures slots'[j] == slots[j] && !HasId(slots[j], newId)
    {
    }
    var was := FindLocal(slots, id);
    if id == newId {
      assert HasId(slots'[k], id);
    } else if was.Some? && id != 0 {
      assert HasId(slots'[was.value], id);
    }
  }
}
