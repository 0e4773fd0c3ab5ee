// The records the conduit framework reconciles: what the device holds, what the
// PC holds, and the in-memory copy of a device record that a sync step looks at.
module Records {

  datatype Option<+T> = None | Some(value: T)

  newtype byte = x: int | 0 <= x < 256

  // 0 means "no identifier assigned yet"; the device never holds record 0.
  type RecordId = nat

  // What a write transmits and a compare looks at.
  datatype Payload = Payload(secret: bool, category: nat, bytes: seq<byte>)

  datatype Attr = Nothing | New | Deleted | Modified | Pending

  // A record in the device database, with the flag bits the device keeps.
  datatype DeviceRecord = DeviceRecord(
    id: RecordId, payload: Payload, dirty: bool, deleted: bool, archived: bool)

  // A device record as a sync step sees it, after the flags were decoded.
  datatype PilotRecord = PilotRecord(
    id: RecordId, payload: Payload, attr: Attr, archived: bool)

  datatype LocalRecord = LocalRecord(
    id: RecordId, payload: Payload, attr: Attr, archived: bool)

  // A position in the PC's record list. A record that was moved to the archive
  // leaves its position vacant until the next purge, so cursors stay valid.
  datatype Slot = Vacant | Used(rec: LocalRecord)

  datatype ArchiveEntry = ArchiveEntry(id: RecordId, payload: Payload)

  predicate Flagged(d: DeviceRecord) {
    d.dirty || d.deleted || d.archived
  }

  // What a clean-up of the database leaves.
  predicate Stays(d: DeviceRecord) {
    !d.deleted && !d.archived
  }

  predicate HasId(slot: Slot, id: RecordId) {
    slot.Used? && slot.rec.id == id
  }

  // Decodes the flag bits of a freshly read device record.
  function ComputeAttr(d: DeviceRecord): PilotRecord {
    PilotRecord(d.id, d.payload,
                if d.deleted then Deleted else if d.dirty then Modified else Nothing,
                d.archived)
  }

  // What a read by identifier leaves behind when the device has no such record.
  function Unread(id: RecordId): PilotRecord {
    PilotRecord(id, Payload(false, 0, []), Nothing, false)
  }

  // Position of the first device record with the identifier, searching from k.
  function FindDevice(ds: seq<DeviceRecord>, id: RecordId, k: nat := 0): (r: Option<nat>)
    requires k <= |ds|
    ensures r.Some? ==> k <= r.value < |ds| && ds[r.value].id == id
    ensures r.Some? ==> forall j :: k <= j < r.value ==> ds[j].id != id
    ensures r.None? ==> forall j :: k <= j < |ds| ==> ds[j].id != id
    decreases |ds| - k
  {
    if k == |ds| then None
    else if ds[k].id == id then Some(k)
    else FindDevice(ds, id, k + 1)
  }

  // Position of the first local record with the identifier, searching from k.
  function FindLocal(slots: seq<Slot>, id: RecordId, k: nat := 0): (r: Option<nat>)
    requires k <= |slots|
    ensures r.Some? ==> k <= r.value < |slots| && HasId(slots[r.value], id)
    ensures r.Some? ==> forall j :: k <= j < r.value ==> !HasId(slots[j], id)
    ensures r.None? ==> forall j :: k <= j < |slots| ==> !HasId(slots[j], id)
    decreases |slots| - k
  {
    if k == |slots| then None
    else if HasId(slots[k], id) then Some(k)
    else FindLocal(slots, id, k + 1)
  }

  function DeviceAt(ds: seq<DeviceRecord>, id: RecordId): Option<DeviceRecord> {
    var i := FindDevice(ds, id);
    if i.Some? then Some(ds[i.value]) else None
  }

  function LocalAt(slots: seq<Slot>, id: RecordId): Option<LocalRecord> {
    var i := FindLocal(slots, id);
    if i.Some? then Some(slots[i.value].rec) else None
  }

  ghost predicate DistinctDevice(ds: seq<DeviceRecord>) {
    forall i, j :: 0 <= i < j < |ds| ==> ds[i].id != ds[j].id
  }

  // Two positions may share an identifier only while it is unassigned.
  ghost predicate DistinctLocal(slots: seq<Slot>) {
    forall i, j :: 0 <= i < j < |slots| && slots[i].Used? && slots[j].Used? ==>
      slots[i].rec.id != slots[j].rec.id || slots[i].rec.id == 0
  }
}
