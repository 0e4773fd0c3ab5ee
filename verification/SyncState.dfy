// The value-level meaning of a synchronisation: every operation of the conduit
// base class as a function from the state before to the state after.
module SyncState {
  import opened Records

  // The device database. `nextId` is the seed for fresh identifiers, `rejects`
  // the identifiers whose writes the device refuses, `journal` the identifiers
  // of all accepted writes and all delete requests, oldest first.
  datatype Device = Device(
    records: seq<DeviceRecord>, nextId: RecordId, rejects: set<RecordId>, journal: seq<RecordId>)

  // The PC side, as the conduit's virtual methods expose it.
  datatype Store = Store(slots: seq<Slot>, archive: seq<ArchiveEntry>)

  datatype State = State(device: Device, local: Store, ignore: seq<RecordId>)

  datatype Direction = Direction(toRemote: bool, toLocal: bool)

  const ToRemote := Direction(true, false)
  const ToLocal := Direction(false, true)
  const BothWays := Direction(true, true)

  /* ----- Device calls ----- */

  // A write never leaves a record deleted or archived, and always dirty.
  function Written(id: RecordId, p: Payload): DeviceRecord {
    DeviceRecord(id, p, true, false, false)
  }

  function WriteRecord(d: Device, id: RecordId, p: Payload): Device {
    if id in d.rejects then d
    else if id == 0 then
      d.(records := d.records + [Written(d.nextId, p)], nextId := d.nextId + 1,
         journal := d.journal + [d.nextId])
    else
      var at := FindDevice(d.records, id);
      d.(records := if at.Some? then d.records[at.value := Written(id, p)]
                    else d.records + [Written(id, p)],
         journal := d.journal + [id])
  }

  // The identifier a write reports; None is a negative return code.
  function AssignedId(d: Device, id: RecordId): Option<RecordId> {
    if id in d.rejects then None else Some(if id == 0 then d.nextId else id)
  }

  // Deleting leaves a tombstone in place; an unknown identifier is an error
  // without effect on the records.
  function DeleteRecord(d: Device, id: RecordId): Device {
    var at := FindDevice(d.records, id);
    d.(records := if at.Some? then d.records[at.value := d.records[at.value].(deleted := true)]
                  else d.records,
       journal := d.journal + [id])
  }

  function ReadById(d: Device, id: RecordId): PilotRecord {
    var at := FindDevice(d.records, id);
    if at.Some? then ComputeAttr(d.records[at.value]) else Unread(id)
  }

  function CleanUp(ds: seq<DeviceRecord>): seq<DeviceRecord> {
    if ds == [] then []
    else if ds[0].deleted || ds[0].archived then CleanUp(ds[1..])
    else [ds[0]] + CleanUp(ds[1..])
  }

  function ResetFlags(ds: seq<DeviceRecord>): seq<DeviceRecord> {
    seq(|ds|, i requires 0 <= i < |ds| => ds[i].(dirty := false))
  }

  /* ----- Virtual methods of the conduit ----- */

  // A stored device record is clean and not archived.
  function Stored(remote: PilotRecord): LocalRecord {
    LocalRecord(remote.id, remote.payload, Nothing, false)
  }

  function StoreRemote(l: Store, remote: PilotRecord): Store {
    var at := FindLocal(l.slots, remote.id);
    l.(slots := if at.Some? then l.slots[at.value := Used(Stored(remote))]
                else l.slots + [Used(Stored(remote))])
  }

  function SetStatus(l: Store, i: nat, attr: Attr): Store {
    if i < |l.slots| && l.slots[i].Used? then
      l.(slots := l.slots[i := Used(l.slots[i].rec.(attr := attr))])
    else l
  }

  function SetPilotId(l: Store, i: nat, id: RecordId): Store {
    if i < |l.slots| && l.slots[i].Used? then
      l.(slots := l.slots[i := Used(l.slots[i].rec.(id := id))])
    else l
  }

  // The device record goes to the archive; its local counterpart, if any, goes away.
  function ArchiveRemote(l: Store, at: Option<nat>, remote: PilotRecord): Store {
    Store(if at.Some? && at.value < |l.slots| then l.slots[at.value := Vacant] else l.slots,
          l.archive + [ArchiveEntry(remote.id, remote.payload)])
  }

  function ArchiveLocal(l: Store, i: nat): Store {
    if i < |l.slots| && l.slots[i].Used? then
      Store(l.slots[i := Vacant],
            l.archive + [ArchiveEntry(l.slots[i].rec.id, l.slots[i].rec.payload)])
    else l
  }

  function Purge(slots: seq<Slot>): seq<Slot> {
    if slots == [] then []
    else if slots[0].Vacant? || slots[0].rec.attr.Deleted? then Purge(slots[1..])
    else [slots[0]] + Purge(slots[1..])
  }

  /* ----- One record ----- */

  // standard_abs_add_to_pilot: the local record is marked clean before the write.
  function SendLocal(s: State, i: nat): State {
    if i < |s.local.slots| && s.local.slots[i].Used? then
      var rec := s.local.slots[i].rec;
      var given := AssignedId(s.device, rec.id);
      State(WriteRecord(s.device, rec.id, rec.payload), SetStatus(s.local, i, Nothing),
            if given.Some? then [given.value] + s.ignore else s.ignore)
    else s
  }

  function SentId(s: State, i: nat): RecordId {
    if i < |s.local.slots| && s.local.slots[i].Used? then
      var given := AssignedId(s.device, s.local.slots[i].rec.id);
      if given.Some? then given.value else 0
    else 0
  }

  // standard_abs_delete_from_pilot: the identifier is ignored from now on even
  // when the device reports an error.
  function DeleteFromPilot(s: State, id: RecordId): State {
    s.(device := DeleteRecord(s.device, id), ignore := [id] + s.ignore)
  }

  // The building blocks of the decision table.
  datatype Effect = Send | Keep | ArchiveDevice | ArchivePC | Erase | MarkClean | MarkDeleted

  predicate Permitted(e: Effect, dir: Direction) {
    if e.Send? || e.Erase? then dir.toRemote else dir.toLocal
  }

  // What the nested switches of standard_abs_sync_record do, in order, for a
  // local record and its device counterpart.
  function Decide(loc: LocalRecord, remote: PilotRecord): seq<Effect> {
    var differ := loc.payload != remote.payload;
    if remote.archived then
      match loc.attr
      case Modified =>
        if remote.attr.Modified? then (if differ then [Send, Keep] else [ArchiveDevice, Erase])
        else [Send]
      case Nothing => [ArchiveDevice]
      case Deleted => [ArchiveDevice]
      case _ => []
    else
      match remote.attr
      case Modified =>
        (match loc.attr
         case Modified =>
           if differ then (if loc.archived then [Keep, Send] else [Send, Keep])
           else if loc.archived then [ArchivePC, Erase] else [MarkClean]
         case Nothing => [Keep]
         case Deleted => [Keep]
         case _ => [])
      case Deleted =>
        if loc.archived then [ArchivePC, Erase] else
        (match loc.attr
         case Modified => [Send]
         case Nothing => [Erase, MarkDeleted]
         case _ => [])
      case Nothing =>
        if loc.archived then [ArchivePC, Erase] else
        (match loc.attr
         case Deleted => [Erase, MarkDeleted]
         case Modified => [Send]
         case _ => [])
      case _ => []
  }

  function Apply(s: State, i: nat, remote: PilotRecord, e: Effect): State {
    match e
    case Send => SendLocal(s, i)
    case Keep => s.(local := StoreRemote(s.local, remote))
    case ArchiveDevice => s.(local := ArchiveRemote(s.local, Some(i), remote))
    case ArchivePC => s.(local := ArchiveLocal(s.local, i))
    case Erase => DeleteFromPilot(s, remote.id)
    case MarkClean => s.(local := SetStatus(s.local, i, Nothing))
    case MarkDeleted => s.(local := SetStatus(s.local, i, Deleted))
  }

  function ApplyAll(s: State, i: nat, remote: PilotRecord, es: seq<Effect>, dir: Direction): State
    decreases |es|
  {
    if es == [] then s
    else ApplyAll(if Permitted(es[0], dir) then Apply(s, i, remote, es[0]) else s,
                  i, remote, es[1..], dir)
  }

  // No local record matches the device record.
  function Unmatched(s: State, remote: PilotRecord, dir: Direction): State {
    if !dir.toLocal then s
    else if remote.archived then s.(local := ArchiveRemote(s.local, None, remote))
    else
      var stored := StoreRemote(s.local, remote);
      var at := FindLocal(stored.slots, remote.id);
      s.(local := if at.Some? then SetStatus(stored, at.value, Nothing) else stored)
  }

  // standard_abs_sync_record called with a device record only.
  function SyncRemote(s: State, remote: PilotRecord, dir: Direction): State {
    if remote.id in s.ignore then s
    else
      var at := FindLocal(s.local.slots, remote.id);
      if at.None? then Unmatched(s, remote, dir)
      else ApplyAll(s, at.value, remote, Decide(s.local.slots[at.value].rec, remote), dir)
  }

  // standard_abs_sync_record called with a local record only.
  function SyncLocal(s: State, i: nat, dir: Direction): State
    requires i < |s.local.slots| && s.local.slots[i].Used?
  {
    var rec := s.local.slots[i].rec;
    if rec.id in s.ignore then s
    else
      var remote := ReadById(s.device, rec.id);
      ApplyAll(s, i, remote, Decide(rec, remote), dir)
  }

  /* ----- Passes over all records ----- */

  // Which device records a pass visits: every one (slow sync), those the device
  // reports as changed (fast sync), or those decoded as modified (merge to local).
  datatype Scan = Every | Changed | ModifiedOnly

  predicate Visits(scan: Scan, d: DeviceRecord) {
    match scan
    case Every => true
    case Changed => Flagged(d)
    case ModifiedOnly => ComputeAttr(d).attr.Modified?
  }

  // The slots a cursor over (flag, not archived) stops at.
  predicate Selected(slot: Slot, flag: Attr) {
    slot.Used? && slot.rec.attr == flag && !slot.rec.archived
  }

  // The passes run over the positions that exist when they start; SyncSteps
  // shows that no step of a pass adds or removes one of them.
  function RemotePass(s: State, k: nat, n: nat, scan: Scan, dir: Direction): State
    requires k <= n
    decreases n - k
  {
    if k == n || n > |s.device.records| then s
    else
      var d := s.device.records[k];
      RemotePass(if Visits(scan, d) then SyncRemote(s, ComputeAttr(d), dir) else s,
                 k + 1, n, scan, dir)
  }

  function LocalPass(s: State, k: nat, n: nat, flag: Attr, dir: Direction): State
    requires k <= n
    decreases n - k
  {
    if k == n || n > |s.local.slots| then s
    else LocalPass(if Selected(s.local.slots[k], flag) then SyncLocal(s, k, dir) else s,
                   k + 1, n, flag, dir)
  }

  // Sends one new record and gives it the identifier the device assigned, or 0.
  function InstallNew(s: State, i: nat): State {
    var sent := SendLocal(s, i);
    sent.(local := SetPilotId(sent.local, i, SentId(s, i)))
  }

  function NewPass(s: State, k: nat, n: nat): State
    requires k <= n
    decreases n - k
  {
    if k == n || n > |s.local.slots| then s
    else NewPass(if Selected(s.local.slots[k], New) then InstallNew(s, k) else s, k + 1, n)
  }

  /* ----- Whole operations ----- */

  function DevicePass(s: State, scan: Scan, dir: Direction): State {
    RemotePass(s, 0, |s.device.records|, scan, dir)
  }

  function FlagPass(s: State, flag: Attr, dir: Direction): State {
    LocalPass(s, 0, |s.local.slots|, flag, dir)
  }

  function AddPass(s: State): State {
    NewPass(s, 0, |s.local.slots|)
  }

  // standard_abs_merge_to_remote
  function MergeToRemote(s: State, dir: Direction): State {
    FlagPass(if dir.toRemote then AddPass(s) else s, Modified, dir)
  }

  // standard_abs_close_db_and_purge_local after a successful run
  function Close(s: State): State {
    s.(device := s.device.(records := ResetFlags(CleanUp(s.device.records))),
       local := s.local.(slots := Purge(s.local.slots)))
  }

  // The two-way synchronisation up to, and including, the close.
  function Reconcile(s: State, fast: bool): State {
    FlagPass(MergeToRemote(DevicePass(s, if fast then Changed else Every, BothWays), BothWays),
             Deleted, BothWays)
  }

  function Synchronized(s: State, fast: bool): State {
    Close(Reconcile(s, fast))
  }
}
