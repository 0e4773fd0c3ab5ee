// One identifier at a time: what a synchronisation does to the device record,
// the local record and the archive entries that share an identifier depends on
// nothing else, and this module proves it for every step and every pass.
module SyncCells {
  import opened Records
  import opened SyncState

  // Everything a state holds under one identifier; `hits` counts the accepted
  // writes and the delete requests the device has seen for it.
  datatype Cell = Cell(
    dev: Option<DeviceRecord>, loc: Option<LocalRecord>, archived: seq<Payload>, hits: nat)

  function ArchivedFor(entries: seq<ArchiveEntry>, id: RecordId): seq<Payload> {
    if entries == [] then []
    else
      var last := entries[|entries| - 1];
      ArchivedFor(entries[..|entries| - 1], id) + if last.id == id then [last.payload] else []
  }

  ghost function CellOf(s: State, id: RecordId): Cell {
    Cell(DeviceAt(s.device.records, id), LocalAt(s.local.slots, id),
         ArchivedFor(s.local.archive, id), multiset(s.device.journal)[id])
  }

  predicate Accepts(s: State, id: RecordId) {
    id !in s.device.rejects
  }

  ghost predicate ValidDevice(d: Device) {
    && 0 < d.nextId
    && DistinctDevice(d.records)
    && (forall i :: 0 <= i < |d.records| ==> 0 < d.records[i].id < d.nextId)
    && (forall x :: x in d.journal ==> x < d.nextId)
  }

  ghost predicate ValidLocal(slots: seq<Slot>, d: Device) {
    && DistinctLocal(slots)
    && (forall i :: 0 <= i < |slots| && slots[i].Used? ==> slots[i].rec.id < d.nextId)
  }

  // What holds of every state between two steps: identifiers handed out so far
  // are below the device's seed, and the ignore list is the device's journal.
  ghost predicate Valid(s: State) {
    && ValidDevice(s.device)
    && ValidLocal(s.local.slots, s.device)
    && multiset(s.ignore) == multiset(s.device.journal)
  }

  /* ----- The same operations on a cell ----- */

  function SendCell(c: Cell, accepts: bool): Cell {
    if c.loc.None? then c
    else
      var sent := c.(loc := Some(c.loc.value.(attr := Nothing)));
      if accepts then sent.(dev := Some(Written(c.loc.value.id, c.loc.value.payload)), hits := c.hits + 1)
      else sent
  }

  function MarkCell(c: Cell, attr: Attr): Cell {
    if c.loc.None? then c else c.(loc := Some(c.loc.value.(attr := attr)))
  }

  function ApplyCell(c: Cell, remote: PilotRecord, e: Effect, accepts: bool): Cell {
    match e
    case Send => SendCell(c, accepts)
    case Keep => c.(loc := Some(Stored(remote)))
    case ArchiveDevice => c.(loc := None, archived := c.archived + [remote.payload])
    case ArchivePC =>
      if c.loc.None? then c else c.(loc := None, archived := c.archived + [c.loc.value.payload])
    case Erase =>
      c.(dev := if c.dev.Some? then Some(c.dev.value.(deleted := true)) else None, hits := c.hits + 1)
    case MarkClean => MarkCell(c, Nothing)
    case MarkDeleted => MarkCell(c, Deleted)
  }

  function ApplyAllCell(c: Cell, remote: PilotRecord, es: seq<Effect>, dir: Direction, accepts: bool): Cell
    decreases |es|
  {
    if es == [] then c
    else ApplyAllCell(if Permitted(es[0], dir) then ApplyCell(c, remote, es[0], accepts) else c,
                      remote, es[1..], dir, accepts)
  }

  function UnmatchedCell(c: Cell, remote: PilotRecord, dir: Direction): Cell {
    if !dir.toLocal then c
    else if remote.archived then c.(archived := c.archived + [remote.payload])
    else c.(loc := Some(Stored(remote)))
  }

  // What a device pass does under one identifier.
  function RemoteVisit(c: Cell, scan: Scan, dir: Direction, accepts: bool): Cell {
    if c.dev.None? || !Visits(scan, c.dev.value) || c.hits > 0 then c
    else
      var remote := ComputeAttr(c.dev.value);
      if c.loc.None? then UnmatchedCell(c, remote, dir)
      else ApplyAllCell(c, remote, Decide(c.loc.value, remote), dir, accepts)
  }

  predicate SelectedCell(c: Cell, flag: Attr) {
    c.loc.Some? && Selected(Used(c.loc.value), flag)
  }

  // What a local pass over modified or deleted records does under one identifier.
  function LocalVisit(c: Cell, flag: Attr, dir: Direction, accepts: bool): Cell {
    if !SelectedCell(c, flag) || c.hits > 0 then c
    else
      var remote := if c.dev.Some? then ComputeAttr(c.dev.value) else Unread(c.loc.value.id);
      ApplyAllCell(c, remote, Decide(c.loc.value, remote), dir, accepts)
  }

  // The pass over new records: one whose write is refused is left without its
  // identifier, so it is no longer found under it.
  function NewVisit(c: Cell, accepts: bool): Cell {
    if !SelectedCell(c, New) then c
    else if accepts then SendCell(c, true)
    else c.(loc := None)
  }

  function CloseCell(c: Cell): Cell {
    c.(dev := if c.dev.Some? && !c.dev.value.deleted && !c.dev.value.archived
              then Some(c.dev.value.(dirty := false)) else None,
       loc := if c.loc.Some? && !c.loc.value.attr.Deleted? then c.loc else None)
  }

  function MergeCell(c: Cell, dir: Direction, accepts: bool): Cell {
    LocalVisit(if dir.toRemote then NewVisit(c, accepts) else c, Modified, dir, accepts)
  }

  function ReconcileCell(c: Cell, fast: bool, accepts: bool): Cell {
    LocalVisit(
      MergeCell(RemoteVisit(c, if fast then Changed else Every, BothWays, accepts), BothWays, accepts),
      Deleted, BothWays, accepts)
  }

  // A whole two-way synchronisation under one identifier.
  function SyncCell(c: Cell, fast: bool, accepts: bool): Cell {
    CloseCell(ReconcileCell(c, fast, accepts))
  }

  /* ----- Lookups after an update ----- */

  lemma DeviceAtIs(ds: seq<DeviceRecord>, i: nat)
    requires DistinctDevice(ds) && i < |ds|
    ensures DeviceAt(ds, ds[i].id) == Some(ds[i])
  {
    var at := FindDevice(ds, ds[i].id);
    assert at.Some?;
  }

  lemma LocalAtIs(slots: seq<Slot>, i: nat)
    requires DistinctLocal(slots) && i < |slots| && slots[i].Used? && slots[i].rec.id != 0
    ensures LocalAt(slots, slots[i].rec.id) == Some(slots[i].rec)
    ensures FindLocal(slots, slots[i].rec.id) == Some(i)
  {
    var at := FindLocal(slots, slots[i].rec.id);
    assert HasId(slots[i], slots[i].rec.id);
    assert at.Some? && (at.value < i || at.value == i);
  }

  lemma DeviceAfterWrite(ds: seq<DeviceRecord>, r: DeviceRecord, id: RecordId)
    requires DistinctDevice(ds)
    ensures var at := FindDevice(ds, r.id);
      var ds' := if at.Some? then ds[at.value := r] else ds + [r];
      && DistinctDevice(ds') && DeviceAt(ds', id) == (if id == r.id then Some(r) else DeviceAt(ds, id))
      && |ds'| == |ds| + (if at.Some? then 0 else 1)
      && (forall j :: 0 <= j < |ds| ==> ds'[j].id == ds[j].id && (ds[j].id != r.id ==> ds'[j] == ds[j]))
      && (at.None? ==> ds'[|ds|] == r)
  {
    var at := FindDevice(ds, r.id);
    var ds' := if at.Some? then ds[at.value := r] else ds + [r];
    var k := if at.Some? then at.value else |ds|;
    assert ds'[k] == r;
    assert forall j :: 0 <= j < |ds| && j != k ==> ds'[j] == ds[j];
    var now := FindDevice(ds', id);
    var was := FindDevice(ds, id);
    if id == r.id {
      assert now.Some?;
    } else if was.Some? {
      assert ds'[was.value] == ds[was.value];
      assert now.Some?;
    }
  }

  // Replacing the record at a position keeps every other lookup.
  lemma LocalAfterUpdate(slots: seq<Slot>, i: nat, slot: Slot, id: RecordId)
    requires DistinctLocal(slots) && i < |slots| && slots[i].Used? && id != 0
    requires slot.Vacant? || slot.rec.id == slots[i].rec.id
    ensures DistinctLocal(slots[i := slot])
    ensures LocalAt(slots[i := slot], id) ==
            if id != slots[i].rec.id then LocalAt(slots, id)
            else if slot.Used? then Some(slot.rec) else None
  {
    var slots' := slots[i := slot];
    assert forall j :: 0 <= j < |slots| && j != i ==> slots'[j] == slots[j];
    var was := FindLocal(slots, id);
    if id == slots[i].rec.id {
      if slot.Used? {
        assert HasId(slots'[i], id);
      }
    } else if was.Some? {
      assert HasId(slots'[was.value], id);
    }
  }

  lemma LocalAfterAppend(slots: seq<Slot>, rec: LocalRecord, id: RecordId)
    requires DistinctLocal(slots) && FindLocal(slots, rec.id).None? && id != 0
    ensures DistinctLocal(slots + [Used(rec)])
    ensures LocalAt(slots + [Used(rec)], id) == if id == rec.id then Some(rec) else LocalAt(slots, id)
  {
    var slots' := slots + [Used(rec)];
    forall j | 0 <= j < |slots|
      ensures slots'[j] == slots[j] && !HasId(slots[j], rec.id)
    {
    }
    assert slots'[|slots|] == Used(rec);
    var was := FindLocal(slots, id);
    if id == rec.id {
      assert HasId(slots'[|slots|], id);
    } else if was.Some? {
      assert HasId(slots'[was.value], id);
    }
  }

  lemma ArchivedAfter(entries: seq<ArchiveEntry>, e: ArchiveEntry, id: RecordId)
    ensures ArchivedFor(entries + [e], id) ==
            ArchivedFor(entries, id) + if e.id == id then [e.payload] else []
  {
    assert (entries + [e])[..|entries|] == entries;
  }
}
