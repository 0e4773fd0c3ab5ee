// Palm's 20-case table, as the conduit manual states it, and how far the engine
// follows it. The table is written here from the manual's wording: a state for
// each side, a row number, and what the row says must be left where.
module PalmTable {
  import opened Records
  import opened SyncState
  import opened SyncCells
  import opened SyncTheorems

  datatype PilotState = NoPilot | PilotSame | PilotChanged | PilotRemoved | PilotArchived | PilotChangedArchived
  datatype PCState = NoPC | PCSame | PCAdded | PCChanged | PCRemoved | PCArchived | PCChangedArchived

  // Which row applies; 0 where the table has none. Rows 9, 14 and 19 are for
  // identical changes, rows 10, 15 and 20 for different ones.
  function Row(pilot: PilotState, pc: PCState, identical: bool): nat {
    match (pilot, pc)
    case (PilotSame, NoPC) => 1
    case (PilotChanged, NoPC) => 1
    case (NoPilot, PCAdded) => 2
    case (PilotRemoved, PCSame) => 3
    case (PilotSame, PCRemoved) => 4
    case (PilotRemoved, PCChanged) => 5
    case (PilotChanged, PCRemoved) => 6
    case (PilotChanged, PCSame) => 7
    case (PilotSame, PCChanged) => 8
    case (PilotChanged, PCChanged) => if identical then 9 else 10
    case (PilotArchived, NoPC) => 11
    case (PilotChangedArchived, NoPC) => 11
    case (PilotArchived, PCSame) => 11
    case (PilotChangedArchived, PCSame) => 11
    case (PilotArchived, PCRemoved) => 12
    case (PilotChangedArchived, PCRemoved) => 12
    case (PilotArchived, PCChanged) => 13
    case (PilotChangedArchived, PCChanged) => if identical then 14 else 15
    case (NoPilot, PCArchived) => 16
    case (PilotSame, PCArchived) => 16
    case (NoPilot, PCChangedArchived) => 16
    case (PilotSame, PCChangedArchived) => 16
    case (PilotRemoved, PCArchived) => 17
    case (PilotRemoved, PCChangedArchived) => 17
    case (PilotChanged, PCArchived) => 18
    case (PilotChanged, PCChangedArchived) => if identical then 19 else 20
    case _ => 0
  }

  // What a row leaves on the device, on the PC and in the archive.
  datatype Outcome = Outcome(device: Option<Payload>, pc: Option<Payload>, archived: seq<Payload>)

  function RowOutcome(row: nat, p: Payload, q: Payload): Outcome {
    if row in {1, 6, 7, 18} then Outcome(Some(p), Some(p), [])
    else if row in {2, 5, 8, 13} then Outcome(Some(q), Some(q), [])
    else if row in {3, 4} then Outcome(None, None, [])
    else if row == 9 then Outcome(Some(p), Some(q), [])
    else if row in {10, 15, 20} then Outcome(Some(q), Some(p), [])
    else if row in {11, 12, 14} then Outcome(None, None, [p])
    else Outcome(None, None, [q])
  }

  function PilotStateOf(c: Cell): PilotState {
    if c.dev.None? then NoPilot
    else
      var d := ComputeAttr(c.dev.value);
      if d.archived then (if d.attr.Modified? then PilotChangedArchived else PilotArchived)
      else if d.attr.Deleted? then PilotRemoved
      else if d.attr.Modified? then PilotChanged
      else PilotSame
  }

  // The PC state of a record, or None for flags the table does not speak of.
  function PCStateOf(c: Cell): Option<PCState> {
    if c.loc.None? then Some(NoPC)
    else
      match c.loc.value.attr
      case Nothing => Some(if c.loc.value.archived then PCArchived else PCSame)
      case Modified => Some(if c.loc.value.archived then PCChangedArchived else PCChanged)
      case Deleted => if c.loc.value.archived then None else Some(PCRemoved)
      case New => if c.loc.value.archived then None else Some(PCAdded)
      case Pending => None
  }

  function PilotPayload(c: Cell): Payload {
    if c.dev.Some? then c.dev.value.payload else Payload(false, 0, [])
  }

  function PCPayload(c: Cell): Payload {
    if c.loc.Some? then c.loc.value.payload else Payload(false, 0, [])
  }

  function RowOf(c: Cell): nat {
    if PCStateOf(c).None? then 0
    else Row(PilotStateOf(c), PCStateOf(c).value, PilotPayload(c) == PCPayload(c))
  }

  // What a run left, read off the cells before and after it.
  function OutcomeOf(before: Cell, after: Cell): Outcome {
    Outcome(if after.dev.Some? then Some(after.dev.value.payload) else None,
            if after.loc.Some? then Some(after.loc.value.payload) else None,
            if |before.archived| <= |after.archived| then after.archived[|before.archived|..] else [])
  }

  // The engine departs from the table in row 20, where it stores before it
  // sends; in row 16 when the device has no record, where nothing looks at the
  // PC record; and, in the fast form, for unflagged device records in rows 1
  // and 16, which that form never visits.
  predicate Departs(c: Cell, fast: bool) {
    || RowOf(c) == 20
    || (RowOf(c) == 16 && (fast || c.dev.None?))
    || (RowOf(c) == 1 && fast && !Flagged(c.dev.value))
  }

  lemma FollowsTable(c: Cell, id: RecordId, fast: bool)
    requires Fresh(c, id) && RowOf(c) != 0
    ensures OutcomeOf(c, SyncCell(c, fast, true)) == RowOutcome(RowOf(c), PilotPayload(c), PCPayload(c))
            <==> !Departs(c, fast)
  {
    DecidedOnce(c, id, fast, true);
    if c.dev.None? || c.loc.None? {
      OneSided(c, id, fast);
    } else if c.dev.value.archived {
      PilotSideArchived(c, id, fast);
    } else if c.loc.value.archived {
      PCSideArchived(c, id, fast);
    } else {
      BothLive(c, id, fast);
    }
  }

  lemma OneSided(c: Cell, id: RecordId, fast: bool)
    requires Fresh(c, id) && RowOf(c) != 0 && (c.dev.None? || c.loc.None?)
    ensures OutcomeOf(c, CloseCell(Decided(c, fast, true))) == RowOutcome(RowOf(c), PilotPayload(c), PCPayload(c))
            <==> !Departs(c, fast)
  {
  }

  lemma PilotSideArchived(c: Cell, id: RecordId, fast: bool)
    requires Fresh(c, id) && RowOf(c) != 0 && c.loc.Some? && c.dev.Some? && c.dev.value.archived
    ensures OutcomeOf(c, CloseCell(Decided(c, fast, true))) == RowOutcome(RowOf(c), PilotPayload(c), PCPayload(c))
            <==> !Departs(c, fast)
  {
  }

  lemma PCSideArchived(c: Cell, id: RecordId, fast: bool)
    requires Fresh(c, id) && RowOf(c) != 0
    requires c.dev.Some? && c.loc.Some? && !c.dev.value.archived && c.loc.value.archived
    ensures OutcomeOf(c, CloseCell(Decided(c, fast, true))) == RowOutcome(RowOf(c), PilotPayload(c), PCPayload(c))
            <==> !Departs(c, fast)
  {
  }

  lemma BothLive(c: Cell, id: RecordId, fast: bool)
    requires Fresh(c, id) && RowOf(c) != 0
    requires c.dev.Some? && c.loc.Some? && !c.dev.value.archived && !c.loc.value.archived
    ensures OutcomeOf(c, CloseCell(Decided(c, fast, true))) == RowOutcome(RowOf(c), PilotPayload(c), PCPayload(c))
            <==> !Departs(c, fast)
  {
  }
}
