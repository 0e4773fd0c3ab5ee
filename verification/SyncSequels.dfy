// A two-way run after a merge in a single direction. The close after a merge
// clears the device's dirty flags and drops the PC's deleted records, also those
// the merge did not carry over, so the run after it cannot mend every pair that a
// run instead of the merge would have.
module SyncSequels {
  import opened Records
  import opened SyncState
  import opened SyncCells
  import opened SyncSteps
  import opened SyncPasses
  import opened SyncRuns
  import opened SyncTheorems
  import opened SyncResults
  import opened SyncReruns
  import opened SyncMerges

  /* ----- One identifier ----- */

  // A merge to the device and its close, seen by a new conduit object.
  function PushCell(c: Cell, accepts: bool): Cell {
    CloseCell(MergeCell(c, ToRemote, accepts)).(hits := 0)
  }

  // A merge to the PC and its close.
  function PullCell(c: Cell, accepts: bool): Cell {
    CloseCell(RemoteVisit(c, ModifiedOnly, ToLocal, accepts)).(hits := 0)
  }

  // The device holds a record that the close keeps.
  predicate OnDevice(c: Cell) {
    c.dev.Some? && Stays(c.dev.value)
  }

  predicate SameContent(c: Cell) {
    c.dev.Some? && c.loc.Some? && c.dev.value.payload == c.loc.value.payload
  }

  // What the two records must look like for a merge to the device, and a run
  // after it, to bring them together.
  predicate MendableAfterPush(c: Cell, fast: bool, accepts: bool) {
    if c.loc.None? || c.loc.value.attr.Deleted? || Unhitched(c, accepts) then !OnDevice(c) || !fast
    else if c.loc.value.archived then OnDevice(c) && !fast
    else
      match c.loc.value.attr
      case New => true
      case Modified => accepts || (OnDevice(c) && SameContent(c))
      case Nothing => OnDevice(c) && SameContent(c)
      case _ => false
  }

  lemma PushThenSyncExactly(c: Cell, id: RecordId, fast: bool, accepts: bool)
    requires Fresh(c, id)
    ensures MendableAfterPush(c, fast, accepts) <==> Agree(SyncCell(PushCell(c, accepts), fast, accepts))
  {
    PushedIsFresh(c, id, accepts);
    ConvergesExactly(PushCell(c, accepts), id, fast, accepts);
    PushedMendable(c, id, fast, accepts);
  }

  lemma PushedIsFresh(c: Cell, id: RecordId, accepts: bool)
    requires Fresh(c, id)
    ensures Fresh(PushCell(c, accepts), id) && !DeviceEdit(PushCell(c, accepts))
  {
    Pushed(c, id, accepts);
  }

  // What the merge makes of the two records.
  lemma Pushed(c: Cell, id: RecordId, accepts: bool)
    requires Fresh(c, id)
    ensures MergeCell(c, ToRemote, accepts) ==
            if SelectedCell(c, New) then NewVisit(c, accepts)
            else if WrittenCell(c) then SendCell(c, accepts)
            else if SelectedCell(c, Modified) && c.dev.value.archived then ApplyCell(c, Unread(id), Erase, accepts)
            else c
  {
    if SelectedCell(c, Modified) {
      var remote := if c.dev.Some? then ComputeAttr(c.dev.value) else Unread(id);
      ToRemoteEffects(c, remote, Decide(c.loc.value, remote), accepts);
    }
  }

  lemma PushedMendable(c: Cell, id: RecordId, fast: bool, accepts: bool)
    requires Fresh(c, id)
    ensures Mendable(PushCell(c, accepts), fast, accepts) <==> MendableAfterPush(c, fast, accepts)
  {
    Pushed(c, id, accepts);
  }

  // The same for a merge to the PC.
  predicate MendableAfterPull(c: Cell, fast: bool, accepts: bool) {
    if DeviceEdit(c) then
      if c.loc.None? then true
      else
        var same, archived := SameContent(c), c.loc.value.archived;
        if c.dev.value.archived then
          match c.loc.value.attr
          case Modified => same
          case New => !archived
          case Pending => false
          case _ => true
        else
          match c.loc.value.attr
          case Modified => !(same && archived) || !fast
          case New => if archived then !fast else accepts
          case Pending => archived && !fast
          case _ => true
    else if OnDevice(c) then
      if c.loc.None? || c.loc.value.attr.Deleted? || c.loc.value.archived then !fast
      else
        match c.loc.value.attr
        case New => accepts
        case Nothing => SameContent(c)
        case Modified => accepts || SameContent(c)
        case _ => false
    else
      if c.loc.None? || c.loc.value.attr.Deleted? then true
      else if c.loc.value.archived then false
      else
        match c.loc.value.attr
        case New => true
        case Modified => accepts
        case _ => false
  }

  lemma PullThenSyncExactly(c: Cell, id: RecordId, fast: bool, accepts: bool)
    requires Fresh(c, id)
    ensures MendableAfterPull(c, fast, accepts) <==> Agree(SyncCell(PullCell(c, accepts), fast, accepts))
  {
    Pulled(c, id, accepts);
    ConvergesExactly(PullCell(c, accepts), id, fast, accepts);
    PulledMendable(c, id, fast, accepts);
  }

  // What the merge makes of the two records: the first effect of the decision
  // that concerns the PC is the only one.
  lemma Pulled(c: Cell, id: RecordId, accepts: bool)
    requires Fresh(c, id)
    ensures Fresh(PullCell(c, accepts), id) && !DeviceEdit(PullCell(c, accepts))
    ensures RemoteVisit(c, ModifiedOnly, ToLocal, accepts) ==
            if !DeviceEdit(c) then c
            else if c.loc.None? then UnmatchedCell(c, ComputeAttr(c.dev.value), ToLocal)
            else PulledOver(c)
  {
    if DeviceEdit(c) && c.loc.Some? {
      var remote := ComputeAttr(c.dev.value);
      ToLocalEffects(c, remote, Decide(c.loc.value, remote), accepts);
    }
  }

  function PulledOver(c: Cell): Cell
    requires c.dev.Some? && c.loc.Some?
  {
    OnlyLocal(c, ComputeAttr(c.dev.value), Decide(c.loc.value, ComputeAttr(c.dev.value)))
  }

  lemma PulledMendable(c: Cell, id: RecordId, fast: bool, accepts: bool)
    requires Fresh(c, id)
    ensures Mendable(PullCell(c, accepts), fast, accepts) <==> MendableAfterPull(c, fast, accepts)
  {
    Pulled(c, id, accepts);
  }
  /* ----- Whole databases ----- */

  // A merge and its close, and then a two-way run by a new conduit object.
  function PushedState(s: State): State {
    Reloaded(Close(MergeToRemote(s, ToRemote)))
  }

  function PulledState(s: State): State {
    Reloaded(Close(MergeToLocal(s, ToLocal)))
  }

  ghost predicate AgreesAt(s: State, id: RecordId) {
    Agree(CellOf(s, id))
  }

  ghost predicate MendableAfterPushAt(s: State, fast: bool, id: RecordId) {
    MendableAfterPush(CellOf(s, id), fast, Accepts(s, id))
  }

  ghost predicate MendableAfterPullAt(s: State, fast: bool, id: RecordId) {
    MendableAfterPull(CellOf(s, id), fast, Accepts(s, id))
  }

  // Under every identifier known before the merge, whatever the other records
  // are: after a merge to the device and a two-way run the sides agree exactly
  // when the pair allowed it.
  lemma PushThenSync(s: State, fast: bool, id: RecordId)
    requires Start(s) && 0 < id < s.device.nextId
    ensures AgreesAt(Synchronized(PushedState(s), fast), id) <==> MendableAfterPushAt(s, fast, id)
  {
    StartCell(s, id);
    MergeDecomposes(s, ToRemote, id);
    CloseStep(MergeToRemote(s, ToRemote), id);
    ReloadedCell(Close(MergeToRemote(s, ToRemote)), id);
    SynchronizeDecomposes(PushedState(s), fast, id);
    PushThenSyncExactly(CellOf(s, id), id, fast, Accepts(s, id));
  }

  // And after a merge to the PC.
  lemma PullThenSync(s: State, fast: bool, id: RecordId)
    requires Start(s) && 0 < id < s.device.nextId
    ensures AgreesAt(Synchronized(PulledState(s), fast), id) <==> MendableAfterPullAt(s, fast, id)
  {
    StartCell(s, id);
    DevicePassStep(s, ModifiedOnly, ToLocal, id);
    CloseStep(MergeToLocal(s, ToLocal), id);
    ReloadedCell(Close(MergeToLocal(s, ToLocal)), id);
    SynchronizeDecomposes(PulledState(s), fast, id);
    PullThenSyncExactly(CellOf(s, id), id, fast, Accepts(s, id));
  }
  // A record deleted on the PC only comes back: the merge to the device does not
  // delete it there, the close forgets that it was deleted, and the next slow run
  // stores it on the PC.
  lemma DeletionIsForgotten(s: State, id: RecordId)
    requires Start(s) && 0 < id < s.device.nextId && OnDevice(CellOf(s, id))
    requires LocalAt(s.local.slots, id).Some? && LocalAt(s.local.slots, id).value.attr.Deleted?
    ensures LocalAt(Synchronized(PushedState(s), false).local.slots, id) ==
            Some(LocalRecord(id, DeviceAt(s.device.records, id).value.payload, Nothing, false))
  {
    StartCell(s, id);
    MergeDecomposes(s, ToRemote, id);
    CloseStep(MergeToRemote(s, ToRemote), id);
    ReloadedCell(Close(MergeToRemote(s, ToRemote)), id);
    SynchronizeDecomposes(PushedState(s), false, id);
    ForgottenCell(CellOf(s, id), id, Accepts(s, id));
  }

  lemma ForgottenCell(c: Cell, id: RecordId, accepts: bool)
    requires Fresh(c, id) && OnDevice(c) && c.loc.Some? && c.loc.value.attr.Deleted?
    ensures SyncCell(PushCell(c, accepts), false, accepts).loc ==
            Some(LocalRecord(id, c.dev.value.payload, Nothing, false))
  {
    Pushed(c, id, accepts);
    DecidedOnce(PushCell(c, accepts), id, false, accepts);
  }
}
