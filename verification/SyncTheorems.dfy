// What a two-way synchronisation does to the records under one identifier:
// which edits survive, when the two sides end up agreeing, when the fast form
// gives the slow form's result, how often the device is touched. Every
// statement is exact: the condition that decides it can be read off the two
// records before the run.
module SyncTheorems {
  import opened Records
  import opened SyncState
  import opened SyncCells

  // A cell of identifier id before a run: the records carry the identifier and
  // the device was not touched yet.
  predicate Fresh(c: Cell, id: RecordId) {
    && id != 0 && c.hits == 0
    && (c.dev.Some? ==> c.dev.value.id == id)
    && (c.loc.Some? ==> c.loc.value.id == id)
  }

  // A decision lists at most two effects.
  function Twice(c: Cell, remote: PilotRecord, es: seq<Effect>, accepts: bool): Cell {
    var c1 := if |es| == 0 then c else ApplyCell(c, remote, es[0], accepts);
    if |es| < 2 then c1 else ApplyCell(c1, remote, es[1], accepts)
  }

  lemma TwoEffects(c: Cell, remote: PilotRecord, es: seq<Effect>, accepts: bool)
    requires |es| <= 2
    ensures ApplyAllCell(c, remote, es, BothWays, accepts) == Twice(c, remote, es, accepts)
    decreases |es|
  {
    if |es| == 1 {
      assert es[1..] == [];
    } else if |es| == 2 {
      assert es[1..] == [es[1]];
      TwoEffects(ApplyCell(c, remote, es[0], accepts), remote, es[1..], accepts);
    }
  }

  function Counterpart(c: Cell): PilotRecord
    requires c.loc.Some?
  {
    if c.dev.Some? then ComputeAttr(c.dev.value) else Unread(c.loc.value.id)
  }

  // A stop at a cell with a local record.
  function Stop(c: Cell, accepts: bool): Cell
    requires c.loc.Some?
  {
    Twice(c, Counterpart(c), Decide(c.loc.value, Counterpart(c)), accepts)
  }

  lemma DeviceStop(c: Cell, scan: Scan, accepts: bool)
    ensures RemoteVisit(c, scan, BothWays, accepts) ==
            if c.dev.None? || !Visits(scan, c.dev.value) || c.hits > 0 then c
            else if c.loc.None? then UnmatchedCell(c, ComputeAttr(c.dev.value), BothWays)
            else Stop(c, accepts)
  {
    if c.dev.Some? && c.loc.Some? {
      TwoEffects(c, Counterpart(c), Decide(c.loc.value, Counterpart(c)), accepts);
    }
  }

  lemma LocalStop(c: Cell, flag: Attr, accepts: bool)
    ensures LocalVisit(c, flag, BothWays, accepts) ==
            if !SelectedCell(c, flag) || c.hits > 0 then c else Stop(c, accepts)
  {
    if c.loc.Some? {
      TwoEffects(c, Counterpart(c), Decide(c.loc.value, Counterpart(c)), accepts);
    }
  }

  // After its stop a cell has nothing left for the passes that follow.
  lemma StopSettles(c: Cell, id: RecordId, accepts: bool)
    requires Fresh(c, id) && c.loc.Some? && !SelectedCell(c, New)
    ensures var d := Stop(c, accepts);
      && d.hits <= 1 && !SelectedCell(d, New) && !SelectedCell(d, Modified)
      && (SelectedCell(d, Deleted) && d.hits == 0 ==> Stop(d, accepts) == d)
  {
  }

  // Of the four stops, only one does anything: where the records of an
  // identifier are decided depends on the records at the start alone.
  function Decided(c: Cell, fast: bool, accepts: bool): Cell {
    if SelectedCell(c, New) then NewVisit(c, accepts)
    else if c.loc.None? then
      if c.dev.None? || (fast && !Flagged(c.dev.value)) then c
      else UnmatchedCell(c, ComputeAttr(c.dev.value), BothWays)
    else if (c.dev.Some? && (Flagged(c.dev.value) || !fast)) || SelectedCell(c, Modified)
            || SelectedCell(c, Deleted) then
      Stop(c, accepts)
    else c
  }

  lemma DecidedOnce(c: Cell, id: RecordId, fast: bool, accepts: bool)
    requires Fresh(c, id)
    ensures SyncCell(c, fast, accepts).hits <= 1
    ensures SyncCell(c, fast, accepts) == CloseCell(Decided(c, fast, accepts))
  {
    var scan := if fast then Changed else Every;
    DeviceStop(c, scan, accepts);
    var c1 := RemoteVisit(c, scan, BothWays, accepts);
    var c2 := NewVisit(c1, accepts);
    LocalStop(c2, Modified, accepts);
    var c3 := LocalVisit(c2, Modified, BothWays, accepts);
    LocalStop(c3, Deleted, accepts);
    if SelectedCell(c, New) {
      NewIsOnlySent(c, id, scan, accepts);
    } else if c.loc.Some? {
      StopSettles(c, id, accepts);
    }
  }

  lemma NewIsOnlySent(c: Cell, id: RecordId, scan: Scan, accepts: bool)
    requires Fresh(c, id) && SelectedCell(c, New)
    ensures RemoteVisit(c, scan, BothWays, accepts) == c
  {
  }

  /* ----- Edits ----- */

  predicate DeviceEdit(c: Cell) {
    c.dev.Some? && c.dev.value.dirty && !c.dev.value.deleted
  }

  predicate LocalEdit(c: Cell) {
    c.loc.Some? && (c.loc.value.attr.New? || c.loc.value.attr.Modified?)
  }

  // A new PC record whose write the device refuses: it stays on the PC, but
  // without its identifier.
  predicate Unhitched(c: Cell, accepts: bool) {
    SelectedCell(c, New) && !accepts
  }

  // The payload is still on the device or on the PC, or was archived by the run.
  predicate Survives(p: Payload, before: Cell, after: Cell, accepts: bool) {
    || (after.dev.Some? && after.dev.value.payload == p)
    || (after.loc.Some? && after.loc.value.payload == p)
    || (Unhitched(before, accepts) && before.loc.value.payload == p)
    || (|before.archived| <= |after.archived| && p in after.archived[|before.archived|..])
  }

  // Three situations lose an edit. A conflict on a record archived on the PC is
  // stored before it is sent, so the PC's version is overwritten first. A
  // conflict whose write the device refuses overwrites the PC's version too.
  // And a changed device record whose identifier a new (or, when the device
  // record is archived, a pending) PC record carries is replaced or dropped.
  predicate LosesEdit(c: Cell, accepts: bool) {
    && DeviceEdit(c) && c.loc.Some? && c.loc.value.payload != c.dev.value.payload
    && match c.loc.value.attr
       case Modified => !accepts || (c.loc.value.archived && !c.dev.value.archived)
       case New => (accepts && !c.loc.value.archived) || c.dev.value.archived
       case Pending => c.dev.value.archived
       case _ => false
  }

  predicate EditsKept(before: Cell, after: Cell, accepts: bool) {
    && (DeviceEdit(before) ==> Survives(before.dev.value.payload, before, after, accepts))
    && (LocalEdit(before) ==> Survives(before.loc.value.payload, before, after, accepts))
  }

  lemma EditsSurviveExactly(c: Cell, id: RecordId, fast: bool, accepts: bool)
    requires Fresh(c, id)
    ensures EditsKept(c, SyncCell(c, fast, accepts), accepts) <==> !LosesEdit(c, accepts)
  {
    DecidedOnce(c, id, fast, accepts);
    if c.dev.Some? && c.loc.Some? && !SelectedCell(c, New) {
      if c.dev.value.archived {
        ArchivedEdits(c, id, fast, accepts);
      } else {
        LiveEdits(c, id, fast, accepts);
      }
    }
  }

  lemma ArchivedEdits(c: Cell, id: RecordId, fast: bool, accepts: bool)
    requires Fresh(c, id) && c.loc.Some? && !SelectedCell(c, New)
    requires c.dev.Some? && c.dev.value.archived
    ensures EditsKept(c, CloseCell(Decided(c, fast, accepts)), accepts) <==> !LosesEdit(c, accepts)
  {
  }

  lemma LiveEdits(c: Cell, id: RecordId, fast: bool, accepts: bool)
    requires Fresh(c, id) && c.loc.Some? && !SelectedCell(c, New)
    requires c.dev.Some? && !c.dev.value.archived
    ensures EditsKept(c, CloseCell(Decided(c, fast, accepts)), accepts) <==> !LosesEdit(c, accepts)
  {
  }

  /* ----- When the device is written or deleted on ----- */

  // A new PC record is written if the device accepts it. Otherwise: a modified one
  // against anything but the same edit, if accepted; and the device's record is
  // deleted for the same edit of a record archived on either side; for an archived
  // PC record, if it is deleted on the device, or unchanged there and the run slow;
  // for one deleted on the PC and unchanged on the device; and, once more, for one
  // deleted on the device and unchanged on the PC.
  predicate Touched(c: Cell, fast: bool, accepts: bool) {
    && c.loc.Some?
    && var l := c.loc.value;
       var same := c.dev.Some? && c.dev.value.payload == l.payload;
       if SelectedCell(c, New) then accepts
       else if c.dev.Some? && c.dev.value.archived then l.attr.Modified? && (accepts || (DeviceEdit(c) && same))
       else if DeviceEdit(c) then l.attr.Modified? && (if same then l.archived else accepts)
       else if c.dev.Some? && c.dev.value.deleted then
         l.archived || l.attr.Nothing? || (l.attr.Modified? && accepts)
       else if l.archived then c.dev.Some? && !fast
       else l.attr.Deleted? || (l.attr.Modified? && accepts)
  }

  lemma TouchedExactly(c: Cell, id: RecordId, fast: bool, accepts: bool)
    requires Fresh(c, id)
    ensures SyncCell(c, fast, accepts).hits == if Touched(c, fast, accepts) then 1 else 0
  {
    DecidedOnce(c, id, fast, accepts);
    if c.loc.Some? && !SelectedCell(c, New) {
      if c.dev.Some? && Flagged(c.dev.value) {
        ChangedTouched(c, id, fast, accepts);
      } else {
        CalmTouched(c, id, fast, accepts);
      }
    }
  }

  lemma ChangedTouched(c: Cell, id: RecordId, fast: bool, accepts: bool)
    requires Fresh(c, id) && c.loc.Some? && !SelectedCell(c, New)
    requires c.dev.Some? && Flagged(c.dev.value)
    ensures Decided(c, fast, accepts).hits == if Touched(c, fast, accepts) then 1 else 0
  {
  }

  lemma CalmTouched(c: Cell, id: RecordId, fast: bool, accepts: bool)
    requires Fresh(c, id) && c.loc.Some? && !SelectedCell(c, New)
    requires c.dev.None? || !Flagged(c.dev.value)
    ensures Decided(c, fast, accepts).hits == if Touched(c, fast, accepts) then 1 else 0
  {
  }

  /* ----- Convergence ----- */

  predicate Agree(c: Cell) {
    || (c.dev.None? && c.loc.None?)
    || (&& c.dev.Some? && c.loc.Some?
        && c.dev.value.payload == c.loc.value.payload
        && !Flagged(c.dev.value) && c.loc.value.attr.Nothing? && !c.loc.value.archived)
  }

  // Both sides were edited differently and now hold each other's version.
  predicate Swapped(before: Cell, after: Cell) {
    && DeviceEdit(before) && before.loc.Some? && before.loc.value.attr.Modified?
    && before.dev.value.payload != before.loc.value.payload
    && after.dev.Some? && after.dev.value.payload == before.loc.value.payload
    && after.loc.Some? && after.loc.value.payload == before.dev.value.payload
    && !Flagged(after.dev.value) && after.loc.value.attr.Nothing? && !after.loc.value.archived
  }

  // What the two records must look like for a run to bring them together.
  predicate Mendable(c: Cell, fast: bool, accepts: bool) {
    if c.loc.None? then
      || c.dev.None?
      || c.dev.value.archived
      || (!c.dev.value.deleted && (c.dev.value.dirty || !fast))
    else
      var l := c.loc.value;
      var same := c.dev.Some? && c.dev.value.payload == l.payload;
      if l.archived then
        if c.dev.None? then l.attr.Deleted?
        else if c.dev.value.archived then
          l.attr.Nothing? || l.attr.Deleted? || (l.attr.Modified? && DeviceEdit(c) && (accepts || same))
        else if c.dev.value.deleted then true
        else if c.dev.value.dirty then !l.attr.New? && !l.attr.Pending?
        else !fast
      else
        match l.attr
        case Deleted => true
        case New => accepts || c.dev.None? || c.dev.value.archived || c.dev.value.deleted
        case Pending => false
        case Nothing => c.dev.Some? && (Flagged(c.dev.value) || same)
        case Modified =>
          || accepts
          || (c.dev.Some? && !c.dev.value.archived && !c.dev.value.deleted && (c.dev.value.dirty || same))
          || (c.dev.Some? && c.dev.value.archived && DeviceEdit(c) && same)
  }

  lemma ConvergesExactly(c: Cell, id: RecordId, fast: bool, accepts: bool)
    requires Fresh(c, id)
    ensures var after := SyncCell(c, fast, accepts);
      Mendable(c, fast, accepts) <==> (Agree(after) || Swapped(c, after))
  {
    DecidedOnce(c, id, fast, accepts);
    if c.loc.Some? && !SelectedCell(c, New) {
      if c.dev.None? || !Flagged(c.dev.value) {
        CalmConverges(c, id, fast, accepts);
      } else if c.dev.value.archived {
        ArchivedConverges(c, id, fast, accepts);
      } else {
        ChangedConverges(c, id, fast, accepts);
      }
    }
  }

  lemma CalmConverges(c: Cell, id: RecordId, fast: bool, accepts: bool)
    requires Fresh(c, id) && c.loc.Some? && !SelectedCell(c, New)
    requires c.dev.None? || !Flagged(c.dev.value)
    ensures var after := CloseCell(Decided(c, fast, accepts));
      Mendable(c, fast, accepts) <==> (Agree(after) || Swapped(c, after))
  {
  }

  lemma ArchivedConverges(c: Cell, id: RecordId, fast: bool, accepts: bool)
    requires Fresh(c, id) && c.loc.Some? && !SelectedCell(c, New)
    requires c.dev.Some? && c.dev.value.archived
    ensures var after := CloseCell(Decided(c, fast, accepts));
      Mendable(c, fast, accepts) <==> (Agree(after) || Swapped(c, after))
  {
  }

  lemma ChangedConverges(c: Cell, id: RecordId, fast: bool, accepts: bool)
    requires Fresh(c, id) && c.loc.Some? && !SelectedCell(c, New)
    requires c.dev.Some? && !c.dev.value.archived && Flagged(c.dev.value)
    ensures var after := CloseCell(Decided(c, fast, accepts));
      Mendable(c, fast, accepts) <==> (Agree(after) || Swapped(c, after))
  {
  }

  /* ----- Fast against slow ----- */

  // A device record the fast form skips is one the slow form leaves alone.
  predicate FastSuffices(c: Cell) {
    c.dev.Some? && !Flagged(c.dev.value) ==> c.loc.Some? && !c.loc.value.archived
  }

  lemma FastIsSlowExactly(c: Cell, id: RecordId, accepts: bool)
    requires Fresh(c, id)
    ensures var quick, thorough := SyncCell(c, true, accepts), SyncCell(c, false, accepts);
      && (FastSuffices(c) <==> quick.dev == thorough.dev && quick.loc == thorough.loc)
      && (FastSuffices(c) ==> quick == thorough)
  {
    DecidedOnce(c, id, true, accepts);
    DecidedOnce(c, id, false, accepts);
  }

  /* ----- A second run ----- */

  // Four situations leave the slow form something to do again. The fast form
  // passed over a clean device record without a PC record, or with an archived
  // one. A changed device record has an archived PC record with a status no rule
  // speaks of. A refused new PC record lost its identifier, and the device has a
  // record under that. Or case 13 sent an archived PC record, which it leaves
  // archived.
  predicate Restless(c: Cell, fast: bool, accepts: bool) {
    && c.dev.Some?
    && var d := c.dev.value;
       || (Stays(d) && !d.dirty && fast && (c.loc.None? || c.loc.value.archived))
       || (Stays(d) && d.dirty && c.loc.Some? && c.loc.value.archived
           && (c.loc.value.attr.New? || c.loc.value.attr.Pending?))
       || (Stays(d) && Unhitched(c, accepts))
       || (&& d.archived && !DeviceEdit(c) && accepts
           && c.loc.Some? && c.loc.value.archived && c.loc.value.attr.Modified?)
  }

  // Nothing is marked, and what is archived on the PC only waits for its device record.
  predicate QuietCell(c: Cell) {
    && (c.dev.Some? ==> !Flagged(c.dev.value))
    && !SelectedCell(c, New) && !SelectedCell(c, Modified) && (c.loc.Some? ==> !c.loc.value.attr.Deleted?)
  }

  predicate SettledCell(c: Cell) {
    c.dev.Some? ==> c.loc.Some? && !c.loc.value.archived
  }

  lemma RunIsQuiet(c: Cell, id: RecordId, fast: bool, accepts: bool)
    requires Fresh(c, id)
    ensures var after := SyncCell(c, fast, accepts);
      && Fresh(after.(hits := 0), id) && QuietCell(after)
      && (SettledCell(after) <==> !Restless(c, fast, accepts))
  {
    DecidedOnce(c, id, fast, accepts);
    if c.loc.Some? && !SelectedCell(c, New) {
      if c.dev.None? || !Flagged(c.dev.value) {
        CalmIsQuiet(c, id, fast, accepts);
      } else if c.dev.value.archived {
        ArchivedIsQuiet(c, id, fast, accepts);
      } else {
        ChangedIsQuiet(c, id, fast, accepts);
      }
    }
  }

  lemma CalmIsQuiet(c: Cell, id: RecordId, fast: bool, accepts: bool)
    requires Fresh(c, id) && c.loc.Some? && !SelectedCell(c, New)
    requires c.dev.None? || !Flagged(c.dev.value)
    ensures var after := CloseCell(Decided(c, fast, accepts));
      && Fresh(after.(hits := 0), id) && QuietCell(after)
      && (SettledCell(after) <==> !Restless(c, fast, accepts))
  {
  }

  lemma ArchivedIsQuiet(c: Cell, id: RecordId, fast: bool, accepts: bool)
    requires Fresh(c, id) && c.loc.Some? && !SelectedCell(c, New)
    requires c.dev.Some? && c.dev.value.archived
    ensures var after := CloseCell(Decided(c, fast, accepts));
      && Fresh(after.(hits := 0), id) && QuietCell(after)
      && (SettledCell(after) <==> !Restless(c, fast, accepts))
  {
  }

  lemma ChangedIsQuiet(c: Cell, id: RecordId, fast: bool, accepts: bool)
    requires Fresh(c, id) && c.loc.Some? && !SelectedCell(c, New)
    requires c.dev.Some? && !c.dev.value.archived && Flagged(c.dev.value)
    ensures var after := CloseCell(Decided(c, fast, accepts));
      && Fresh(after.(hits := 0), id) && QuietCell(after)
      && (SettledCell(after) <==> !Restless(c, fast, accepts))
  {
  }

  // On a quiet cell the fast form does nothing, and the slow form exactly when
  // the cell is not settled.
  lemma QuietExactly(c: Cell, id: RecordId, fast: bool, accepts: bool)
    requires Fresh(c, id) && QuietCell(c)
    ensures SyncCell(c, fast, accepts) == c <==> fast || SettledCell(c)
  {
    DecidedOnce(c, id, fast, accepts);
  }

  // A second run changes the records of an identifier exactly when it is slow
  // and the first left something to do.
  lemma SecondRunExactly(c: Cell, id: RecordId, first: bool, second: bool, accepts: bool)
    requires Fresh(c, id)
    ensures var after := SyncCell(c, first, accepts).(hits := 0);
      SyncCell(after, second, accepts) == after <==> second || !Restless(c, first, accepts)
  {
    var after := SyncCell(c, first, accepts).(hits := 0);
    RunIsQuiet(c, id, first, accepts);
    QuietExactly(after, id, second, accepts);
  }
}
