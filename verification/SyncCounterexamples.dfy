// Records on which a synchronisation does not do what one expects of it. The
// exact conditions are proved with the results; here each is shown to matter.
module SyncCounterexamples {
  import opened Records
  import opened SyncState
  import opened SyncCells
  import opened SyncRuns
  import opened SyncTheorems
  import opened SyncPasses
  import opened SyncStrays
  import opened SyncResults
  import opened SyncReruns
  import opened PalmTable
  import opened SyncCopies
  import opened SyncSequels

  const ONE := Payload(false, 0, [1])
  const TWO := Payload(false, 0, [2])

  // One record on the device, under identifier 1.
  function OnDeviceOnly(d: DeviceRecord): State {
    State(SyncState.Device.Device([d], 2, {}, []), Store([], []), [])
  }

  // One record on each side, under identifier 1.
  function Pair(d: DeviceRecord, l: LocalRecord, refused: set<RecordId>): State {
    State(SyncState.Device.Device([d], 2, refused, []), Store([Used(l)], []), [])
  }

  lemma PairCell(d: DeviceRecord, l: LocalRecord, refused: set<RecordId>)
    requires d.id == 1 == l.id
    ensures var s := Pair(d, l, refused);
      Start(s) && CellOf(s, 1) == Cell(Some(d), Some(l), [], 0)
  {
    var s := Pair(d, l, refused);
    assert s.device.records[0] == d && s.local.slots[0] == Used(l);
    DeviceAtIs(s.device.records, 0);
    LocalAtIs(s.local.slots, 0);
  }

  ghost predicate KeepsEditsOfPair(s: State, fast: bool) {
    EditsKeptAt(s, Synchronized(s, fast), 1)
  }

  // The device's version is stored over the PC's before that is sent.
  lemma ArchivedConflictLosesEdit(fast: bool)
    ensures !KeepsEditsOfPair(
              Pair(DeviceRecord(1, ONE, true, false, false), LocalRecord(1, TWO, Modified, true), {}), fast)
  {
    var d, l := DeviceRecord(1, ONE, true, false, false), LocalRecord(1, TWO, Modified, true);
    PairCell(d, l, {});
    EditsSurvive(Pair(d, l, {}), fast, 1);
  }

  // The PC's version is overwritten although the device refused it.
  lemma RefusedConflictLosesEdit(fast: bool)
    ensures !KeepsEditsOfPair(
              Pair(DeviceRecord(1, ONE, true, false, false), LocalRecord(1, TWO, Modified, false), {1}), fast)
  {
    var d, l := DeviceRecord(1, ONE, true, false, false), LocalRecord(1, TWO, Modified, false);
    PairCell(d, l, {1});
    EditsSurvive(Pair(d, l, {1}), fast, 1);
  }

  // A PC record that is new, but has an identifier, replaces the device's edit.
  lemma NewRecordReplacesEdit(fast: bool)
    ensures !KeepsEditsOfPair(
              Pair(DeviceRecord(1, ONE, true, false, false), LocalRecord(1, TWO, New, false), {}), fast)
  {
    var d, l := DeviceRecord(1, ONE, true, false, false), LocalRecord(1, TWO, New, false);
    PairCell(d, l, {});
    EditsSurvive(Pair(d, l, {}), fast, 1);
  }

  // Clean records that differ stay different.
  lemma CleanDifferenceStays(fast: bool)
    ensures var s := Pair(DeviceRecord(1, ONE, false, false, false), LocalRecord(1, TWO, Nothing, false), {});
      !ConvergedAt(s, Synchronized(s, fast), 1)
  {
    var d, l := DeviceRecord(1, ONE, false, false, false), LocalRecord(1, TWO, Nothing, false);
    var s := Pair(d, l, {});
    PairCell(d, l, {});
    assert !MendableAt(s, fast, 1);
    ConvergenceAt(s, fast, 1);
  }

  // A tombstone the PC knows nothing of is stored on the PC.
  lemma TombstoneComesBack(fast: bool)
    ensures var s := OnDeviceOnly(DeviceRecord(1, ONE, false, true, false));
      !ConvergedAt(s, Synchronized(s, fast), 1)
  {
    var s := OnDeviceOnly(DeviceRecord(1, ONE, false, true, false));
    assert s.device.records[0].id == 1;
    DeviceAtIs(s.device.records, 0);
    assert CellOf(s, 1) == Cell(Some(s.device.records[0]), None, [], 0);
    assert !MendableAt(s, fast, 1);
    ConvergenceAt(s, fast, 1);
  }

  // The fast form does not see a PC record that is archived and unchanged.
  lemma FastMissesArchived()
    ensures var s := Pair(DeviceRecord(1, ONE, false, false, false), LocalRecord(1, ONE, Nothing, true), {});
      !SameRecordsAt(Synchronized(s, true), Synchronized(s, false), 1)
  {
    var d, l := DeviceRecord(1, ONE, false, false, false), LocalRecord(1, ONE, Nothing, true);
    PairCell(d, l, {});
    FastIsSlowKnown(Pair(d, l, {}), 1);
  }

  // Row 20 leaves the device's version on both sides.
  lemma RowTwentyDeparts(fast: bool)
    ensures var d, l := DeviceRecord(1, ONE, true, false, false), LocalRecord(1, TWO, Modified, true);
      var c := Cell(Some(d), Some(l), [], 0);
      && RowOf(c) == 20
      && OutcomeOf(c, SyncCell(c, fast, true)) != RowOutcome(20, ONE, TWO)
  {
    var d, l := DeviceRecord(1, ONE, true, false, false), LocalRecord(1, TWO, Modified, true);
    var c := Cell(Some(d), Some(l), [], 0);
    FollowsTable(c, 1, fast);
  }

  /* ----- A second run ----- */

  ghost predicate SecondSlowRunChanges(s: State, first: bool) {
    var after := Reloaded(Synchronized(s, first));
    CellOf(Synchronized(after, false), 1) != CellOf(after, 1)
  }

  // A clean device record without a PC record: a fast run passes it over, and a
  // slow run after it stores the record.
  lemma FastLeavesToSlow()
    ensures SecondSlowRunChanges(
              OnDeviceOnly(DeviceRecord(1, ONE, false, false, false)), true)
  {
    var s := OnDeviceOnly(DeviceRecord(1, ONE, false, false, false));
    assert s.device.records[0].id == 1;
    DeviceAtIs(s.device.records, 0);
    assert CellOf(s, 1) == Cell(Some(s.device.records[0]), None, [], 0);
    SecondRunAt(s, true, false, 1);
  }

  // Case 13 on a PC record that is archived: it is sent, and archived by the next
  // slow run, which deletes it on the device.
  lemma SentThenArchived(first: bool)
    ensures SecondSlowRunChanges(
              Pair(DeviceRecord(1, ONE, false, false, true), LocalRecord(1, TWO, Modified, true), {}), first)
  {
    var d, l := DeviceRecord(1, ONE, false, false, true), LocalRecord(1, TWO, Modified, true);
    PairCell(d, l, {});
    SecondRunAt(Pair(d, l, {}), first, false, 1);
  }

  // A changed device record against an archived pending PC record: no rule
  // speaks of the pair, and the next slow run archives the one and deletes the other.
  lemma PendingIsArchivedLater(first: bool)
    ensures SecondSlowRunChanges(
              Pair(DeviceRecord(1, ONE, true, false, false), LocalRecord(1, TWO, Pending, true), {}), first)
  {
    var d, l := DeviceRecord(1, ONE, true, false, false), LocalRecord(1, TWO, Pending, true);
    PairCell(d, l, {});
    SecondRunAt(Pair(d, l, {}), first, false, 1);
  }

  // A new PC record that is refused loses its identifier, and the next slow run
  // stores the device's record beside it.
  lemma RefusedNewIsDoubled(first: bool)
    ensures SecondSlowRunChanges(
              Pair(DeviceRecord(1, ONE, false, false, false), LocalRecord(1, TWO, New, false), {1}), first)
  {
    var d, l := DeviceRecord(1, ONE, false, false, false), LocalRecord(1, TWO, New, false);
    PairCell(d, l, {1});
    SecondRunAt(Pair(d, l, {1}), first, false, 1);
  }

  /* ----- A run after a merge ----- */

  // A changed device record against a clean one: a run brings them together, but
  // not after a merge to the device, whose close clears the mark.
  lemma MergeHidesDeviceEdit(fast: bool)
    ensures var s := Pair(DeviceRecord(1, ONE, true, false, false), LocalRecord(1, TWO, Nothing, false), {});
      ConvergedAt(s, Synchronized(s, fast), 1) && !AgreesAt(Synchronized(PushedState(s), fast), 1)
  {
    var d, l := DeviceRecord(1, ONE, true, false, false), LocalRecord(1, TWO, Nothing, false);
    var s := Pair(d, l, {});
    PairCell(d, l, {});
    assert MendableAt(s, fast, 1) && !MendableAfterPushAt(s, fast, 1);
    ConvergenceAt(s, fast, 1);
    PushThenSync(s, fast, 1);
  }

  // A record deleted on the PC: a run deletes it on the device, but after a merge
  // to the device a fast run leaves it there.
  lemma MergeHidesDeletion()
    ensures var s := Pair(DeviceRecord(1, ONE, false, false, false), LocalRecord(1, ONE, Deleted, false), {});
      ConvergedAt(s, Synchronized(s, true), 1) && !AgreesAt(Synchronized(PushedState(s), true), 1)
  {
    var d, l := DeviceRecord(1, ONE, false, false, false), LocalRecord(1, ONE, Deleted, false);
    var s := Pair(d, l, {});
    PairCell(d, l, {});
    assert MendableAt(s, true, 1) && !MendableAfterPushAt(s, true, 1);
    ConvergenceAt(s, true, 1);
    PushThenSync(s, true, 1);
  }

  // A conflict: a run exchanges the versions, but after a merge to the PC, which
  // stores the device's, there is nothing left to exchange, and both have that.
  lemma MergeSettlesConflict(fast: bool)
    ensures var s := Pair(DeviceRecord(1, ONE, true, false, false), LocalRecord(1, TWO, Modified, false), {});
      !AgreesAt(Synchronized(s, fast), 1) && AgreesAt(Synchronized(PulledState(s), fast), 1)
  {
    var d, l := DeviceRecord(1, ONE, true, false, false), LocalRecord(1, TWO, Modified, false);
    var s := Pair(d, l, {});
    PairCell(d, l, {});
    SynchronizeDecomposes(s, fast, 1);
    DecidedOnce(CellOf(s, 1), 1, fast, true);
    assert MendableAfterPullAt(s, fast, 1);
    PullThenSync(s, fast, 1);
  }

  /* ----- Records without an identifier ----- */

  // One PC record without an identifier.
  function Alone(attr: Attr, refused: set<RecordId>): State {
    State(SyncState.Device.Device([], 1, refused, []), Store([Used(LocalRecord(0, ONE, attr, false))], []), [])
  }

  // A new record that is refused is marked clean. Once the device accepts such
  // records again, no run, in either form, ever sends it.
  lemma RefusedNewIsNeverSent(first: bool, later: bool)
    ensures var refused := Alone(New, {0});
      && Start(refused)
      && Synchronized(refused, first) == Alone(Nothing, {0})
      && Synchronized(Alone(Nothing, {}), later) == Alone(Nothing, {})
  {
    var refused := Alone(New, {0});
    RunOnAlone(refused, first);
    var calm := Alone(Nothing, {});
    assert forall j :: 0 <= j < |calm.local.slots| ==> calm.local.slots[j] == Used(LocalRecord(0, ONE, Nothing, false));
    SettledIsFixed(calm, later);
  }

  lemma RunOnAlone(s: State, fast: bool)
    requires s == Alone(New, {0})
    ensures Synchronized(s, fast) == Alone(Nothing, {0})
  {
    var sent := Alone(Nothing, {0});
    assert s.local.slots[0 := Used(LocalRecord(0, ONE, Nothing, false))] == sent.local.slots;
    assert sent.local.slots[0 := Used(LocalRecord(0, ONE, Nothing, false))] == sent.local.slots;
    assert InstallNew(s, 0) == sent;
    assert AddPass(s) == NewPass(sent, 1, 1) == sent;
    assert forall j :: 0 <= j < |sent.local.slots| ==> sent.local.slots[j] == Used(LocalRecord(0, ONE, Nothing, false));
    SettledIsFixed(sent, fast);
    QuietLocalPass(sent, 0, Modified, BothWays);
    QuietLocalPass(sent, 0, Deleted, BothWays);
    NothingToPurge(sent.local.slots);
    assert ResetFlags(CleanUp([])) == [];
  }

  // A second, slow run changes something.
  ghost predicate SlowRunChanges(after: State) {
    Synchronized(Reloaded(after), false) != Reloaded(after)
  }

  lemma SentIsStored(s: State, first: bool, p: Payload)
    requires Start(s) && Accepts(s, 0) && Unnumbered(s.local.slots, 0, Modified) == [p]
    ensures SlowRunChanges(Synchronized(s, first))
  {
    SecondRunChangesNothing(s, first, false);
  }

  lemma AloneIsModified(slots: seq<Slot>)
    requires slots == [Used(LocalRecord(0, ONE, Modified, false))]
    ensures Unnumbered(slots, 0, New) == [] && Unnumbered(slots, 0, Modified) == [ONE]
  {
    assert Unnumbered(slots, 1, New) == [] && Unnumbered(slots, 1, Modified) == [];
    assert Head(slots[0], New) == [] && Head(slots[0], Modified) == [ONE];
  }

  // A modified record without an identifier is sent, but the PC's copy gets none,
  // so the next slow run stores it a second time.
  lemma ModifiedIsDoubled(first: bool)
    ensures SentAlone(Synchronized(Alone(Modified, {}), first))
    ensures SlowRunChanges(Synchronized(Alone(Modified, {}), first))
  {
    AloneStarts();
    SentOfOne(Alone(Modified, {}), first);
  }

  // The device holds the record under its first number, and the PC nothing there.
  ghost predicate SentAlone(after: State) {
    HoldsAt(after, 1, Some(DeviceRecord(1, ONE, false, false, false)), None)
  }

  ghost predicate OneModified(s: State) {
    && Start(s) && Accepts(s, 0) && s.device.nextId == 1
    && s.local.slots == [Used(LocalRecord(0, ONE, Modified, false))]
  }

  lemma AloneStarts()
    ensures OneModified(Alone(Modified, {}))
  {
  }

  lemma SentOfOne(s: State, first: bool)
    requires OneModified(s)
    ensures SentAlone(Synchronized(s, first)) && SlowRunChanges(Synchronized(s, first))
  {
    AloneIsModified(s.local.slots);
    SentUnderOne(s, first);
    SentIsStored(s, first, ONE);
  }

  lemma SentUnderOne(s: State, first: bool)
    requires Start(s) && Accepts(s, 0) && s.device.nextId == 1
    requires Unnumbered(s.local.slots, 0, New) == [] && Unnumbered(s.local.slots, 0, Modified) == [ONE]
    ensures SentAlone(Synchronized(s, first))
  {
    FreshIdentifiers(s, first, 1);
    assert DeviceGiven(s, 1) == Some(DeviceRecord(1, ONE, false, false, false)) && LocalGiven(s, 1) == None;
  }

  /* ----- Copying ----- */

  // A live PC record the device refuses: after the copy it is marked clean on the
  // PC, and the device is without it.
  lemma RefusedIsNotCopied()
    ensures !Mirrored(CopiedTo(
              Pair(DeviceRecord(1, ONE, false, false, false), LocalRecord(1, TWO, Modified, false), {1})))
  {
    var d, l := DeviceRecord(1, ONE, false, false, false), LocalRecord(1, TWO, Modified, false);
    var s := Pair(d, l, {1});
    PairCell(d, l, {1});
    assert Live(s.local.slots[0]) && !Accepts(s, s.local.slots[0].rec.id);
    CopyToMirrors(s);
  }
}
