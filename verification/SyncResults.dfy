// The results for whole databases: identifiers known at the start by the cell
// theorems, identifiers the device hands out during the run, and PC records
// without an identifier, by the passes that deal with them.
module SyncResults {
  import opened Records
  import opened SyncState
  import opened SyncCells
  import opened SyncSteps
  import opened SyncPasses
  import opened SyncRuns
  import opened SyncStrays
  import opened SyncTheorems

  // The conduit was just created: nothing is ignored and nothing was written.
  ghost predicate Start(s: State) {
    Valid(s) && s.device.journal == []
  }

  lemma StartCell(s: State, id: RecordId)
    requires Start(s) && 0 < id < s.device.nextId
    ensures Fresh(CellOf(s, id), id)
  {
  }

  ghost predicate TouchedAt(s: State, fast: bool, id: RecordId) {
    Touched(CellOf(s, id), fast, Accepts(s, id))
  }

  // The ignore list holds exactly the identifiers written or deleted; one known at
  // the start is on it once or not at all, as its two records say.
  lemma DeviceTouchedOnce(s: State, fast: bool, id: RecordId)
    requires Start(s) && 0 < id < s.device.nextId
    ensures var after := Synchronized(s, fast);
      && multiset(after.ignore) == multiset(after.device.journal)
      && multiset(after.ignore)[id] == if TouchedAt(s, fast, id) then 1 else 0
  {
    StartCell(s, id);
    SynchronizeDecomposes(s, fast, id);
    TouchedExactly(CellOf(s, id), id, fast, Accepts(s, id));
  }

  /* ----- The stages of a run ----- */

  // What becomes of the positions on the PC, stage by stage.
  ghost predicate SlotStages(s: State, s1: State, s2: State, s3: State, s4: State) {
    && NumberedOnly(s.local.slots, s1.local.slots)
    && OnlyNew(s1.local.slots, s2.local.slots, 0, s.device.rejects)
    && |s4.local.slots| == |s3.local.slots| == |s2.local.slots|
    && (forall j :: 0 <= j < |s2.local.slots| ==> ModifiedSlot(s2.local.slots[j], s3.local.slots[j]))
    && (forall j :: 0 <= j < |s3.local.slots| ==> DeletedSlot(s3.local.slots[j], s4.local.slots[j]))
  }

  // How many identifiers the device hands out: one for each new and each
  // modified record that has none, if it accepts such records.
  function Given(s: State, flag: Attr): nat {
    if Accepts(s, 0) then |Unnumbered(s.local.slots, 0, flag)| else 0
  }

  // The stages of a run, each valid and linked to the one before.
  lemma Stages(s: State, fast: bool) returns (s1: State, s2: State, s3: State, s4: State)
    requires Start(s)
    ensures s1 == DevicePass(s, if fast then Changed else Every, BothWays) && Valid(s1)
    ensures s2 == AddPass(s1) && Valid(s2) && 0 !in s2.ignore
    ensures s3 == FlagPass(s2, Modified, BothWays) && Valid(s3)
    ensures s4 == FlagPass(s3, Deleted, BothWays) && Valid(s4)
    ensures Synchronized(s, fast) == Close(s4) && Valid(Close(s4))
    ensures s1.device.rejects == s2.device.rejects == s.device.rejects
    ensures s1.device.nextId == s.device.nextId
    ensures s2.device.nextId == s.device.nextId + Given(s, New)
    ensures s4.device.nextId == s3.device.nextId == s2.device.nextId + Given(s, Modified)
    ensures Unnumbered(s1.local.slots, 0, New) == Unnumbered(s.local.slots, 0, New)
    ensures Unnumbered(s2.local.slots, 0, Modified) == Unnumbered(s.local.slots, 0, Modified)
    ensures SlotStages(s, s1, s2, s3, s4)
  {
    s1 := AfterDevice(s, fast);
    s2 := AfterNew(s1);
    s3 := FlagPass(s2, Modified, BothWays);
    LocalPassCell(s2, 0, Modified, BothWays, 1);
    ModifiedPassSlots(s2, 0, BothWays);
    ModifiedPassSeed(s2, 0, BothWays);
    s4 := FlagPass(s3, Deleted, BothWays);
    LocalPassCell(s3, 0, Deleted, BothWays, 1);
    DeletedPassSlots(s3, 0);
    CloseStep(s4, 1);
  }

  lemma RunKeepsDevice(s: State, fast: bool)
    requires Start(s)
    ensures var after := Synchronized(s, fast);
      && Valid(after) && s.device.nextId <= after.device.nextId && after.device.rejects == s.device.rejects
  {
    var s1, s2, s3, s4 := Stages(s, fast);
    LocalPassCell(s2, 0, Modified, BothWays, 1);
    LocalPassCell(s3, 0, Deleted, BothWays, 1);
  }

  lemma AfterDevice(s: State, fast: bool) returns (s1: State)
    requires Start(s)
    ensures s1 == DevicePass(s, if fast then Changed else Every, BothWays) && Valid(s1) && 0 !in s1.ignore
    ensures s1.device.rejects == s.device.rejects && s1.device.nextId == s.device.nextId
    ensures NumberedOnly(s.local.slots, s1.local.slots)
    ensures Unnumbered(s1.local.slots, 0, New) == Unnumbered(s.local.slots, 0, New)
    ensures Unnumbered(s1.local.slots, 0, Modified) == Unnumbered(s.local.slots, 0, Modified)
  {
    var scan := if fast then Changed else Every;
    s1 := DevicePass(s, scan, BothWays);
    DevicePassStep(s, scan, BothWays, 1);
    RemotePassSlots(s, 0, scan, BothWays);
    assert multiset(s.ignore)[0] == 0;
    DevicePassIgnores(s, 0, scan, BothWays);
    UnnumberedStay(s.local.slots, s1.local.slots, New);
    UnnumberedStay(s.local.slots, s1.local.slots, Modified);
  }

  lemma AfterNew(s1: State) returns (s2: State)
    requires Valid(s1) && 0 !in s1.ignore
    ensures s2 == AddPass(s1) && Valid(s2) && 0 !in s2.ignore
    ensures s2.device.rejects == s1.device.rejects && s2.device.nextId == s1.device.nextId + Given(s1, New)
    ensures OnlyNew(s1.local.slots, s2.local.slots, 0, s1.device.rejects)
    ensures Unnumbered(s2.local.slots, 0, Modified) == Unnumbered(s1.local.slots, 0, Modified)
  {
    s2 := AddPass(s1);
    NewPassCell(s1, 0, 1);
    NewPassIgnores(s1, 0);
    if Accepts(s1, 0) { NewPassSeed(s1, 0); } else { RefusedSeed(s1, 0); }
    forall j | 0 <= j < |s1.local.slots|
      ensures Head(s2.local.slots[j], Modified) == Head(s1.local.slots[j], Modified)
    {
      assert NewSlot(s1.local.slots[j], s2.local.slots[j], s1.device.rejects);
    }
    UnnumberedSame(s1.local.slots, s2.local.slots, 0, Modified);
  }

  /* ----- Records without an identifier ----- */

  // A run leaves without an identifier exactly the records that have none and get
  // none, and the new ones whose write is refused, in their order, with their
  // content; whichever form it takes.
  lemma LooseEnd(s: State, fast: bool)
    requires Start(s)
    ensures Loose(Synchronized(s, fast).local.slots) == Ends(s.local.slots, s.device.rejects)
  {
    var s1, s2, s3, s4 := Stages(s, fast);
    var a, b, e := s.local.slots, s1.local.slots, s4.local.slots;
    forall j | 0 <= j < |e|
      ensures LooseHead(e[j]) == if j < |a| then EndHead(a[j], s.device.rejects) else []
    {
      StageAt(s, s1, s2, s3, s4, j);
    }
    LooseAreEnds(a, e, s.device.rejects);
    PurgeKeepsLoose(e);
  }

  lemma StageAt(s: State, s1: State, s2: State, s3: State, s4: State, j: nat)
    requires SlotStages(s, s1, s2, s3, s4) && j < |s4.local.slots|
    ensures LooseHead(s4.local.slots[j]) ==
            if j < |s.local.slots| then EndHead(s.local.slots[j], s.device.rejects) else []
    ensures HasId(s4.local.slots[j], 0) ==>
            !Selected(s4.local.slots[j], New) && !Selected(s4.local.slots[j], Modified)
  {
    var b, c := s1.local.slots[j], s2.local.slots[j];
    assert NewSlot(b, c, s.device.rejects);
    assert ModifiedSlot(c, s3.local.slots[j]) && DeletedSlot(s3.local.slots[j], s4.local.slots[j]);
    if j < |s.local.slots| {
      StrayThrough(s.local.slots[j], b, c, s3.local.slots[j], s4.local.slots[j], s.device.rejects);
    }
  }

  ghost predicate OnPC(slots: seq<Slot>, p: Payload) {
    exists j :: 0 <= j < |slots| && slots[j].Used? && slots[j].rec.payload == p
  }

  // So the content of a PC record without an identifier is never lost.
  lemma UnnumberedStaysOnPC(s: State, fast: bool, j: nat)
    requires Start(s) && j < |s.local.slots| && HasId(s.local.slots[j], 0) && !s.local.slots[j].rec.attr.Deleted?
    ensures OnPC(Synchronized(s, fast).local.slots, s.local.slots[j].rec.payload)
  {
    var slot := s.local.slots[j];
    if Strays(slot, s.device.rejects) {
      StrayIsKept(s, fast, j);
    } else {
      var m := Rank(s.local.slots, 0, j, New);
      RankedPayload(s.local.slots, 0, j, New);
      NewRecordsArrive(s, fast, m);
      var after := Synchronized(s, fast);
      var at := FindLocal(after.local.slots, s.device.nextId + m);
      assert after.local.slots[at.value].rec.payload == slot.rec.payload;
    }
  }

  lemma StrayIsKept(s: State, fast: bool, j: nat)
    requires Start(s) && j < |s.local.slots| && Strays(s.local.slots[j], s.device.rejects)
    ensures KeptLoose(Synchronized(s, fast).local.slots, s.local.slots[j].rec.payload)
    ensures OnPC(Synchronized(s, fast).local.slots, s.local.slots[j].rec.payload)
  {
    LooseEnd(s, fast);
    EndsAt(s.local.slots, s.device.rejects, j);
    var r := EndHead(s.local.slots[j], s.device.rejects)[0];
    assert r in EndHead(s.local.slots[j], s.device.rejects);
    LooseIs(Synchronized(s, fast).local.slots, r);
  }

  ghost predicate KeptLoose(slots: seq<Slot>, p: Payload) {
    exists j :: 0 <= j < |slots| && HasId(slots[j], 0) && slots[j].rec.payload == p
  }

  /* ----- Edits ----- */

  // The payload is on the device or the PC under the identifier, or was archived
  // for it; or it is that of a new PC record that lost the identifier, and is on
  // the PC without one.
  ghost predicate KeptAt(p: Payload, s: State, after: State, id: RecordId) {
    var before, now := CellOf(s, id), CellOf(after, id);
    || (now.dev.Some? && now.dev.value.payload == p)
    || (now.loc.Some? && now.loc.value.payload == p)
    || (Unhitched(before, Accepts(s, id)) && before.loc.value.payload == p && KeptLoose(after.local.slots, p))
    || (|before.archived| <= |now.archived| && p in now.archived[|before.archived|..])
  }

  ghost predicate EditsKeptAt(s: State, after: State, id: RecordId) {
    var c := CellOf(s, id);
    && (DeviceEdit(c) ==> KeptAt(c.dev.value.payload, s, after, id))
    && (LocalEdit(c) ==> KeptAt(c.loc.value.payload, s, after, id))
  }

  // For every identifier: both sides' edits are found again after the run,
  // unless the pair is one of those LosesEdit describes.
  lemma EditsSurvive(s: State, fast: bool, id: RecordId)
    requires Start(s) && 0 < id < s.device.nextId
    ensures EditsKeptAt(s, Synchronized(s, fast), id) <==> !LosesEdit(CellOf(s, id), Accepts(s, id))
  {
    StartCell(s, id);
    SynchronizeDecomposes(s, fast, id);
    EditsSurviveExactly(CellOf(s, id), id, fast, Accepts(s, id));
    if Unhitched(CellOf(s, id), Accepts(s, id)) {
      var at := FindLocal(s.local.slots, id);
      StrayIsKept(s, fast, at.value);
    }
  }

  /* ----- Identifiers handed out during the run ----- */

  // The content sent under an identifier that was not known before the run.
  function SentUnder(s: State, id: RecordId): Option<Payload>
    requires id >= s.device.nextId
  {
    var k := id - s.device.nextId;
    if k < Given(s, New) then Some(Unnumbered(s.local.slots, 0, New)[k])
    else if k < Given(s, New) + Given(s, Modified) then
      Some(Unnumbered(s.local.slots, 0, Modified)[k - Given(s, New)])
    else None
  }

  // New records take such an identifier over, modified ones do not.
  function DeviceGiven(s: State, id: RecordId): Option<DeviceRecord>
    requires id >= s.device.nextId
  {
    var p := SentUnder(s, id);
    if p.Some? then Some(DeviceRecord(id, p.value, false, false, false)) else None
  }

  function LocalGiven(s: State, id: RecordId): Option<LocalRecord>
    requires id >= s.device.nextId
  {
    var p := SentUnder(s, id);
    if p.Some? && id - s.device.nextId < Given(s, New) then Some(LocalRecord(id, p.value, Nothing, false)) else None
  }

  ghost predicate HoldsAt(s: State, id: RecordId, d: Option<DeviceRecord>, l: Option<LocalRecord>) {
    DeviceAt(s.device.records, id) == d && LocalAt(s.local.slots, id) == l
  }

  // What is under every identifier not known before the run, in either form.
  lemma FreshIdentifiers(s: State, fast: bool, id: RecordId)
    requires Start(s) && id >= s.device.nextId
    ensures HoldsAt(Synchronized(s, fast), id, DeviceGiven(s, id), LocalGiven(s, id))
    ensures Synchronized(s, fast).device.nextId == s.device.nextId + Given(s, New) + Given(s, Modified)
  {
    var s1, s2, s3, s4 := Stages(s, fast);
    var k := id - s.device.nextId;
    if k < Given(s, New) {
      NewPassNumbers(s1, 0, k, id, Unnumbered(s.local.slots, 0, New)[k]);
      InstalledRests(s2, Modified, id);
      InstalledRests(s3, Deleted, id);
      CloseStep(s4, id);
    } else if k < Given(s, New) + Given(s, Modified) {
      var p := Unnumbered(s.local.slots, 0, Modified)[k - Given(s, New)];
      ModifiedNumbers(s2, 0, k - Given(s, New), id, p, BothWays);
      HalfSentRests(s3, 0, Deleted, id, p, BothWays);
      CloseStep(s4, id);
    } else {
      NothingBeyondSeed(Close(s4), id);
    }
  }

  // Nothing but the close touches a record that was installed in this run.
  lemma InstalledRests(s: State, flag: Attr, id: RecordId)
    requires Valid(s) && 0 < id < s.device.nextId && Installed(CellOf(s, id), id) && !flag.Nothing?
    ensures CellOf(FlagPass(s, flag, BothWays), id) == CellOf(s, id)
  {
    FlagPassStep(s, flag, BothWays, id);
  }

  lemma NothingBeyondSeed(s: State, id: RecordId)
    requires Valid(s) && id >= s.device.nextId
    ensures HoldsAt(s, id, None, None)
  {
    var i, j := FindDevice(s.device.records, id), FindLocal(s.local.slots, id);
  }

  // The m-th new record without an identifier ends on both sides, clean and
  // equal, under the m-th identifier the device hands out, exactly when the
  // device accepts such records; otherwise nothing is under that identifier.
  lemma NewRecordsArrive(s: State, fast: bool, m: nat)
    requires Start(s) && m < |Unnumbered(s.local.slots, 0, New)|
    ensures var after, id, p := Synchronized(s, fast), s.device.nextId + m, Unnumbered(s.local.slots, 0, New)[m];
      HoldsAt(after, id, Some(DeviceRecord(id, p, false, false, false)), Some(LocalRecord(id, p, Nothing, false)))
      <==> Accepts(s, 0)
  {
    FreshIdentifiers(s, fast, s.device.nextId + m);
  }

  // The m-th modified record without an identifier is sent after all new ones,
  // under the next number; the PC's copy keeps no identifier, so nothing on the
  // PC is under that number.
  lemma ModifiedRecordsAreSent(s: State, fast: bool, m: nat)
    requires Start(s) && m < |Unnumbered(s.local.slots, 0, Modified)|
    ensures var after, id := Synchronized(s, fast), s.device.nextId + |Unnumbered(s.local.slots, 0, New)| + m;
      HoldsAt(after, id, Some(DeviceRecord(id, Unnumbered(s.local.slots, 0, Modified)[m], false, false, false)), None)
      <==> Accepts(s, 0)
  {
    FreshIdentifiers(s, fast, s.device.nextId + |Unnumbered(s.local.slots, 0, New)| + m);
  }

  /* ----- Convergence ----- */

  ghost predicate MendableAt(s: State, fast: bool, id: RecordId) {
    Mendable(CellOf(s, id), fast, Accepts(s, id))
  }

  ghost predicate ConvergedAt(s: State, after: State, id: RecordId) {
    Agree(CellOf(after, id)) || (id < s.device.nextId && Swapped(CellOf(s, id), CellOf(after, id)))
  }

  // For an identifier known at the start, whatever the other records look like.
  lemma ConvergenceAt(s: State, fast: bool, id: RecordId)
    requires Start(s) && 0 < id < s.device.nextId
    ensures MendableAt(s, fast, id) <==> ConvergedAt(s, Synchronized(s, fast), id)
  {
    StartCell(s, id);
    SynchronizeDecomposes(s, fast, id);
    ConvergesExactly(CellOf(s, id), id, fast, Accepts(s, id));
  }

  ghost predicate NoStrays(s: State) {
    forall j :: 0 <= j < |s.local.slots| ==> !Strays(s.local.slots[j], s.device.rejects)
  }

  ghost predicate AllNumbered(slots: seq<Slot>) {
    forall j :: 0 <= j < |slots| ==> !HasId(slots[j], 0)
  }

  // After a run every PC record has an identifier, and the two sides agree on
  // every identifier or hold each other's version of a conflict, exactly when
  // every pair could be mended beforehand and no PC record was bound to end
  // without an identifier.
  lemma Convergence(s: State, fast: bool)
    requires Start(s)
    ensures var after := Synchronized(s, fast);
      (NoStrays(s) && forall id :: 0 < id < s.device.nextId ==> MendableAt(s, fast, id)) <==>
      (AllNumbered(after.local.slots) && forall id :: 0 < id < after.device.nextId ==> ConvergedAt(s, after, id))
  {
    var after := Synchronized(s, fast);
    RunKeepsDevice(s, fast);
    StraysExactly(s, fast);
    forall id | 0 < id < s.device.nextId
      ensures MendableAt(s, fast, id) <==> ConvergedAt(s, after, id)
    {
      ConvergenceAt(s, fast, id);
    }
    forall id | s.device.nextId <= id < after.device.nextId && NoStrays(s)
      ensures ConvergedAt(s, after, id)
    {
      FreshIdentifiers(s, fast, id);
      NoStraysUnsent(s);
    }
  }

  lemma StraysExactly(s: State, fast: bool)
    requires Start(s)
    ensures NoStrays(s) <==> AllNumbered(Synchronized(s, fast).local.slots)
  {
    var slots := Synchronized(s, fast).local.slots;
    LooseEnd(s, fast);
    RunRemains(s, fast);
    if NoStrays(s) {
      NoEnds(s.local.slots, s.device.rejects);
      forall j | 0 <= j < |slots| ensures !HasId(slots[j], 0) { LooseAt(slots, j); }
    } else {
      var j :| 0 <= j < |s.local.slots| && Strays(s.local.slots[j], s.device.rejects);
      EndsAt(s.local.slots, s.device.rejects, j);
      LooseIs(slots, Loose(slots)[0]);
    }
  }

  // The close leaves no vacant position and no deleted record on the PC.
  lemma RunRemains(s: State, fast: bool)
    requires Start(s)
    ensures forall j :: 0 <= j < |Synchronized(s, fast).local.slots| ==> Remains(Synchronized(s, fast).local.slots[j])
  {
    var s1, s2, s3, s4 := Stages(s, fast);
    PurgeAt(s4.local.slots, 1);
  }

  lemma NoStraysUnsent(s: State)
    requires NoStrays(s)
    ensures Given(s, Modified) == 0
  {
    forall j | 0 <= j < |s.local.slots|
      ensures Head(s.local.slots[j], Modified) == []
    {
      assert !Strays(s.local.slots[j], s.device.rejects);
    }
    NoneUnnumbered(s.local.slots, 0, Modified);
  }

  /* ----- Fast against slow ----- */

  ghost predicate SameRecordsAt(a: State, b: State, id: RecordId) {
    DeviceAt(a.device.records, id) == DeviceAt(b.device.records, id)
    && LocalAt(a.local.slots, id) == LocalAt(b.local.slots, id)
  }

  ghost predicate FastSufficesAt(s: State, id: RecordId) {
    FastSuffices(CellOf(s, id))
  }

  // The fast form ends with the slow form's records, device and PC, exactly
  // when every unflagged device record has a PC record that is not archived.
  // Records without an identifier end alike in any case.
  lemma FastIsSlow(s: State)
    requires Start(s)
    ensures
      (forall id :: 0 < id < s.device.nextId ==> FastSufficesAt(s, id)) <==>
      (forall id :: 0 < id ==> SameRecordsAt(Synchronized(s, true), Synchronized(s, false), id))
    ensures Loose(Synchronized(s, true).local.slots) == Loose(Synchronized(s, false).local.slots)
  {
    forall id | 0 < id < s.device.nextId
      ensures FastSufficesAt(s, id) <==> SameRecordsAt(Synchronized(s, true), Synchronized(s, false), id)
    {
      FastIsSlowKnown(s, id);
    }
    forall id | s.device.nextId <= id
      ensures SameRecordsAt(Synchronized(s, true), Synchronized(s, false), id)
    {
      FreshIdentifiers(s, true, id);
      FreshIdentifiers(s, false, id);
    }
    LooseEnd(s, true);
    LooseEnd(s, false);
  }

  lemma FastIsSlowKnown(s: State, id: RecordId)
    requires Start(s) && 0 < id < s.device.nextId
    ensures FastSufficesAt(s, id) <==> SameRecordsAt(Synchronized(s, true), Synchronized(s, false), id)
  {
    StartCell(s, id);
    SynchronizeDecomposes(s, true, id);
    SynchronizeDecomposes(s, false, id);
    FastIsSlowExactly(CellOf(s, id), id, Accepts(s, id));
  }
}
