// Merging in a single direction: what it leaves alone, and what it sends.
module SyncMerges {
  import opened Records
  import opened SyncState
  import opened SyncCells
  import opened SyncSteps
  import opened SyncPasses
  import opened SyncRuns
  import opened SyncStrays
  import opened SyncTheorems
  import opened SyncResults

  // standard_abs_merge_to_local
  function MergeToLocal(s: State, dir: Direction): State {
    DevicePass(s, ModifiedOnly, dir)
  }

  lemma {:induction false} LocalEffectsKeepDevice(s: State, i: nat, remote: PilotRecord, es: seq<Effect>)
    ensures var s' := ApplyAll(s, i, remote, es, ToLocal);
      s'.device == s.device && s'.ignore == s.ignore
    decreases |es|
  {
    if es != [] {
      var s1 := if Permitted(es[0], ToLocal) then Apply(s, i, remote, es[0]) else s;
      LocalEffectsKeepDevice(s1, i, remote, es[1..]);
    }
  }

  lemma {:induction false} PassToLocalKeepsDevice(s: State, k: nat, scan: Scan)
    requires k <= |s.device.records|
    ensures var s' := RemotePass(s, k, |s.device.records|, scan, ToLocal);
      s'.device == s.device && s'.ignore == s.ignore
    decreases |s.device.records| - k
  {
    if k < |s.device.records| {
      var d := s.device.records[k];
      if Visits(scan, d) {
        var at := FindLocal(s.local.slots, d.id);
        if at.Some? {
          LocalEffectsKeepDevice(s, at.value, ComputeAttr(d), Decide(s.local.slots[at.value].rec, ComputeAttr(d)));
        }
      }
      PassToLocalKeepsDevice(if Visits(scan, d) then SyncRemote(s, ComputeAttr(d), ToLocal) else s, k + 1, scan);
    }
  }

  // Merging to the PC writes and deletes nothing on the device, whatever the
  // state of either side.
  lemma MergeToLocalKeepsDevice(s: State)
    ensures MergeToLocal(s, ToLocal).device == s.device
    ensures MergeToLocal(s, ToLocal).ignore == s.ignore
  {
    PassToLocalKeepsDevice(s, 0, ModifiedOnly);
  }

  // A PC record either stays as it is, or was new or modified, was sent, and
  // kept everything but its status and, if it was new, its identifier.
  predicate SameOrSent(a: Slot, b: Slot) {
    || b == a
    || (&& a.Used? && b.Used? && !a.rec.archived
        && (a.rec.attr.New? || a.rec.attr.Modified?)
        && b.rec == a.rec.(attr := Nothing, id := b.rec.id)
        && (a.rec.attr.Modified? ==> b.rec.id == a.rec.id))
  }

  // c is what steps for the record at position i may turn b into.
  ghost predicate SentAt(b: Store, c: Store, i: nat) {
    && i < |b.slots| == |c.slots| && c.archive == b.archive
    && (forall j :: 0 <= j < |b.slots| && j != i ==> c.slots[j] == b.slots[j])
    && (c.slots[i] == b.slots[i] ||
        (b.slots[i].Used? && c.slots[i] == Used(b.slots[i].rec.(attr := Nothing))))
  }

  lemma {:induction false} DeviceEffectsKeepPC(s: State, i: nat, remote: PilotRecord, es: seq<Effect>)
    requires i < |s.local.slots|
    ensures SentAt(s.local, ApplyAll(s, i, remote, es, ToRemote).local, i)
    decreases |es|
  {
    if es != [] {
      var s1 := if Permitted(es[0], ToRemote) then Apply(s, i, remote, es[0]) else s;
      DeviceEffectsKeepPC(s1, i, remote, es[1..]);
    }
  }

  lemma {:induction false} FlagPassToRemote(s: State, k: nat)
    requires k <= |s.local.slots|
    ensures var l := LocalPass(s, k, |s.local.slots|, Modified, ToRemote).local;
      && l.archive == s.local.archive && |l.slots| == |s.local.slots|
      && (forall j :: 0 <= j < k ==> l.slots[j] == s.local.slots[j])
      && (forall j :: k <= j < |l.slots| ==> SameOrSent(s.local.slots[j], l.slots[j]))
      && (forall j :: k <= j < |l.slots| && !Selected(s.local.slots[j], Modified) ==> l.slots[j] == s.local.slots[j])
    decreases |s.local.slots| - k
  {
    if k < |s.local.slots| {
      var slot := s.local.slots[k];
      if Selected(slot, Modified) {
        var remote := ReadById(s.device, slot.rec.id);
        DeviceEffectsKeepPC(s, k, remote, Decide(slot.rec, remote));
        FlagPassToRemote(SyncLocal(s, k, ToRemote), k + 1);
      } else {
        FlagPassToRemote(s, k + 1);
      }
    }
  }

  lemma {:induction false} AddPassToRemote(s: State, k: nat)
    requires k <= |s.local.slots|
    ensures var l := NewPass(s, k, |s.local.slots|).local;
      && l.archive == s.local.archive && |l.slots| == |s.local.slots|
      && (forall j :: 0 <= j < k ==> l.slots[j] == s.local.slots[j])
      && (forall j :: k <= j < |l.slots| ==> SameOrSent(s.local.slots[j], l.slots[j]))
      && (forall j :: k <= j < |l.slots| && !Selected(s.local.slots[j], New) ==> l.slots[j] == s.local.slots[j])
      && (forall j :: k <= j < |l.slots| && Selected(s.local.slots[j], New) ==> l.slots[j].rec.attr.Nothing?)
    decreases |s.local.slots| - k
  {
    if k < |s.local.slots| {
      AddPassToRemote(if Selected(s.local.slots[k], New) then InstallNew(s, k) else s, k + 1);
    }
  }

  // Merging to the device leaves every PC payload, every archive flag and the
  // whole archive alone, whatever the state of either side.
  lemma MergeToRemoteKeepsPC(s: State)
    ensures var l := MergeToRemote(s, ToRemote).local;
      && l.archive == s.local.archive && |l.slots| == |s.local.slots|
      && (forall j :: 0 <= j < |l.slots| ==> SameOrSent(s.local.slots[j], l.slots[j]))
  {
    AddPassToRemote(s, 0);
    var s1 := AddPass(s);
    FlagPassToRemote(s1, 0);
    forall j | 0 <= j < |s.local.slots|
      ensures SameOrSent(s.local.slots[j], MergeToRemote(s, ToRemote).local.slots[j])
    {
      if Selected(s.local.slots[j], New) {
        assert !Selected(s1.local.slots[j], Modified);
      }
    }
  }

  /* ----- What a merge to the PC brings ----- */

  // The one effect of a row that concerns the PC.
  function OnlyLocal(c: Cell, remote: PilotRecord, es: seq<Effect>): Cell {
    if |es| > 0 && Permitted(es[0], ToLocal) then ApplyCell(c, remote, es[0], true)
    else if |es| > 1 && Permitted(es[1], ToLocal) then ApplyCell(c, remote, es[1], true)
    else c
  }

  lemma ToLocalEffects(c: Cell, remote: PilotRecord, es: seq<Effect>, accepts: bool)
    requires |es| <= 2 && (|es| == 2 ==> !(Permitted(es[0], ToLocal) && Permitted(es[1], ToLocal)))
    ensures ApplyAllCell(c, remote, es, ToLocal, accepts) == OnlyLocal(c, remote, es)
    decreases |es|
  {
    if |es| == 1 {
      assert es[1..] == [];
    } else if |es| == 2 {
      assert es[1..] == [es[1]];
      ToLocalEffects(if Permitted(es[0], ToLocal) then ApplyCell(c, remote, es[0], accepts) else c, remote, es[1..],
                     accepts);
    }
  }

  // The device's edit replaces what the PC has: nothing, a clean or a deleted
  // record, or a different edit; an archived one only the last.
  predicate Replaces(c: Cell) {
    && DeviceEdit(c)
    && if c.loc.None? then !c.dev.value.archived
       else if c.loc.value.attr.Modified? then c.dev.value.payload != c.loc.value.payload
       else !c.dev.value.archived && (c.loc.value.attr.Nothing? || c.loc.value.attr.Deleted?)
  }

  // It goes to the PC's archive, with the PC's record: it is archived on the
  // device, or the PC's archived record is the same edit.
  predicate GoesToArchive(c: Cell) {
    && DeviceEdit(c)
    && if c.loc.None? then c.dev.value.archived
       else if c.loc.value.attr.Modified? then
         c.dev.value.payload == c.loc.value.payload && (c.dev.value.archived || c.loc.value.archived)
       else c.dev.value.archived && (c.loc.value.attr.Nothing? || c.loc.value.attr.Deleted?)
  }

  // Under every identifier an edit the device made since the last run is on the
  // PC, or in its archive, after a merge to the PC; the PC's own record of the same
  // edit is marked clean, and new and pending ones stay as they are.
  lemma MergeToLocalBrings(s: State, id: RecordId)
    requires Valid(s) && 0 < id < s.device.nextId
    ensures var before, after := CellOf(s, id), CellOf(MergeToLocal(s, ToLocal), id);
      && (id in s.ignore || !DeviceEdit(before) ==> after == before)
      && (id !in s.ignore ==> Brought(before, after, id))
  {
    IgnoredIsHit(s, id);
    IdentifiedCell(s, id);
    DevicePassStep(s, ModifiedOnly, ToLocal, id);
    BroughtCell(CellOf(s, id), id, Accepts(s, id));
  }

  predicate Brought(before: Cell, after: Cell, id: RecordId) {
    if Replaces(before) then
      after == before.(loc := Some(LocalRecord(id, before.dev.value.payload, Nothing, false)))
    else if GoesToArchive(before) then
      after == before.(loc := None, archived := before.archived + [before.dev.value.payload])
    else if DeviceEdit(before) && SelectedCell(before, Modified) then
      after == before.(loc := Some(before.loc.value.(attr := Nothing)))
    else after == before
  }

  lemma BroughtCell(c: Cell, id: RecordId, accepts: bool)
    requires Identified(c, id)
    ensures var after := RemoteVisit(c, ModifiedOnly, ToLocal, accepts);
      && (c.hits > 0 || !DeviceEdit(c) ==> after == c)
      && (c.hits == 0 ==> Brought(c, after, id))
  {
    if DeviceEdit(c) && c.loc.Some? {
      ToLocalEffects(c, ComputeAttr(c.dev.value), Decide(c.loc.value, ComputeAttr(c.dev.value)), accepts);
    }
  }

  /* ----- What a merge to the device sends: identifiers known before ----- */

  // A new record is written in any case, a modified one unless its identifier is
  // ignored, or the device holds the same edit.
  predicate WrittenCell(c: Cell) {
    || SelectedCell(c, New)
    || (SelectedCell(c, Modified) && c.hits == 0 &&
        !(DeviceEdit(c) && c.dev.value.payload == c.loc.value.payload))
  }

  lemma ToRemoteEffects(c: Cell, remote: PilotRecord, es: seq<Effect>, accepts: bool)
    requires |es| <= 2 && (|es| == 2 ==> !(es[0].Send? && es[1].Erase?) && !(es[0].Erase? && es[1].Send?))
    requires |es| == 2 ==> es[0] != es[1]
    ensures ApplyAllCell(c, remote, es, ToRemote, accepts) ==
            if Send in es then SendCell(c, accepts)
            else if Erase in es then ApplyCell(c, remote, Erase, accepts)
            else c
    decreases |es|
  {
    if |es| == 1 {
      assert es[1..] == [];
    } else if |es| == 2 {
      assert es[1..] == [es[1]];
      var c1 := if Permitted(es[0], ToRemote) then ApplyCell(c, remote, es[0], accepts) else c;
      ToRemoteEffects(c1, remote, es[1..], accepts);
    }
  }

  // The PC's record under an identifier changes exactly when it is written. Then
  // the device holds its content if it accepts the identifier; a refused record is
  // marked clean all the same, and the device keeps what it had. An identifier
  // nothing was written or deleted under is otherwise unchanged.
  lemma MergeToRemoteSends(s: State, id: RecordId)
    requires Valid(s) && 0 < id < s.device.nextId
    ensures var before, after := CellOf(s, id), CellOf(MergeToRemote(s, ToRemote), id);
      && (after.loc != before.loc <==> WrittenCell(before))
      && (WrittenCell(before) ==>
            if Accepts(s, id) then after.dev == Some(DeviceRecord(id, before.loc.value.payload, true, false, false))
            else after.dev == before.dev && after.hits == before.hits)
      && (after.hits == before.hits && Accepts(s, id) ==> after == before)
      && (after.hits == before.hits ==> after.dev == before.dev && after.archived == before.archived)
  {
    IdentifiedCell(s, id);
    MergeDecomposes(s, ToRemote, id);
    MergedCell(CellOf(s, id), id, Accepts(s, id));
  }

  ghost predicate Identified(c: Cell, id: RecordId) {
    (c.dev.Some? ==> c.dev.value.id == id) && (c.loc.Some? ==> c.loc.value.id == id)
  }

  lemma IdentifiedCell(s: State, id: RecordId)
    requires Valid(s)
    ensures Identified(CellOf(s, id), id)
  {
  }

  lemma MergedCell(c: Cell, id: RecordId, accepts: bool)
    requires Identified(c, id)
    ensures var after := MergeCell(c, ToRemote, accepts);
      && (after.loc != c.loc <==> WrittenCell(c))
      && (WrittenCell(c) ==>
            if accepts then after.dev == Some(Written(id, c.loc.value.payload))
            else after.dev == c.dev && after.hits == c.hits)
      && (after.hits == c.hits && accepts ==> after == c)
      && (after.hits == c.hits ==> after.dev == c.dev && after.archived == c.archived)
  {
    if SelectedCell(c, Modified) && c.hits == 0 {
      var remote := if c.dev.Some? then ComputeAttr(c.dev.value) else Unread(id);
      ToRemoteEffects(c, remote, Decide(c.loc.value, remote), accepts);
    }
  }

  /* ----- What it sends: positions, records without an identifier included ----- */

  // The same of the record at a position.
  ghost predicate IsWritten(s: State, j: nat)
    requires j < |s.local.slots|
  {
    var slot := s.local.slots[j];
    || Selected(slot, New)
    || (Selected(slot, Modified) && slot.rec.id !in s.ignore && !SameEdit(s, slot.rec))
  }

  // The device holds the same content under the record's identifier, as an edit.
  predicate SameEdit(s: State, rec: LocalRecord) {
    var d := DeviceAt(s.device.records, rec.id);
    d.Some? && d.value.dirty && !d.value.deleted && d.value.payload == rec.payload
  }

  // The identifier it is written under: its own, or the number of its rank, new
  // records first.
  function MergedId(s: State, j: nat): RecordId
    requires j < |s.local.slots| && s.local.slots[j].Used?
  {
    var rec := s.local.slots[j].rec;
    if rec.id != 0 then rec.id
    else if rec.attr.New? then s.device.nextId + Rank(s.local.slots, 0, j, New)
    else s.device.nextId + Given(s, New) + Rank(s.local.slots, 0, j, Modified)
  }

  // The record at j was written: the device holds its content, and a new record
  // carries the identifier it was written under; or the write was refused, the
  // device is as it was there, and a new record has no identifier any more.
  ghost predicate WrittenAt(s: State, t: State, j: nat)
    requires j < |s.local.slots| && s.local.slots[j].Used?
  {
    var rec, id := s.local.slots[j].rec, MergedId(s, j);
    && j < |t.local.slots|
    && if Accepts(s, rec.id) then
         && DeviceAt(t.device.records, id) == Some(DeviceRecord(id, rec.payload, true, false, false))
         && t.local.slots[j] == Used(rec.(attr := Nothing, id := if rec.attr.New? then id else rec.id))
       else
         && DeviceAt(t.device.records, rec.id) == DeviceAt(s.device.records, rec.id)
         && t.local.slots[j] == Used(rec.(attr := Nothing, id := if rec.attr.New? then 0 else rec.id))
  }

  // Position by position, from any valid state: a merge to the device changes
  // exactly the records that are written, new and modified ones with and without
  // an identifier.
  lemma MergeToRemoteSendsAt(s: State, j: nat)
    requires Valid(s) && j < |s.local.slots|
    ensures IsWritten(s, j) ==> WrittenAt(s, MergeToRemote(s, ToRemote), j)
    ensures !IsWritten(s, j) ==> StaysAt(s, MergeToRemote(s, ToRemote), j)
  {
    var slot := s.local.slots[j];
    if !Selected(slot, New) && !Selected(slot, Modified) {
      OthersStay(s, j);
    } else if slot.rec.id != 0 {
      NumberedSent(s, j);
    } else if slot.rec.attr.New? {
      NewSent(s, j);
    } else {
      ModifiedSent(s, j);
    }
  }

  ghost predicate StaysAt(s: State, t: State, j: nat)
    requires j < |s.local.slots|
  {
    j < |t.local.slots| && t.local.slots[j] == s.local.slots[j]
  }

  // The two passes at one position.
  lemma TwoPasses(s: State, j: nat) returns (s1: State, t: State)
    requires Valid(s) && j < |s.local.slots|
    ensures s1 == AddPass(s) && Valid(s1) && s1.device.rejects == s.device.rejects
    ensures t == FlagPass(s1, Modified, ToRemote) == MergeToRemote(s, ToRemote) && Valid(t)
    ensures |s.local.slots| == |s1.local.slots| == |t.local.slots|
    ensures NewSlot(s.local.slots[j], s1.local.slots[j], s.device.rejects)
    ensures SameOrSent(s1.local.slots[j], t.local.slots[j])
    ensures !Selected(s1.local.slots[j], Modified) ==> t.local.slots[j] == s1.local.slots[j]
  {
    s1 := AddPass(s);
    NewPassCell(s, 0, 1);
    t := FlagPass(s1, Modified, ToRemote);
    FlagPassStep(s1, Modified, ToRemote, 1);
    FlagPassToRemote(s1, 0);
  }

  lemma OthersStay(s: State, j: nat)
    requires Valid(s) && j < |s.local.slots|
    requires !Selected(s.local.slots[j], New) && !Selected(s.local.slots[j], Modified)
    ensures StaysAt(s, MergeToRemote(s, ToRemote), j)
  {
    var s1, t := TwoPasses(s, j);
  }

  lemma NumberedSent(s: State, j: nat)
    requires Valid(s) && j < |s.local.slots|
    requires Selected(s.local.slots[j], New) || Selected(s.local.slots[j], Modified)
    requires s.local.slots[j].rec.id != 0
    ensures IsWritten(s, j) ==> WrittenAt(s, MergeToRemote(s, ToRemote), j)
    ensures !IsWritten(s, j) ==> StaysAt(s, MergeToRemote(s, ToRemote), j)
  {
    var rec := s.local.slots[j].rec;
    var s1, t := TwoPasses(s, j);
    LocalAtIs(s.local.slots, j);
    IgnoredIsHit(s, rec.id);
    MergeToRemoteSends(s, rec.id);
    assert WrittenCell(CellOf(s, rec.id)) <==> IsWritten(s, j);
    if rec.attr.Modified? { LocalAtIs(t.local.slots, j); }
  }

  // A new record without an identifier.
  lemma NewSent(s: State, j: nat)
    requires Valid(s) && j < |s.local.slots| && Selected(s.local.slots[j], New) && s.local.slots[j].rec.id == 0
    ensures WrittenAt(s, MergeToRemote(s, ToRemote), j)
  {
    var s1, t := TwoPasses(s, j);
    if Accepts(s, 0) {
      NewPassGives(s, j);
      RestsInMerge(s1, MergedId(s, j));
    } else {
      NoZero(s);
      NoZero(t);
    }
  }

  lemma NoZero(s: State)
    requires Valid(s)
    ensures DeviceAt(s.device.records, 0) == None
  {
    var at := FindDevice(s.device.records, 0);
  }

  // The pass over modified records leaves a record just installed alone.
  lemma RestsInMerge(s: State, id: RecordId)
    requires Valid(s) && 0 < id < s.device.nextId && Installed(CellOf(s, id), id)
    ensures CellOf(FlagPass(s, Modified, ToRemote), id) == CellOf(s, id)
  {
    FlagPassStep(s, Modified, ToRemote, id);
  }

  // A modified one: sent unless 0 is ignored, under the next number after the new
  // ones, and left without it.
  lemma ModifiedSent(s: State, j: nat)
    requires Valid(s) && j < |s.local.slots| && Selected(s.local.slots[j], Modified) && s.local.slots[j].rec.id == 0
    ensures IsWritten(s, j) ==> WrittenAt(s, MergeToRemote(s, ToRemote), j)
    ensures !IsWritten(s, j) ==> StaysAt(s, MergeToRemote(s, ToRemote), j)
  {
    var s1, t := TwoPasses(s, j);
    NoZero(s);
    NoZero(t);
    if 0 in s.ignore {
      NewPassIgnoresOn(s, 0, 0);
      IgnoredStays(s1, 0, j, ToRemote);
    } else {
      var s2 := AfterNew(s);
      RankAfterNew(s, s1, j);
      ModifiedPassSlots(s1, 0, ToRemote);
      RankedPayload(s1.local.slots, 0, j, Modified);
      if Accepts(s, 0) {
        ModifiedNumbers(s1, 0, Rank(s1.local.slots, 0, j, Modified), MergedId(s, j), s.local.slots[j].rec.payload,
                        ToRemote);
      }
    }
  }

  // The pass over new records makes none a modified one.
  lemma RankAfterNew(s: State, s1: State, j: nat)
    requires OnlyNew(s.local.slots, s1.local.slots, 0, s.device.rejects) && j <= |s.local.slots|
    ensures Rank(s1.local.slots, 0, j, Modified) == Rank(s.local.slots, 0, j, Modified)
  {
    forall i | 0 <= i < j
      ensures Head(s1.local.slots[i], Modified) == Head(s.local.slots[i], Modified)
    {
      assert NewSlot(s.local.slots[i], s1.local.slots[i], s.device.rejects);
    }
    RankSame(s.local.slots, s1.local.slots, 0, j, Modified);
  }

  /* ----- An ignored identifier stays ignored ----- */

  lemma {:induction false} NewPassIgnoresOn(s: State, k: nat, id: RecordId)
    requires k <= |s.local.slots| && id in s.ignore
    ensures id in NewPass(s, k, |s.local.slots|).ignore
    decreases |s.local.slots| - k
  {
    if k < |s.local.slots| {
      NewPassIgnoresOn(if Selected(s.local.slots[k], New) then InstallNew(s, k) else s, k + 1, id);
    }
  }

  lemma {:induction false} EffectsIgnoreOn(s: State, i: nat, remote: PilotRecord, es: seq<Effect>, dir: Direction,
                                           id: RecordId)
    requires id in s.ignore
    ensures id in ApplyAll(s, i, remote, es, dir).ignore
    decreases |es|
  {
    if es != [] {
      EffectsIgnoreOn(if Permitted(es[0], dir) then Apply(s, i, remote, es[0]) else s, i, remote, es[1..], dir, id);
    }
  }

  // And the record that carries it is passed over.
  lemma {:induction false} IgnoredStays(s: State, k: nat, j: nat, dir: Direction)
    requires Valid(s) && k <= j < |s.local.slots| && Selected(s.local.slots[j], Modified)
    requires s.local.slots[j].rec.id in s.ignore
    ensures var t := LocalPass(s, k, |s.local.slots|, Modified, dir);
      j < |t.local.slots| && t.local.slots[j] == s.local.slots[j]
    decreases j - k
  {
    if k == j {
      LocalPassCell(s, j + 1, Modified, dir, 1);
    } else if Selected(s.local.slots[k], Modified) {
      LocalVisitStep(s, k, Modified, dir, 1);
      var rec := s.local.slots[k].rec;
      var remote := ReadById(s.device, rec.id);
      EffectsIgnoreOn(s, k, remote, Decide(rec, remote), dir, s.local.slots[j].rec.id);
      IgnoredStays(SyncLocal(s, k, dir), k + 1, j, dir);
    } else {
      IgnoredStays(s, k + 1, j, dir);
    }
  }
  lemma {:induction false} SeedRests(s: State, k: nat, dir: Direction)
    requires Valid(s) && k <= |s.local.slots| && 0 in s.ignore
    ensures LocalPass(s, k, |s.local.slots|, Modified, dir).device.nextId == s.device.nextId
    decreases |s.local.slots| - k
  {
    if k < |s.local.slots| {
      if Selected(s.local.slots[k], Modified) {
        LocalVisitStep(s, k, Modified, dir, 1);
        var rec := s.local.slots[k].rec;
        var remote := ReadById(s.device, rec.id);
        if rec.id !in s.ignore {
          DecideRunnable(s, k, remote);
          SeedStays(s, k, remote, Decide(rec, remote), dir);
        }
        EffectsIgnoreOn(s, k, remote, Decide(rec, remote), dir, 0);
        SeedRests(SyncLocal(s, k, dir), k + 1, dir);
      } else {
        SeedRests(s, k + 1, dir);
      }
    }
  }

  /* ----- The identifiers it uses up ----- */

  // The device hands out one identifier for each new record without one, then one
  // for each modified record without one unless 0 is ignored, and none besides.
  lemma MergeToRemoteSeed(s: State)
    requires Valid(s)
    ensures MergeToRemote(s, ToRemote).device.nextId ==
            s.device.nextId + Given(s, New) + if 0 in s.ignore then 0 else Given(s, Modified)
  {
    if 0 in s.ignore {
      if Accepts(s, 0) { NewPassSeed(s, 0); } else { RefusedSeed(s, 0); }
      NewPassCell(s, 0, 1);
      NewPassIgnoresOn(s, 0, 0);
      SeedRests(AddPass(s), 0, ToRemote);
    } else {
      var s1 := AfterNew(s);
      ModifiedPassSeed(s1, 0, ToRemote);
    }
  }

  // What is under each of them: the m-th new record on both sides, the m-th
  // modified one on the device only.
  lemma MergeGivesNew(s: State, m: nat, id: RecordId, p: Payload)
    requires Valid(s) && Accepts(s, 0) && id == s.device.nextId + m
    requires m < |Unnumbered(s.local.slots, 0, New)| && Unnumbered(s.local.slots, 0, New)[m] == p
    ensures InstalledAs(MergeToRemote(s, ToRemote), id, p)
  {
    NewPassCell(s, 0, 1);
    NewPassSeed(s, 0);
    NewPassNumbers(s, 0, m, id, p);
    RestsInMerge(AddPass(s), id);
  }

  lemma MergeGivesModified(s: State, m: nat, id: RecordId, p: Payload)
    requires Valid(s) && Accepts(s, 0) && 0 !in s.ignore && id == s.device.nextId + Given(s, New) + m
    requires m < |Unnumbered(s.local.slots, 0, Modified)| && Unnumbered(s.local.slots, 0, Modified)[m] == p
    ensures HalfSent(MergeToRemote(s, ToRemote), id, p)
  {
    var s1 := AfterNew(s);
    ModifiedNumbers(s1, 0, m, id, p, ToRemote);
  }
}
