// What a second synchronisation does after a first.
module SyncReruns {
  import opened Records
  import opened SyncState
  import opened SyncCells
  import opened SyncSteps
  import opened SyncPasses
  import opened SyncRuns
  import opened SyncStrays
  import opened SyncTheorems
  import opened SyncResults

  // Nothing is marked on either side.
  ghost predicate Quiet(s: State) {
    && (forall i :: 0 <= i < |s.device.records| ==> !Flagged(s.device.records[i]))
    && (forall j :: 0 <= j < |s.local.slots| ==>
          Remains(s.local.slots[j]) && !Selected(s.local.slots[j], New) && !Selected(s.local.slots[j], Modified))
  }

  // And every device record has a PC record that is not archived.
  ghost predicate Settled(s: State) {
    Quiet(s) && forall i :: 0 <= i < |s.device.records| ==> Matched(s, s.device.records[i])
  }

  predicate Matched(s: State, d: DeviceRecord) {
    var at := FindLocal(s.local.slots, d.id);
    at.Some? && !s.local.slots[at.value].rec.archived
  }

  lemma {:induction false} QuietDevicePass(s: State, k: nat, scan: Scan, dir: Direction)
    requires Quiet(s) && k <= |s.device.records| && (scan.Changed? || Settled(s))
    ensures RemotePass(s, k, |s.device.records|, scan, dir) == s
    decreases |s.device.records| - k
  {
    if k < |s.device.records| {
      if Visits(scan, s.device.records[k]) { SettledVisit(s, k, dir); }
      QuietDevicePass(s, k + 1, scan, dir);
    }
  }

  lemma SettledVisit(s: State, k: nat, dir: Direction)
    requires Settled(s) && k < |s.device.records|
    ensures SyncRemote(s, ComputeAttr(s.device.records[k]), dir) == s
  {
    var d := s.device.records[k];
    assert Matched(s, d);
    var at := FindLocal(s.local.slots, d.id);
    assert Decide(s.local.slots[at.value].rec, ComputeAttr(d)) == [];
  }

  lemma {:induction false} QuietLocalPass(s: State, k: nat, flag: Attr, dir: Direction)
    requires Quiet(s) && k <= |s.local.slots| && (flag.Modified? || flag.Deleted?)
    ensures LocalPass(s, k, |s.local.slots|, flag, dir) == s
    ensures NewPass(s, k, |s.local.slots|) == s
    decreases |s.local.slots| - k
  {
    if k < |s.local.slots| { QuietLocalPass(s, k + 1, flag, dir); }
  }

  lemma {:induction false} NothingToClean(ds: seq<DeviceRecord>)
    requires forall i :: 0 <= i < |ds| ==> Stays(ds[i])
    ensures CleanUp(ds) == ds
    decreases |ds|
  {
    if ds != [] { NothingToClean(ds[1..]); }
  }

  lemma {:induction false} NothingToPurge(slots: seq<Slot>)
    requires forall j :: 0 <= j < |slots| ==> Remains(slots[j])
    ensures Purge(slots) == slots
    decreases |slots|
  {
    if slots != [] { NothingToPurge(slots[1..]); }
  }

  // A fast run over quiet databases changes nothing at all, nor does a slow run
  // over settled ones, whatever the conduit ignores.
  lemma SettledIsFixed(s: State, fast: bool)
    requires Quiet(s) && (fast || Settled(s))
    ensures Synchronized(s, fast) == s
  {
    QuietDevicePass(s, 0, if fast then Changed else Every, BothWays);
    QuietLocalPass(s, 0, Modified, BothWays);
    QuietLocalPass(s, 0, Deleted, BothWays);
    NothingToClean(s.device.records);
    assert ResetFlags(s.device.records) == s.device.records;
    NothingToPurge(s.local.slots);
  }

  // For a new conduit object these are the only cases.
  lemma FixedExactly(s: State, fast: bool)
    requires Start(s) && Quiet(s)
    ensures Synchronized(s, fast) == s <==> fast || Settled(s)
  {
    if fast || Settled(s) {
      SettledIsFixed(s, fast);
    } else {
      var i :| 0 <= i < |s.device.records| && !Matched(s, s.device.records[i]);
      var id := s.device.records[i].id;
      DeviceAtIs(s.device.records, i);
      StartCell(s, id);
      QuietAt(s, id);
      SynchronizeDecomposes(s, fast, id);
      QuietExactly(CellOf(s, id), id, fast, Accepts(s, id));
    }
  }

  lemma QuietAt(s: State, id: RecordId)
    requires Valid(s) && Quiet(s) && 0 < id
    ensures QuietCell(CellOf(s, id))
  {
    var i, j := FindDevice(s.device.records, id), FindLocal(s.local.slots, id);
  }

  // Whatever the databases held before, no record is marked after a run.
  lemma RunQuiets(s: State, fast: bool)
    requires Start(s)
    ensures Quiet(Synchronized(s, fast))
  {
    var after := Synchronized(s, fast);
    var s1, s2, s3, s4 := Stages(s, fast);
    RunRemains(s, fast);
    forall i | 0 <= i < |after.device.records|
      ensures !Flagged(after.device.records[i])
    {
      DeviceAtIs(after.device.records, i);
      RunIsQuietAt(s, fast, after.device.records[i].id);
    }
    forall j | 0 <= j < |after.local.slots|
      ensures !Selected(after.local.slots[j], New) && !Selected(after.local.slots[j], Modified)
    {
      if after.local.slots[j].rec.id == 0 {
        PurgeAt(s4.local.slots, 1);
        assert after.local.slots[j] in s4.local.slots;
        var k :| 0 <= k < |s4.local.slots| && s4.local.slots[k] == after.local.slots[j];
        StageAt(s, s1, s2, s3, s4, k);
      } else {
        LocalAtIs(after.local.slots, j);
        RunIsQuietAt(s, fast, after.local.slots[j].rec.id);
      }
    }
  }

  lemma RunIsQuietAt(s: State, fast: bool, id: RecordId)
    requires Start(s) && 0 < id
    ensures QuietCell(CellOf(Synchronized(s, fast), id))
  {
    if id < s.device.nextId {
      StartCell(s, id);
      SynchronizeDecomposes(s, fast, id);
      RunIsQuiet(CellOf(s, id), id, fast, Accepts(s, id));
    } else {
      FreshIdentifiers(s, fast, id);
    }
  }

  // The same databases, handled by a new conduit object.
  function Reloaded(s: State): State {
    s.(ignore := [], device := s.device.(journal := []))
  }

  ghost predicate RestlessAt(s: State, fast: bool, id: RecordId) {
    Restless(CellOf(s, id), fast, Accepts(s, id))
  }

  // A second run changes the records of an identifier exactly when it is slow and
  // the first run left something to do under it. So a second fast run changes
  // none, whatever the databases held before the first.
  lemma SecondRunAt(s: State, first: bool, second: bool, id: RecordId)
    requires Start(s) && 0 < id < s.device.nextId
    ensures var after := Reloaded(Synchronized(s, first));
      CellOf(Synchronized(after, second), id) == CellOf(after, id) <==> second || !RestlessAt(s, first, id)
  {
    var after := Reloaded(Synchronized(s, first));
    RunKeepsDevice(s, first);
    StartCell(s, id);
    SynchronizeDecomposes(s, first, id);
    ReloadedCell(Synchronized(s, first), id);
    SynchronizeDecomposes(after, second, id);
    SecondRunExactly(CellOf(s, id), id, first, second, Accepts(s, id));
  }

  lemma ReloadedCell(s: State, id: RecordId)
    requires Valid(s)
    ensures Start(Reloaded(s)) && CellOf(Reloaded(s), id) == CellOf(s, id).(hits := 0)
  {
  }

  // On whole databases: a second run changes no content, identifier, flag, status
  // or archive entry, exactly when it is fast, or the first run left nothing to do
  // under any identifier and sent no modified record that has none.
  lemma SecondRunChangesNothing(s: State, first: bool, second: bool)
    requires Start(s)
    ensures var after := Reloaded(Synchronized(s, first));
      Synchronized(after, second) == after <==>
      second || (Given(s, Modified) == 0 && forall id :: 0 < id < s.device.nextId ==> !RestlessAt(s, first, id))
  {
    var after := Reloaded(Synchronized(s, first));
    RunKeepsDevice(s, first);
    ReloadedCell(Synchronized(s, first), 1);
    RunQuiets(s, first);
    SettledExactly(s, first);
    FixedExactly(after, second);
  }

  // The conduit object of the first run, which still ignores what that wrote,
  // changes nothing in these cases either.
  lemma SameObjectChangesNothing(s: State, first: bool, second: bool)
    requires Start(s)
    requires second || (Given(s, Modified) == 0 && forall id :: 0 < id < s.device.nextId ==> !RestlessAt(s, first, id))
    ensures Synchronized(Synchronized(s, first), second) == Synchronized(s, first)
  {
    RunQuiets(s, first);
    SettledExactly(s, first);
    SettledIsFixed(Synchronized(s, first), second);
  }

  lemma SettledExactly(s: State, fast: bool)
    requires Start(s)
    ensures Settled(Synchronized(s, fast)) <==> Settled(Reloaded(Synchronized(s, fast)))
    ensures Settled(Synchronized(s, fast)) <==>
            Given(s, Modified) == 0 && forall id :: 0 < id < s.device.nextId ==> !RestlessAt(s, fast, id)
  {
    var after := Synchronized(s, fast);
    RunKeepsDevice(s, fast);
    RunQuiets(s, fast);
    if Given(s, Modified) == 0 && forall id :: 0 < id < s.device.nextId ==> !RestlessAt(s, fast, id) {
      forall i | 0 <= i < |after.device.records|
        ensures Matched(after, after.device.records[i])
      {
        var id := after.device.records[i].id;
        DeviceAtIs(after.device.records, i);
        MatchedExactly(s, fast, id);
        if id >= s.device.nextId { FreshIdentifiers(s, fast, id); }
      }
    }
    if Settled(after) {
      forall id | 0 < id < s.device.nextId
        ensures !RestlessAt(s, fast, id)
      {
        SettledAt(s, fast, id);
      }
      SettledSendsAll(s, fast);
    }
  }

  lemma SettledSendsAll(s: State, fast: bool)
    requires Start(s)
    ensures Settled(Synchronized(s, fast)) ==> Given(s, Modified) == 0
  {
    if Given(s, Modified) > 0 {
      var after, id := Synchronized(s, fast), s.device.nextId + Given(s, New);
      FreshIdentifiers(s, fast, id);
      var i := FindDevice(after.device.records, id);
      assert !Matched(after, after.device.records[i.value]);
    }
  }

  // The device record of an identifier is matched exactly when the run left
  // nothing to do under it.
  lemma MatchedExactly(s: State, fast: bool, id: RecordId)
    requires Start(s) && 0 < id && DeviceAt(Synchronized(s, fast).device.records, id).Some?
    ensures var after := Synchronized(s, fast);
      Matched(after, DeviceAt(after.device.records, id).value) <==>
      if id < s.device.nextId then !RestlessAt(s, fast, id) else id - s.device.nextId < Given(s, New)
  {
    if id < s.device.nextId {
      StartCell(s, id);
      SynchronizeDecomposes(s, fast, id);
      RunIsQuiet(CellOf(s, id), id, fast, Accepts(s, id));
    } else {
      FreshIdentifiers(s, fast, id);
    }
  }

  lemma SettledAt(s: State, fast: bool, id: RecordId)
    requires Start(s) && 0 < id < s.device.nextId && Settled(Synchronized(s, fast))
    ensures !RestlessAt(s, fast, id)
  {
    var after := Synchronized(s, fast);
    var i := FindDevice(after.device.records, id);
    if i.Some? {
      assert Matched(after, after.device.records[i.value]);
      MatchedExactly(s, fast, id);
    } else {
      StartCell(s, id);
      SynchronizeDecomposes(s, fast, id);
      RunIsQuiet(CellOf(s, id), id, fast, Accepts(s, id));
    }
  }
}
