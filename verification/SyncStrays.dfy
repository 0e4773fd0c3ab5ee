// PC records without an identifier, and the identifiers the device hands out
// during a run: which records get one, in which order, and which stay without.
module SyncStrays {
  import opened Records
  import opened SyncState
  import opened SyncCells
  import opened SyncSteps
  import opened SyncPasses
  import opened SyncRuns

  /* ----- The ignore list never holds 0 before deleted records are visited ----- */

  lemma ZeroStep(s: State, i: nat, remote: PilotRecord, e: Effect)
    requires 0 < s.device.nextId && 0 !in s.ignore && (remote.id != 0 || !e.Erase?)
    ensures 0 !in Apply(s, i, remote, e).ignore && 0 < Apply(s, i, remote, e).device.nextId
  {
  }

  lemma {:induction false} ZeroNotIgnored(s: State, i: nat, remote: PilotRecord, es: seq<Effect>, dir: Direction)
    requires 0 < s.device.nextId && 0 !in s.ignore
    requires remote.id != 0 || forall k :: 0 <= k < |es| ==> !es[k].Erase?
    ensures 0 !in ApplyAll(s, i, remote, es, dir).ignore
    decreases |es|
  {
    if es != [] {
      if Permitted(es[0], dir) { ZeroStep(s, i, remote, es[0]); }
      assert forall k :: 0 <= k < |es[1..]| ==> es[1..][k] == es[k + 1];
      ZeroNotIgnored(if Permitted(es[0], dir) then Apply(s, i, remote, es[0]) else s, i, remote, es[1..], dir);
    }
  }

  lemma {:induction false} DevicePassIgnores(s: State, k: nat, scan: Scan, dir: Direction)
    requires Valid(s) && k <= |s.device.records| && 0 !in s.ignore
    ensures 0 !in RemotePass(s, k, |s.device.records|, scan, dir).ignore
    decreases |s.device.records| - k
  {
    if k < |s.device.records| {
      var s1 := DeviceStopIgnores(s, k, scan, dir);
      DevicePassIgnores(s1, k + 1, scan, dir);
    }
  }

  lemma DeviceStopIgnores(s: State, k: nat, scan: Scan, dir: Direction) returns (s1: State)
    requires Valid(s) && k < |s.device.records| && 0 !in s.ignore
    ensures Valid(s1) && |s1.device.records| == |s.device.records| && 0 !in s1.ignore
    ensures RemotePass(s, k, |s.device.records|, scan, dir) == RemotePass(s1, k + 1, |s.device.records|, scan, dir)
  {
    var d := s.device.records[k];
    RemoteStep(s, k, scan, dir, d.id);
    s1 := if Visits(scan, d) then SyncRemote(s, ComputeAttr(d), dir) else s;
    if Visits(scan, d) && d.id !in s.ignore {
      var at := FindLocal(s.local.slots, d.id);
      if at.Some? {
        DecideRunnable(s, at.value, ComputeAttr(d));
        ZeroNotIgnored(s, at.value, ComputeAttr(d), Decide(s.local.slots[at.value].rec, ComputeAttr(d)), dir);
      }
    }
  }

  lemma {:induction false} NewPassIgnores(s: State, k: nat)
    requires Valid(s) && k <= |s.local.slots| && 0 !in s.ignore
    ensures 0 !in NewPass(s, k, |s.local.slots|).ignore
    decreases |s.local.slots| - k
  {
    if k < |s.local.slots| {
      if Selected(s.local.slots[k], New) {
        InstallStep(s, k, 1);
        NewPassIgnores(InstallNew(s, k), k + 1);
      } else {
        NewPassIgnores(s, k + 1);
      }
    }
  }

  /* ----- Modified records without an identifier, in any direction that reaches the device ----- */

  // One is sent like a new one, but takes no identifier over.
  lemma UnnumberedModified(s: State, k: nat, dir: Direction)
    requires Valid(s) && k < |s.local.slots| && 0 !in s.ignore && dir.toRemote
    requires Selected(s.local.slots[k], Modified) && s.local.slots[k].rec.id == 0
    ensures SyncLocal(s, k, dir) == SendLocal(s, k)
  {
    var rec := s.local.slots[k].rec;
    assert FindDevice(s.device.records, 0).None?;
    assert Decide(rec, Unread(0)) == [Send] && [Send][1..] == [];
    assert ApplyAll(SendLocal(s, k), k, Unread(0), [], dir) == SendLocal(s, k);
  }

  // b is what the pass over modified records turns the position a into.
  predicate ModifiedSlot(a: Slot, b: Slot) {
    if !Selected(a, Modified) then b == a
    else if a.rec.id == 0 then b == Used(a.rec.(attr := Nothing))
    else b.Vacant? || b.rec.id == a.rec.id
  }

  // What is on the device under a number that was handed to a modified record:
  // nothing on the PC goes with it.
  ghost predicate HalfSent(s: State, id: RecordId, p: Payload) {
    DeviceAt(s.device.records, id) == Some(Written(id, p)) && LocalAt(s.local.slots, id) == None
  }

  // One stop of the pass.
  lemma ModifiedStop(s: State, k: nat, dir: Direction) returns (s1: State)
    requires Valid(s) && k < |s.local.slots| && 0 !in s.ignore && dir.toRemote
    ensures Valid(s1) && s1.device.rejects == s.device.rejects && 0 !in s1.ignore
    ensures |s1.local.slots| == |s.local.slots| && ModifiedSlot(s.local.slots[k], s1.local.slots[k])
    ensures forall j :: 0 <= j < |s.local.slots| && j != k ==> s1.local.slots[j] == s.local.slots[j]
    ensures LocalPass(s, k, |s.local.slots|, Modified, dir)
         == LocalPass(s1, k + 1, |s.local.slots|, Modified, dir)
    ensures if Head(s.local.slots[k], Modified) == [] || !Accepts(s, 0) then s1.device.nextId == s.device.nextId
            else s1.device.nextId == s.device.nextId + 1
                 && HalfSent(s1, s.device.nextId, s.local.slots[k].rec.payload)
  {
    if Selected(s.local.slots[k], Modified) {
      LocalVisitStep(s, k, Modified, dir, 1);
      s1 := SyncLocal(s, k, dir);
      if s.local.slots[k].rec.id == 0 {
        UnnumberedModified(s, k, dir);
        SentUnnumbered(s, k);
      } else if s.local.slots[k].rec.id !in s.ignore {
        var rec := s.local.slots[k].rec;
        var remote := ReadById(s.device, rec.id);
        DecideRunnable(s, k, remote);
        ZeroNotIgnored(s, k, remote, Decide(rec, remote), dir);
        SeedStays(s, k, remote, Decide(rec, remote), dir);
      }
    } else {
      s1 := s;
    }
  }

  lemma SentUnnumbered(s: State, k: nat)
    requires Valid(s) && k < |s.local.slots| && HasId(s.local.slots[k], 0) && 0 !in s.ignore
    ensures var s1 := SendLocal(s, k);
      && 0 !in s1.ignore && s1.local.slots[k] == Used(s.local.slots[k].rec.(attr := Nothing))
      && (if Accepts(s, 0)
          then s1.device.nextId == s.device.nextId + 1
               && HalfSent(s1, s.device.nextId, s.local.slots[k].rec.payload)
          else s1.device.nextId == s.device.nextId)
  {
    var rec := s.local.slots[k].rec;
    WriteStep(s.device, 0, rec.payload, s.device.nextId);
    var slots := s.local.slots[k := Used(rec.(attr := Nothing))];
    var at := FindLocal(slots, s.device.nextId);
    assert forall j :: 0 <= j < |slots| ==> !HasId(slots[j], s.device.nextId);
  }

  // The whole pass, position by position.
  lemma {:induction false} ModifiedPassSlots(s: State, k: nat, dir: Direction)
    requires Valid(s) && k <= |s.local.slots| && 0 !in s.ignore && dir.toRemote
    ensures var s' := LocalPass(s, k, |s.local.slots|, Modified, dir);
      && |s'.local.slots| == |s.local.slots|
      && (forall j :: 0 <= j < k ==> s'.local.slots[j] == s.local.slots[j])
      && (forall j :: k <= j < |s.local.slots| ==> ModifiedSlot(s.local.slots[j], s'.local.slots[j]))
    decreases |s.local.slots| - k
  {
    if k < |s.local.slots| {
      var s1 := ModifiedStop(s, k, dir);
      ModifiedPassSlots(s1, k + 1, dir);
    }
  }

  // And the numbers it hands out.
  lemma {:induction false} ModifiedPassSeed(s: State, k: nat, dir: Direction)
    requires Valid(s) && k <= |s.local.slots| && 0 !in s.ignore && dir.toRemote
    ensures LocalPass(s, k, |s.local.slots|, Modified, dir).device.nextId
         == s.device.nextId + if Accepts(s, 0) then |Unnumbered(s.local.slots, k, Modified)| else 0
    decreases |s.local.slots| - k
  {
    if k < |s.local.slots| {
      var s1 := ModifiedStop(s, k, dir);
      ModifiedPassSeed(s1, k + 1, dir);
      UnnumberedSame(s.local.slots, s1.local.slots, k + 1, Modified);
    }
  }

  // One stop of the pass: the m-th number is given to p now, or m1 stops on.
  lemma ModifiedNumbersNext(s: State, k: nat, m: nat, p: Payload, dir: Direction)
    returns (s1: State, m1: Option<nat>)
    requires Valid(s) && k < |s.local.slots| && Accepts(s, 0) && 0 !in s.ignore && dir.toRemote
    requires m < |Unnumbered(s.local.slots, k, Modified)| && Unnumbered(s.local.slots, k, Modified)[m] == p
    ensures Valid(s1) && Accepts(s1, 0) && 0 !in s1.ignore && |s1.local.slots| == |s.local.slots|
    ensures LocalPass(s, k, |s.local.slots|, Modified, dir)
         == LocalPass(s1, k + 1, |s.local.slots|, Modified, dir)
    ensures m1.None? ==> m == 0 && 0 < s.device.nextId < s1.device.nextId && HalfSent(s1, s.device.nextId, p)
    ensures m1.Some? ==>
      && m1.value < |Unnumbered(s1.local.slots, k + 1, Modified)|
      && Unnumbered(s1.local.slots, k + 1, Modified)[m1.value] == p
      && s1.device.nextId + m1.value == s.device.nextId + m
  {
    s1 := ModifiedStop(s, k, dir);
    UnnumberedSame(s.local.slots, s1.local.slots, k + 1, Modified);
    m1 := HeadOrRest(s.local.slots[k], Modified, Unnumbered(s.local.slots, k + 1, Modified), m);
  }

  lemma {:induction false} ModifiedNumbers(s: State, k: nat, m: nat, id: RecordId, p: Payload, dir: Direction)
    requires Valid(s) && k <= |s.local.slots| && Accepts(s, 0) && 0 !in s.ignore && dir.toRemote
    requires m < |Unnumbered(s.local.slots, k, Modified)| && Unnumbered(s.local.slots, k, Modified)[m] == p
    requires id == s.device.nextId + m
    ensures HalfSent(LocalPass(s, k, |s.local.slots|, Modified, dir), id, p)
    decreases |s.local.slots| - k
  {
    if k < |s.local.slots| {
      var s1, m1 := ModifiedNumbersNext(s, k, m, p, dir);
      if m1.Some? {
        ModifiedNumbers(s1, k + 1, m1.value, id, p, dir);
      } else {
        HalfSentRests(s1, k + 1, Modified, id, p, dir);
      }
    }
  }

  // Nothing later touches such a record.
  lemma HalfSentRests(s: State, k: nat, flag: Attr, id: RecordId, p: Payload, dir: Direction)
    requires Valid(s) && k <= |s.local.slots| && 0 < id < s.device.nextId && HalfSent(s, id, p)
    ensures HalfSent(LocalPass(s, k, |s.local.slots|, flag, dir), id, p)
  {
    LocalPassCell(s, k, flag, dir, id);
  }

  /* ----- Deleted records without an identifier ----- */

  predicate DeletedSlot(a: Slot, b: Slot) {
    if !Selected(a, Deleted) || a.rec.id == 0 then b == a else b.Vacant? || b.rec.id == a.rec.id
  }

  lemma DeletedStop(s: State, k: nat) returns (s1: State)
    requires Valid(s) && k < |s.local.slots|
    ensures Valid(s1) && s1.device.nextId == s.device.nextId && |s1.local.slots| == |s.local.slots|
    ensures DeletedSlot(s.local.slots[k], s1.local.slots[k])
    ensures forall j :: 0 <= j < |s.local.slots| && j != k ==> s1.local.slots[j] == s.local.slots[j]
    ensures LocalPass(s, k, |s.local.slots|, Deleted, BothWays)
         == LocalPass(s1, k + 1, |s.local.slots|, Deleted, BothWays)
  {
    if Selected(s.local.slots[k], Deleted) {
      LocalVisitStep(s, k, Deleted, BothWays, 1);
      s1 := SyncLocal(s, k, BothWays);
      var rec := s.local.slots[k].rec;
      if rec.id !in s.ignore {
        var remote := ReadById(s.device, rec.id);
        DecideRunnable(s, k, remote);
        SeedStays(s, k, remote, Decide(rec, remote), BothWays);
        if rec.id == 0 { ErasedStays(s, k); }
      }
    } else {
      s1 := s;
    }
  }

  // A record deleted before the device ever saw it stays deleted until the purge.
  lemma ErasedStays(s: State, k: nat)
    requires Valid(s) && k < |s.local.slots| && HasId(s.local.slots[k], 0) && Selected(s.local.slots[k], Deleted)
    requires 0 !in s.ignore
    ensures SyncLocal(s, k, BothWays).local.slots == s.local.slots
  {
    var rec := s.local.slots[k].rec;
    var remote := ReadById(s.device, 0);
    var es := Decide(rec, remote);
    assert FindDevice(s.device.records, 0).None?;
    assert es == [Erase, MarkDeleted] && es[1..] == [MarkDeleted] && es[1..][1..] == [];
    var s1 := DeleteFromPilot(s, 0);
    assert ApplyAll(s1, k, remote, es[1..], BothWays) == Apply(s1, k, remote, MarkDeleted);
    assert s.local.slots[k := Used(rec.(attr := Deleted))] == s.local.slots;
  }

  lemma {:induction false} DeletedPassSlots(s: State, k: nat)
    requires Valid(s) && k <= |s.local.slots|
    ensures var s' := LocalPass(s, k, |s.local.slots|, Deleted, BothWays);
      && s'.device.nextId == s.device.nextId && |s'.local.slots| == |s.local.slots|
      && (forall j :: 0 <= j < k ==> s'.local.slots[j] == s.local.slots[j])
      && (forall j :: k <= j < |s.local.slots| ==> DeletedSlot(s.local.slots[j], s'.local.slots[j]))
    decreases |s.local.slots| - k
  {
    if k < |s.local.slots| {
      var s1 := DeletedStop(s, k);
      DeletedPassSlots(s1, k + 1);
    }
  }

  /* ----- What ends without an identifier ----- */

  // The records without an identifier, in order, leaving out deleted ones.
  function Loose(slots: seq<Slot>): seq<LocalRecord> {
    if slots == [] then [] else LooseHead(slots[0]) + Loose(slots[1..])
  }

  function LooseHead(slot: Slot): seq<LocalRecord> {
    if HasId(slot, 0) && !slot.rec.attr.Deleted? then [slot.rec] else []
  }

  // A record that has no identifier and gets none, or loses the one it has: a new
  // record whose write is refused, and any other record without one.
  predicate Strays(slot: Slot, rejects: set<RecordId>) {
    slot.Used? && !slot.rec.attr.Deleted? && if Selected(slot, New) then slot.rec.id in rejects else slot.rec.id == 0
  }

  // What becomes of such records: they stay on the PC, new and modified ones
  // marked clean.
  function Ends(slots: seq<Slot>, rejects: set<RecordId>): seq<LocalRecord> {
    if slots == [] then [] else EndHead(slots[0], rejects) + Ends(slots[1..], rejects)
  }

  function EndHead(slot: Slot, rejects: set<RecordId>): seq<LocalRecord> {
    if !Strays(slot, rejects) then []
    else if Selected(slot, New) || Selected(slot, Modified) then [slot.rec.(id := 0, attr := Nothing)]
    else [slot.rec]
  }

  lemma {:induction false} LooseAreEnds(a: seq<Slot>, d: seq<Slot>, rejects: set<RecordId>)
    requires |a| <= |d|
    requires forall j :: 0 <= j < |a| ==> LooseHead(d[j]) == EndHead(a[j], rejects)
    requires forall j :: |a| <= j < |d| ==> LooseHead(d[j]) == []
    ensures Loose(d) == Ends(a, rejects)
    decreases |d|
  {
    if d != [] {
      var a', d' := if a == [] then [] else a[1..], d[1..];
      assert forall j :: 0 <= j < |d'| ==> d'[j] == d[j + 1];
      assert forall j :: 0 <= j < |a'| ==> a'[j] == a[j + 1];
      LooseAreEnds(a', d', rejects);
    }
  }

  lemma {:induction false} PurgeKeepsLoose(slots: seq<Slot>)
    ensures Loose(Purge(slots)) == Loose(slots)
    decreases |slots|
  {
    if slots != [] {
      PurgeKeepsLoose(slots[1..]);
      if Remains(slots[0]) {
        var p := Purge(slots);
        assert p[0] == slots[0] && p[1..] == Purge(slots[1..]);
      }
    }
  }

  // A position through the four stages of a run.
  lemma StrayThrough(a: Slot, b: Slot, c: Slot, d: Slot, e: Slot, rejects: set<RecordId>)
    requires b == a || (a.Used? && a.rec.id != 0 && (b.Vacant? || b.rec.id == a.rec.id))
    requires Selected(a, New) || Selected(b, New) ==> b == a
    requires NewSlot(b, c, rejects) && ModifiedSlot(c, d) && DeletedSlot(d, e)
    ensures LooseHead(e) == EndHead(a, rejects)
    ensures HasId(e, 0) ==> !Selected(e, New) && !Selected(e, Modified)
  {
  }

  // Two rows of records with an element each.
  lemma {:induction false} LooseAt(slots: seq<Slot>, j: nat)
    requires j < |slots|
    ensures HasId(slots[j], 0) && !slots[j].rec.attr.Deleted? ==> slots[j].rec in Loose(slots)
    decreases |slots|
  {
    if j > 0 { LooseAt(slots[1..], j - 1); }
  }

  lemma {:induction false} LooseIs(slots: seq<Slot>, r: LocalRecord)
    requires r in Loose(slots)
    ensures exists j :: 0 <= j < |slots| && slots[j] == Used(r) && HasId(slots[j], 0)
    decreases |slots|
  {
    if r in LooseHead(slots[0]) {
      assert slots[0] == Used(r);
    } else {
      LooseIs(slots[1..], r);
      var j :| 0 <= j < |slots[1..]| && slots[1..][j] == Used(r) && HasId(slots[1..][j], 0);
      assert slots[j + 1] == Used(r);
    }
  }

  lemma {:induction false} EndsAt(slots: seq<Slot>, rejects: set<RecordId>, j: nat)
    requires j < |slots| && Strays(slots[j], rejects)
    ensures Ends(slots, rejects) != []
    ensures forall r :: r in EndHead(slots[j], rejects) ==> r in Ends(slots, rejects)
    decreases |slots|
  {
    if j > 0 { EndsAt(slots[1..], rejects, j - 1); }
  }

  lemma {:induction false} NoEnds(slots: seq<Slot>, rejects: set<RecordId>)
    requires forall j :: 0 <= j < |slots| ==> !Strays(slots[j], rejects)
    ensures Ends(slots, rejects) == []
    decreases |slots|
  {
    if slots != [] { NoEnds(slots[1..], rejects); }
  }
}
