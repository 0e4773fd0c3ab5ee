// Whole passes, and then the whole two-way run, one identifier at a time.
module SyncPasses {
  import opened Records
  import opened SyncState
  import opened SyncCells
  import opened SyncSteps

  ghost predicate DeviceHas(ds: seq<DeviceRecord>, id: RecordId, k: nat) {
    exists j :: k <= j < |ds| && ds[j].id == id
  }

  ghost predicate LocalHas(slots: seq<Slot>, id: RecordId, k: nat) {
    exists j :: k <= j < |slots| && HasId(slots[j], id)
  }

  // What a device pass leaves of the positions it finds: new records and records
  // without an identifier stay as they are, the others keep their place and
  // identifier.
  ghost predicate NumberedOnly(a: seq<Slot>, b: seq<Slot>) {
    && |a| <= |b|
    && (forall j :: 0 <= j < |a| ==>
          b[j] == a[j] || (a[j].Used? && a[j].rec.id != 0 && (b[j].Vacant? || b[j].rec.id == a[j].rec.id)))
    && (forall j :: 0 <= j < |a| && (Selected(a[j], New) || Selected(b[j], New)) ==> b[j] == a[j])
    && (forall j :: |a| <= j < |b| && b[j].Used? ==> b[j].rec.id != 0 && !Selected(b[j], New))
  }

  // The state after one stop, named so that a pass can be followed stop by stop.
  lemma RemotePassNext(s: State, k: nat, scan: Scan, dir: Direction, id: RecordId) returns (s1: State)
    requires Valid(s) && k < |s.device.records|
    ensures Valid(s1) && DeviceFrame(s.device, s1.device, s.device.records[k].id)
    ensures |s1.device.records| == |s.device.records|
    ensures RemotePass(s, k, |s.device.records|, scan, dir)
         == RemotePass(s1, k + 1, |s.device.records|, scan, dir)
    ensures 0 < id < s.device.nextId ==>
            CellOf(s1, id) == if id == s.device.records[k].id
                              then RemoteVisit(CellOf(s, id), scan, dir, Accepts(s, id))
                              else CellOf(s, id)
  {
    RemoteStep(s, k, scan, dir, id);
    s1 := if Visits(scan, s.device.records[k]) then SyncRemote(s, ComputeAttr(s.device.records[k]), dir) else s;
  }

  lemma RemotePassFrame(s: State, k: nat, scan: Scan, dir: Direction) returns (s1: State)
    requires Valid(s) && k < |s.device.records|
    ensures Valid(s1) && |s1.device.records| == |s.device.records|
    ensures s1.device.nextId == s.device.nextId && NumberedOnly(s.local.slots, s1.local.slots)
    ensures RemotePass(s, k, |s.device.records|, scan, dir)
         == RemotePass(s1, k + 1, |s.device.records|, scan, dir)
  {
    var d := s.device.records[k];
    RemoteStep(s, k, scan, dir, d.id);
    s1 := if Visits(scan, d) then SyncRemote(s, ComputeAttr(d), dir) else s;
    if Visits(scan, d) && d.id !in s.ignore {
      var at := FindLocal(s.local.slots, d.id);
      if at.Some? {
        var es := Decide(s.local.slots[at.value].rec, ComputeAttr(d));
        DecideRunnable(s, at.value, ComputeAttr(d));
        ApplyAllStep(s, at.value, ComputeAttr(d), es, dir, d.id);
        NoNewRecord(s, at.value, ComputeAttr(d), es, dir);
        SeedStays(s, at.value, ComputeAttr(d), es, dir);
      } else {
        UnmatchedSlots(s, ComputeAttr(d), dir);
      }
    }
  }

  lemma UnmatchedSlots(s: State, remote: PilotRecord, dir: Direction)
    requires remote.id != 0 && FindLocal(s.local.slots, remote.id).None?
    ensures Unmatched(s, remote, dir).device == s.device
    ensures NumberedOnly(s.local.slots, Unmatched(s, remote, dir).local.slots)
  {
    var slots := s.local.slots + [Used(Stored(remote))];
    var at := FindLocal(slots, remote.id);
    assert HasId(slots[|s.local.slots|], remote.id);
    assert at.Some?;
    assert forall j :: 0 <= j < |s.local.slots| ==> !HasId(slots[j], remote.id);
    assert slots[at.value := Used(Stored(remote))] == slots;
  }

  // No effect makes a record new.
  lemma {:induction false} NoNewRecord(s: State, i: nat, remote: PilotRecord, es: seq<Effect>, dir: Direction)
    requires Valid(s) && Runnable(s, i, remote, es)
    ensures var b := ApplyAll(s, i, remote, es, dir).local.slots;
      |b| == |s.local.slots| && (b[i] == s.local.slots[i] || b[i].Vacant? || !b[i].rec.attr.New?)
    decreases |es|
  {
    if es != [] {
      if Permitted(es[0], dir) {
        if es[0].Keep? { LocalAtIs(s.local.slots, i); }
        ApplyStep(s, i, remote, es, 1);
      } else {
        SkipStep(s, i, remote, es);
      }
      NoNewRecord(if Permitted(es[0], dir) then Apply(s, i, remote, es[0]) else s, i, remote, es[1..], dir);
    }
  }

  // Only writing a record without an identifier moves the device's seed.
  lemma {:induction false} SeedStays(s: State, i: nat, remote: PilotRecord, es: seq<Effect>, dir: Direction)
    requires Valid(s) && Runnable(s, i, remote, es) && (remote.id != 0 || Send !in es)
    ensures ApplyAll(s, i, remote, es, dir).device.nextId == s.device.nextId
    decreases |es|
  {
    if es != [] {
      if Permitted(es[0], dir) {
        ApplyStep(s, i, remote, es, remote.id);
      } else {
        SkipStep(s, i, remote, es);
      }
      SeedStays(if Permitted(es[0], dir) then Apply(s, i, remote, es[0]) else s, i, remote, es[1..], dir);
    }
  }

  lemma {:induction false} RemotePassSlots(s: State, k: nat, scan: Scan, dir: Direction)
    requires Valid(s) && k <= |s.device.records|
    ensures var s' := RemotePass(s, k, |s.device.records|, scan, dir);
      s'.device.nextId == s.device.nextId && NumberedOnly(s.local.slots, s'.local.slots)
    decreases |s.device.records| - k
  {
    if k < |s.device.records| {
      var s1 := RemotePassFrame(s, k, scan, dir);
      RemotePassSlots(s1, k + 1, scan, dir);
    }
  }

  // What every pass keeps of the device, and what a device pass keeps besides.
  predicate SeedKept(a: Device, b: Device) {
    b.nextId >= a.nextId && b.rejects == a.rejects
  }

  predicate DeviceKept(a: Device, b: Device) {
    SeedKept(a, b) && |b.records| == |a.records|
  }

  lemma {:induction false} RemotePassCell(s: State, k: nat, scan: Scan, dir: Direction, id: RecordId)
    requires Valid(s) && k <= |s.device.records|
    ensures Valid(RemotePass(s, k, |s.device.records|, scan, dir))
    ensures DeviceKept(s.device, RemotePass(s, k, |s.device.records|, scan, dir).device)
    ensures 0 < id < s.device.nextId && DeviceHas(s.device.records, id, k) ==>
            CellOf(RemotePass(s, k, |s.device.records|, scan, dir), id)
            == RemoteVisit(CellOf(s, id), scan, dir, id !in s.device.rejects)
    ensures 0 < id < s.device.nextId && !DeviceHas(s.device.records, id, k) ==>
            CellOf(RemotePass(s, k, |s.device.records|, scan, dir), id) == CellOf(s, id)
    decreases |s.device.records| - k
  {
    if k < |s.device.records| {
      var s1 := RemotePassNext(s, k, scan, dir, id);
      RemotePassCell(s1, k + 1, scan, dir, id);
      DeviceHasStep(s.device.records, s1.device.records, k, id);
    }
  }

  lemma DeviceHasStep(a: seq<DeviceRecord>, b: seq<DeviceRecord>, k: nat, id: RecordId)
    requires DistinctDevice(a) && k < |a| == |b|
    requires forall j :: 0 <= j < |a| ==> b[j].id == a[j].id
    ensures DeviceHas(a, id, k) <==> a[k].id == id || DeviceHas(b, id, k + 1)
    ensures a[k].id == id ==> !DeviceHas(b, id, k + 1)
  {
    forall j | k + 1 <= j < |a|
      ensures a[j].id == b[j].id && a[k].id != a[j].id
    {
    }
  }

  // Slots a local pass does not stop at are left alone.
  ghost predicate OnlySelected(a: seq<Slot>, b: seq<Slot>, k: nat, flag: Attr) {
    && |b| == |a|
    && (forall j :: 0 <= j < |a| && (j < k || !Selected(a[j], flag)) ==> b[j] == a[j])
    && (forall j :: 0 <= j < |a| ==> b[j].Vacant? || (a[j].Used? && b[j].rec.id == a[j].rec.id))
  }

  lemma LocalPassNext(s: State, k: nat, flag: Attr, dir: Direction, id: RecordId) returns (s1: State)
    requires Valid(s) && k < |s.local.slots|
    ensures Valid(s1) && s.device.nextId <= s1.device.nextId && s1.device.rejects == s.device.rejects
    ensures if Selected(s.local.slots[k], flag) then SlotFrame(s.local.slots, s1.local.slots, k)
            else s1.local.slots == s.local.slots
    ensures LocalPass(s, k, |s.local.slots|, flag, dir) == LocalPass(s1, k + 1, |s.local.slots|, flag, dir)
    ensures 0 < id < s.device.nextId ==>
            CellOf(s1, id) == if HasId(s.local.slots[k], id)
                              then LocalVisit(CellOf(s, id), flag, dir, Accepts(s, id))
                              else CellOf(s, id)
  {
    if Selected(s.local.slots[k], flag) {
      LocalVisitStep(s, k, flag, dir, id);
      s1 := SyncLocal(s, k, dir);
    } else {
      if HasId(s.local.slots[k], id) && id != 0 { LocalAtIs(s.local.slots, k); }
      s1 := s;
    }
  }

  lemma {:induction false} LocalPassCell(s: State, k: nat, flag: Attr, dir: Direction, id: RecordId)
    requires Valid(s) && k <= |s.local.slots|
    ensures Valid(LocalPass(s, k, |s.local.slots|, flag, dir))
    ensures SeedKept(s.device, LocalPass(s, k, |s.local.slots|, flag, dir).device)
    ensures OnlySelected(s.local.slots, LocalPass(s, k, |s.local.slots|, flag, dir).local.slots, k, flag)
    ensures 0 < id < s.device.nextId && LocalHas(s.local.slots, id, k) ==>
            CellOf(LocalPass(s, k, |s.local.slots|, flag, dir), id)
            == LocalVisit(CellOf(s, id), flag, dir, id !in s.device.rejects)
    ensures 0 < id < s.device.nextId && !LocalHas(s.local.slots, id, k) ==>
            CellOf(LocalPass(s, k, |s.local.slots|, flag, dir), id) == CellOf(s, id)
    decreases |s.local.slots| - k
  {
    if k < |s.local.slots| {
      var s1 := LocalPassNext(s, k, flag, dir, id);
      LocalPassCell(s1, k + 1, flag, dir, id);
      if id != 0 { LocalHasStep(s.local.slots, s1.local.slots, k, id); }
    }
  }

  lemma LocalHasStep(a: seq<Slot>, b: seq<Slot>, k: nat, id: RecordId)
    requires DistinctLocal(a) && k < |a| == |b| && id != 0
    requires forall j :: 0 <= j < |a| && j != k ==> b[j] == a[j]
    ensures LocalHas(a, id, k) <==> HasId(a[k], id) || LocalHas(b, id, k + 1)
    ensures HasId(a[k], id) ==> !LocalHas(b, id, k + 1)
  {
    forall j | k + 1 <= j < |a|
      ensures HasId(a[j], id) == HasId(b[j], id) && !(HasId(a[k], id) && HasId(b[j], id))
    {
    }
  }

  // What a freshly numbered record looks like on both sides.
  ghost predicate Installed(c: Cell, id: RecordId) {
    && c.dev.Some? && c.loc.Some?
    && c.dev.value == Written(id, c.loc.value.payload)
    && c.loc.value == LocalRecord(id, c.loc.value.payload, Nothing, false)
  }

  // b is what the pass over new records turns the position a into.
  predicate NewSlot(a: Slot, b: Slot, rejects: set<RecordId>) {
    if Selected(a, New) then
      && b.Used? && b.rec == a.rec.(attr := Nothing, id := b.rec.id)
      && (if a.rec.id in rejects then b.rec.id == 0 else b.rec.id != 0 && (a.rec.id != 0 ==> b.rec.id == a.rec.id))
    else b == a
  }

  ghost predicate OnlyNew(a: seq<Slot>, b: seq<Slot>, k: nat, rejects: set<RecordId>) {
    && |b| == |a|
    && (forall j :: 0 <= j < k && j < |a| ==> b[j] == a[j])
    && (forall j :: k <= j < |a| ==> NewSlot(a[j], b[j], rejects))
  }

  lemma NewPassNext(s: State, k: nat, id: RecordId) returns (s1: State)
    requires Valid(s) && k < |s.local.slots|
    ensures Valid(s1) && s.device.nextId <= s1.device.nextId <= s.device.nextId + 1
    ensures s1.device.rejects == s.device.rejects && s1.local.archive == s.local.archive
    ensures |s1.local.slots| == |s.local.slots|
    ensures forall j :: 0 <= j < |s.local.slots| && j != k ==> s1.local.slots[j] == s.local.slots[j]
    ensures NewSlot(s.local.slots[k], s1.local.slots[k], s.device.rejects)
    ensures NewPass(s, k, |s.local.slots|) == NewPass(s1, k + 1, |s.local.slots|)
    ensures 0 < id < s.device.nextId ==>
            CellOf(s1, id) == if HasId(s.local.slots[k], id) then NewVisit(CellOf(s, id), Accepts(s, id))
                              else CellOf(s, id)
    ensures id == s.device.nextId && id < s1.device.nextId ==> Installed(CellOf(s1, id), id)
    ensures !Accepts(s, 0) ==> s1.device.nextId == s.device.nextId
    ensures s1 == if Selected(s.local.slots[k], New) then InstallNew(s, k) else s
  {
    if Selected(s.local.slots[k], New) {
      InstallStep(s, k, id);
      s1 := InstallNew(s, k);
      var rec := s.local.slots[k].rec;
      WriteStep(s.device, rec.id, rec.payload, s.device.nextId);
      if rec.id == 0 && Accepts(s, 0) { LocalAtIs(s1.local.slots, k); }
    } else {
      if HasId(s.local.slots[k], id) && id != 0 { LocalAtIs(s.local.slots, k); }
      s1 := s;
    }
  }

  lemma {:induction false} NewPassCell(s: State, k: nat, id: RecordId)
    requires Valid(s) && k <= |s.local.slots|
    ensures var s' := NewPass(s, k, |s.local.slots|);
      && Valid(s')
      && s'.device.nextId >= s.device.nextId && s'.device.rejects == s.device.rejects
      && OnlyNew(s.local.slots, s'.local.slots, k, s.device.rejects)
      && (0 < id < s.device.nextId ==>
            CellOf(s', id) == if LocalHas(s.local.slots, id, k)
                              then NewVisit(CellOf(s, id), id !in s.device.rejects)
                              else CellOf(s, id))
      && (s.device.nextId <= id < s'.device.nextId ==> Installed(CellOf(s', id), id))
    decreases |s.local.slots| - k
  {
    if k < |s.local.slots| {
      var s1 := NewPassNext(s, k, id);
      NewPassCell(s1, k + 1, id);
      var s' := NewPass(s1, k + 1, |s.local.slots|);
      assert s'.local.slots[k] == s1.local.slots[k];
      if id != 0 { LocalHasStep(s.local.slots, s1.local.slots, k, id); }
    }
  }

  // The payloads of the records with a status but no identifier, in order.
  function Unnumbered(slots: seq<Slot>, k: nat, flag: Attr): seq<Payload>
    requires k <= |slots|
    decreases |slots| - k
  {
    if k == |slots| then []
    else Head(slots[k], flag) + Unnumbered(slots, k + 1, flag)
  }

  function Head(slot: Slot, flag: Attr): seq<Payload> {
    if Selected(slot, flag) && slot.rec.id == 0 then [slot.rec.payload] else []
  }

  lemma {:induction false} UnnumberedSame(a: seq<Slot>, b: seq<Slot>, k: nat, flag: Attr)
    requires k <= |a| <= |b|
    requires forall j :: k <= j < |a| ==> Head(b[j], flag) == Head(a[j], flag)
    requires forall j :: |a| <= j < |b| ==> Head(b[j], flag) == []
    ensures Unnumbered(b, k, flag) == Unnumbered(a, k, flag)
    decreases |a| - k
  {
    if k < |a| {
      assert Head(b[k], flag) == Head(a[k], flag);
      UnnumberedSame(a, b, k + 1, flag);
    } else {
      NoneUnnumbered(b, k, flag);
    }
  }

  lemma {:induction false} NoneUnnumbered(slots: seq<Slot>, k: nat, flag: Attr)
    requires k <= |slots| && forall j :: k <= j < |slots| ==> Head(slots[j], flag) == []
    ensures Unnumbered(slots, k, flag) == []
    decreases |slots| - k
  {
    if k < |slots| {
      assert Head(slots[k], flag) == [];
      NoneUnnumbered(slots, k + 1, flag);
    }
  }

  // Nothing a device pass stores or changes is a new or modified record without
  // an identifier.
  lemma UnnumberedStay(a: seq<Slot>, b: seq<Slot>, flag: Attr)
    requires NumberedOnly(a, b)
    ensures Unnumbered(b, 0, flag) == Unnumbered(a, 0, flag)
  {
    UnnumberedSame(a, b, 0, flag);
  }

  lemma NewPassNumber(s: State, k: nat) returns (s1: State)
    requires Valid(s) && k < |s.local.slots| && 0 !in s.device.rejects
    ensures Valid(s1) && s1.device.rejects == s.device.rejects && |s1.local.slots| == |s.local.slots|
    ensures forall j :: 0 <= j < |s.local.slots| && j != k ==> s1.local.slots[j] == s.local.slots[j]
    ensures NewPass(s, k, |s.local.slots|) == NewPass(s1, k + 1, |s.local.slots|)
    ensures if Selected(s.local.slots[k], New) && s.local.slots[k].rec.id == 0
            then s1.device.nextId == s.device.nextId + 1
                 && InstalledAs(s1, s.device.nextId, s.local.slots[k].rec.payload)
            else s1.device.nextId == s.device.nextId
  {
    if Selected(s.local.slots[k], New) {
      InstallStep(s, k, 1);
      s1 := InstallNew(s, k);
      var rec := s.local.slots[k].rec;
      WriteStep(s.device, rec.id, rec.payload, s.device.nextId);
      if rec.id == 0 { LocalAtIs(s1.local.slots, k); }
    } else {
      s1 := s;
    }
  }

  // Identifier id was given to a new record with payload p.
  ghost predicate InstalledAs(s: State, id: RecordId, p: Payload) {
    Installed(CellOf(s, id), id) && CellOf(s, id).dev.value.payload == p
  }

  lemma {:induction false} NewPassSeed(s: State, k: nat)
    requires Valid(s) && k <= |s.local.slots| && 0 !in s.device.rejects
    ensures NewPass(s, k, |s.local.slots|).device.nextId
         == s.device.nextId + |Unnumbered(s.local.slots, k, New)|
    decreases |s.local.slots| - k
  {
    if k < |s.local.slots| {
      var s1 := NewPassNumber(s, k);
      NewPassSeed(s1, k + 1);
      UnnumberedSame(s.local.slots, s1.local.slots, k + 1, New);
    }
  }

  lemma {:induction false} RefusedSeed(s: State, k: nat)
    requires Valid(s) && k <= |s.local.slots| && !Accepts(s, 0)
    ensures NewPass(s, k, |s.local.slots|).device.nextId == s.device.nextId
    decreases |s.local.slots| - k
  {
    if k < |s.local.slots| {
      var s1 := NewPassNext(s, k, 1);
      RefusedSeed(s1, k + 1);
    }
  }

  // How many records with a status but no identifier stand from k up to j.
  function Rank(slots: seq<Slot>, k: nat, j: nat, flag: Attr): nat
    requires k <= j <= |slots|
    decreases j - k
  {
    if k == j then 0 else |Head(slots[k], flag)| + Rank(slots, k + 1, j, flag)
  }

  lemma {:induction false} RankSame(a: seq<Slot>, b: seq<Slot>, k: nat, j: nat, flag: Attr)
    requires k <= j <= |a| == |b|
    requires forall i :: k <= i < j ==> Head(b[i], flag) == Head(a[i], flag)
    ensures Rank(b, k, j, flag) == Rank(a, k, j, flag)
    decreases j - k
  {
    if k < j { RankSame(a, b, k + 1, j, flag); }
  }

  // A record's rank is its place among their payloads.
  lemma {:induction false} RankedPayload(slots: seq<Slot>, k: nat, j: nat, flag: Attr)
    requires k <= j < |slots| && Selected(slots[j], flag) && slots[j].rec.id == 0
    ensures Rank(slots, k, j, flag) < |Unnumbered(slots, k, flag)|
    ensures Unnumbered(slots, k, flag)[Rank(slots, k, j, flag)] == slots[j].rec.payload
    decreases j - k
  {
    if k < j { RankedPayload(slots, k + 1, j, flag); }
  }

  // The m-th element of a row is its head's, or one of the rest.
  lemma HeadOrRest(slot: Slot, flag: Attr, rest: seq<Payload>, m: nat) returns (m1: Option<nat>)
    requires m < |Head(slot, flag) + rest|
    ensures m1.None? ==> m == 0 && Head(slot, flag) == [(Head(slot, flag) + rest)[m]]
    ensures m1.Some? ==> m1.value < |rest| && (Head(slot, flag) + rest)[m] == rest[m1.value]
    ensures m1.Some? ==> m == m1.value + |Head(slot, flag)|
  {
    if Head(slot, flag) == [] {
      m1 := Some(m);
    } else if m > 0 {
      m1 := Some(m - 1);
    } else {
      m1 := None;
    }
  }

  // One stop of the pass: the m-th number is given to p now, or m1 stops on.
  lemma NewPassNumbersNext(s: State, k: nat, m: nat, p: Payload) returns (s1: State, m1: Option<nat>)
    requires Valid(s) && k < |s.local.slots| && 0 !in s.device.rejects
    requires m < |Unnumbered(s.local.slots, k, New)| && Unnumbered(s.local.slots, k, New)[m] == p
    ensures Valid(s1) && 0 !in s1.device.rejects && |s1.local.slots| == |s.local.slots|
    ensures NewPass(s, k, |s.local.slots|) == NewPass(s1, k + 1, |s.local.slots|)
    ensures m1.None? ==> m == 0 && s1.device.nextId == s.device.nextId + 1 && InstalledAs(s1, s.device.nextId, p)
    ensures m1.Some? ==>
      && m1.value < |Unnumbered(s1.local.slots, k + 1, New)| && Unnumbered(s1.local.slots, k + 1, New)[m1.value] == p
      && s1.device.nextId + m1.value == s.device.nextId + m
  {
    s1 := NewPassNumber(s, k);
    UnnumberedSame(s.local.slots, s1.local.slots, k + 1, New);
    m1 := HeadOrRest(s.local.slots[k], New, Unnumbered(s.local.slots, k + 1, New), m);
  }

  // New records without an identifier get the device's next ones, consecutively
  // and in order, and are on both sides under them.
  lemma {:induction false} NewPassNumbers(s: State, k: nat, m: nat, id: RecordId, p: Payload)
    requires Valid(s) && k <= |s.local.slots| && 0 !in s.device.rejects
    requires m < |Unnumbered(s.local.slots, k, New)| && Unnumbered(s.local.slots, k, New)[m] == p
    requires id == s.device.nextId + m
    ensures InstalledAs(NewPass(s, k, |s.local.slots|), id, p)
    decreases |s.local.slots| - k
  {
    if k < |s.local.slots| {
      var s1, m1 := NewPassNumbersNext(s, k, m, p);
      if m1.Some? {
        NewPassNumbers(s1, k + 1, m1.value, id, p);
      } else {
        StaysInstalled(s1, k + 1, id);
      }
    }
  }

  lemma StaysInstalled(s: State, k: nat, id: RecordId)
    requires Valid(s) && k <= |s.local.slots| && 0 < id < s.device.nextId && Installed(CellOf(s, id), id)
    ensures CellOf(NewPass(s, k, |s.local.slots|), id) == CellOf(s, id)
  {
    NewPassCell(s, k, id);
  }
  // The pass just before it comes to position j: the records before it have been
  // given their numbers, and that at j is as it was.
  lemma {:induction false} NewPassReaches(s: State, k: nat, j: nat) returns (t: State)
    requires Valid(s) && k <= j < |s.local.slots| && Accepts(s, 0)
    ensures Valid(t) && |t.local.slots| == |s.local.slots| && t.local.slots[j] == s.local.slots[j]
    ensures t.device.nextId == s.device.nextId + Rank(s.local.slots, k, j, New) && Accepts(t, 0)
    ensures NewPass(s, k, |s.local.slots|) == NewPass(t, j, |s.local.slots|)
    decreases j - k
  {
    if k == j {
      t := s;
    } else {
      var s1 := NewPassNumber(s, k);
      t := NewPassReaches(s1, k + 1, j);
      RankSame(s.local.slots, s1.local.slots, k + 1, j, New);
    }
  }

  // So a new record without an identifier takes over the number of its rank.
  lemma NewPassGives(s: State, j: nat)
    requires Valid(s) && j < |s.local.slots| && Accepts(s, 0)
    requires Selected(s.local.slots[j], New) && s.local.slots[j].rec.id == 0
    ensures var s', id := AddPass(s), s.device.nextId + Rank(s.local.slots, 0, j, New);
      && |s'.local.slots| == |s.local.slots| && HasId(s'.local.slots[j], id)
      && InstalledAs(s', id, s.local.slots[j].rec.payload) && id < s'.device.nextId
  {
    var t := NewPassReaches(s, 0, j);
    var id := t.device.nextId;
    InstallStep(t, j, id);
    var t1 := InstallNew(t, j);
    WriteStep(t.device, 0, t.local.slots[j].rec.payload, id);
    LocalAtIs(t1.local.slots, j);
    assert NewPass(t, j, |s.local.slots|) == NewPass(t1, j + 1, |s.local.slots|);
    NewPassCell(t1, j + 1, id);
  }
}
