// The two copies, each of which makes one side the mirror image of the other.
module SyncCopies {
  import opened Records
  import opened SyncState
  import opened SyncCells
  import opened SyncSteps
  import opened SyncRuns
  import opened SyncResults
  import opened SyncReruns

  /* ----- Mirror images ----- */

  // Position by position the same clean records on both sides.
  ghost predicate Mirrored(s: State) {
    && |s.device.records| == |s.local.slots|
    && forall i :: 0 <= i < |s.local.slots| ==>
         !Flagged(s.device.records[i]) && s.local.slots[i] == Image(s.device.records[i])
  }

  function Image(d: DeviceRecord): Slot {
    Used(LocalRecord(d.id, d.payload, Nothing, false))
  }

  lemma MirrorIsFixed(s: State, fast: bool)
    requires Mirrored(s)
    ensures Synchronized(s, fast) == s
  {
    forall i | 0 <= i < |s.device.records|
      ensures FindLocal(s.local.slots, s.device.records[i].id).Some?
    {
      assert HasId(s.local.slots[i], s.device.records[i].id);
    }
    SettledIsFixed(s, fast);
  }

  /* ----- Copy from the device ----- */

  // One record of gnome_pilot_conduit_standard_real_copy_from_pilot.
  function CopyOneFrom(l: Store, d: DeviceRecord): Store {
    var remote := ComputeAttr(d);
    if remote.archived then ArchiveRemote(l, None, remote.(attr := Nothing, archived := false))
    else if !remote.attr.Deleted? then StoreRemote(l, remote.(attr := Nothing, archived := false))
    else l
  }

  function CopyFromPass(l: Store, ds: seq<DeviceRecord>, k: nat): Store
    requires k <= |ds|
    decreases |ds| - k
  {
    if k == |ds| then l else CopyFromPass(CopyOneFrom(l, ds[k]), ds, k + 1)
  }

  function CopiedFrom(s: State): State {
    Close(s.(local := CopyFromPass(Store([], s.local.archive), s.device.records, 0)))
  }

  function Images(ds: seq<DeviceRecord>): seq<Slot> {
    seq(|ds|, i requires 0 <= i < |ds| => Image(ds[i]))
  }

  // The archived device records, in order.
  function ArchivedOf(ds: seq<DeviceRecord>): seq<ArchiveEntry> {
    if ds == [] then []
    else (if ds[0].archived then [ArchiveEntry(ds[0].id, ds[0].payload)] else []) + ArchivedOf(ds[1..])
  }

  lemma ImagesCons(d: DeviceRecord, ds: seq<DeviceRecord>)
    ensures Images([d] + ds) == [Image(d)] + Images(ds)
  {
  }

  // What the first of a row of device records contributes to the copy.
  lemma CopyOneSlots(l: Store, d: DeviceRecord, rest: seq<DeviceRecord>)
    requires FindLocal(l.slots, d.id).None?
    ensures CopyOneFrom(l, d).slots == l.slots + (if Stays(d) then [Image(d)] else [])
    ensures CopyOneFrom(l, d).slots + Images(CleanUp(rest)) == l.slots + Images(CleanUp([d] + rest))
  {
    assert ([d] + rest)[1..] == rest;
    ImagesCons(d, CleanUp(rest));
  }

  lemma CopyOneArchive(l: Store, d: DeviceRecord, rest: seq<DeviceRecord>)
    ensures CopyOneFrom(l, d).archive + ArchivedOf(rest) == l.archive + ArchivedOf([d] + rest)
  {
    assert ([d] + rest)[1..] == rest;
  }

  lemma {:induction false} CopyFromPassStores(l: Store, ds: seq<DeviceRecord>, k: nat)
    requires DistinctDevice(ds) && k <= |ds|
    requires forall i, j :: k <= i < |ds| && 0 <= j < |l.slots| ==> !HasId(l.slots[j], ds[i].id)
    ensures CopyFromPass(l, ds, k) ==
            Store(l.slots + Images(CleanUp(ds[k..])), l.archive + ArchivedOf(ds[k..]))
    decreases |ds| - k
  {
    if k < |ds| {
      assert ds[k..] == [ds[k]] + ds[k + 1..];
      assert FindLocal(l.slots, ds[k].id).None?;
      CopyOneSlots(l, ds[k], ds[k + 1..]);
      CopyOneArchive(l, ds[k], ds[k + 1..]);
      CopyFromPassStores(CopyOneFrom(l, ds[k]), ds, k + 1);
    }
  }

  // After copying from the device the PC holds exactly the device's live
  // records, in their order, each archived device record was archived once, and
  // the two sides are mirror images.
  lemma CopyFromMirrors(s: State)
    requires DistinctDevice(s.device.records)
    ensures var after := CopiedFrom(s);
      && Mirrored(after)
      && after.device.records == ResetFlags(CleanUp(s.device.records))
      && after.local.archive == s.local.archive + ArchivedOf(s.device.records)
  {
    var ds := s.device.records;
    CopyFromPassStores(Store([], s.local.archive), ds, 0);
    assert ds[0..] == ds;
    var live := CleanUp(ds);
    CleanUpAt(ds, 1);
    assert [] + Images(live) == Images(live);
    NothingToPurge(Images(live));
  }

  /* ----- Copy to the device ----- */

  // One record of gnome_pilot_conduit_standard_real_copy_to_pilot.
  function CopyOneTo(s: State, i: nat): State
    requires i < |s.local.slots|
  {
    var slot := s.local.slots[i];
    if slot.Vacant? then s
    else if slot.rec.archived then s.(local := ArchiveLocal(s.local, i))
    else if slot.rec.attr.Deleted? then s
    else
      var marked := SetStatus(s.local, i, Nothing);
      var given := AssignedId(s.device, slot.rec.id);
      s.(device := WriteRecord(s.device, slot.rec.id, slot.rec.payload),
         local := if given.Some? then SetPilotId(marked, i, given.value) else marked)
  }

  function CopyToPass(s: State, k: nat, n: nat): State
    requires k <= n
    decreases n - k
  {
    if k == n || n > |s.local.slots| then s else CopyToPass(CopyOneTo(s, k), k + 1, n)
  }

  function CopiedTo(s: State): State {
    Close(CopyToPass(s.(device := s.device.(records := [])), 0, |s.local.slots|))
  }

  predicate Live(slot: Slot) {
    slot.Used? && !slot.rec.archived && !slot.rec.attr.Deleted?
  }

  // The contents the device accepts, in order.
  function Arriving(slots: seq<Slot>, rejects: set<RecordId>): seq<Payload> {
    if slots == [] then []
    else
      var last := slots[|slots| - 1];
      Arriving(slots[..|slots| - 1], rejects) +
      if Live(last) && last.rec.id !in rejects then [last.rec.payload] else []
  }

  function LivePayloads(slots: seq<Slot>): seq<Payload> {
    if slots == [] then []
    else
      var last := slots[|slots| - 1];
      LivePayloads(slots[..|slots| - 1]) + if Live(last) then [last.rec.payload] else []
  }

  // The archived PC records, in order.
  function ArchivedLocals(slots: seq<Slot>): seq<ArchiveEntry> {
    if slots == [] then []
    else
      var last := slots[|slots| - 1];
      ArchivedLocals(slots[..|slots| - 1]) +
      if last.Used? && last.rec.archived then [ArchiveEntry(last.rec.id, last.rec.payload)] else []
  }

  // What sending one live record the device does not hold yet does.
  lemma SendOne(t: State, k: nat) returns (newId: RecordId)
    requires ValidLocal(t.local.slots, t.device) && t.device.nextId > 0
    requires k < |t.local.slots| && Live(t.local.slots[k]) && Accepts(t, t.local.slots[k].rec.id)
    requires t.local.slots[k].rec.id != 0 ==> FindDevice(t.device.records, t.local.slots[k].rec.id).None?
    ensures var t1 := CopyOneTo(t, k);
      var rec := t.local.slots[k].rec;
      && newId != 0 && (rec.id != 0 ==> newId == rec.id)
      && t1.local == t.local.(slots := t.local.slots[k := Used(rec.(attr := Nothing, id := newId))])
      && t1.device.records == t.device.records + [Written(newId, rec.payload)]
      && t1.device.rejects == t.device.rejects && t1.device.nextId > 0
      && ValidLocal(t1.local.slots, t1.device)
  {
    var rec := t.local.slots[k].rec;
    SlotStep(t.local.slots, t.device, k, Used(rec.(attr := Nothing)), 1);
    var marked := SetStatus(t.local, k, Nothing);
    if rec.id != 0 {
      newId := rec.id;
      assert marked.slots[k := Used(rec.(attr := Nothing))] == marked.slots;
    } else {
      newId := t.device.nextId;
      var t1 := CopyOneTo(t, k);
      FreshIdStep(marked.slots, t1.device, k, newId, 1);
    }
  }

  lemma {:induction false} PurgeAppend(a: seq<Slot>, x: Slot)
    ensures Purge(a + [x]) == Purge(a) + if Remains(x) then [x] else []
    decreases |a|
  {
    if a == [] {
      assert ([x])[1..] == [];
    } else {
      assert (a + [x])[1..] == a[1..] + [x];
      PurgeAppend(a[1..], x);
    }
  }

  ghost predicate Copyable(s: State) {
    && ValidLocal(s.local.slots, s.device) && s.device.nextId > 0
    && (forall j :: 0 <= j < |s.local.slots| && Live(s.local.slots[j]) ==> Accepts(s, s.local.slots[j].rec.id))
  }

  function PayloadsOf(ds: seq<DeviceRecord>): seq<Payload> {
    seq(|ds|, i requires 0 <= i < |ds| => ds[i].payload)
  }

  ghost predicate Sendable(s: State) {
    ValidLocal(s.local.slots, s.device) && s.device.nextId > 0
  }

  /* ----- What arrives, refused writes or not ----- */

  // The copy of the PC side l0 has reached position k.
  ghost predicate Delivering(l0: Store, t: State, k: nat) {
    && k <= |l0.slots| == |t.local.slots|
    && ValidLocal(t.local.slots, t.device) && t.device.nextId > 0
    && PayloadsOf(t.device.records) == Arriving(l0.slots[..k], t.device.rejects)
    && t.local.archive == l0.archive + ArchivedLocals(l0.slots[..k])
    && (forall i :: 0 <= i < |t.device.records| ==>
          Stays(t.device.records[i]) && HeldBefore(t.local.slots, t.device.records[i].id, k))
    && (forall j :: k <= j < |l0.slots| ==> t.local.slots[j] == l0.slots[j])
  }

  ghost predicate HeldBefore(slots: seq<Slot>, id: RecordId, k: nat) {
    exists j :: 0 <= j < k && j < |slots| && HasId(slots[j], id) && Live(slots[j])
  }

  // Prefixes grow by one record.
  lemma PrefixGrows(slots: seq<Slot>, k: nat, rejects: set<RecordId>)
    requires k < |slots|
    ensures Arriving(slots[..k + 1], rejects) ==
            Arriving(slots[..k], rejects) +
            if Live(slots[k]) && slots[k].rec.id !in rejects then [slots[k].rec.payload] else []
    ensures ArchivedLocals(slots[..k + 1]) ==
            ArchivedLocals(slots[..k]) +
            if slots[k].Used? && slots[k].rec.archived then [ArchiveEntry(slots[k].rec.id, slots[k].rec.payload)]
            else []
  {
    assert slots[..k + 1][..k] == slots[..k];
  }

  // A record before k is still there when only the one at k changes.
  lemma HeldOn(a: seq<Slot>, b: seq<Slot>, id: RecordId, k: nat)
    requires |b| == |a| && HeldBefore(a, id, k) && forall j :: 0 <= j < |a| && j != k ==> b[j] == a[j]
    ensures HeldBefore(b, id, k + 1)
  {
    var j :| 0 <= j < k && j < |a| && HasId(a[j], id) && Live(a[j]);
    assert HasId(b[j], id) && Live(b[j]);
  }

  lemma NotYetHeld(l0: Store, t: State, k: nat)
    requires Delivering(l0, t, k) && k < |l0.slots| && Live(l0.slots[k]) && l0.slots[k].rec.id != 0
    ensures FindDevice(t.device.records, l0.slots[k].rec.id).None?
  {
    var at := FindDevice(t.device.records, l0.slots[k].rec.id);
  }

  // What a record that is not sent leaves behind.
  lemma DeliverNone(l0: Store, t: State, k: nat)
    requires Delivering(l0, t, k) && k < |l0.slots| && !(Live(l0.slots[k]) && l0.slots[k].rec.id !in t.device.rejects)
    ensures Delivering(l0, CopyOneTo(t, k), k + 1)
  {
    var slot, t1 := l0.slots[k], CopyOneTo(t, k);
    PrefixGrows(l0.slots, k, t.device.rejects);
    if slot.Used? && slot.rec.archived {
      SlotStep(t.local.slots, t.device, k, Vacant, 1);
    } else if Live(slot) {
      SlotStep(t.local.slots, t.device, k, Used(slot.rec.(attr := Nothing)), 1);
    }
    assert t1.device == t.device;
    forall i | 0 <= i < |t.device.records|
      ensures HeldBefore(t1.local.slots, t.device.records[i].id, k + 1)
    {
      HeldOn(t.local.slots, t1.local.slots, t.device.records[i].id, k);
    }
  }

  lemma DeliverOne(l0: Store, t: State, k: nat)
    requires Delivering(l0, t, k) && k < |l0.slots| && Live(l0.slots[k]) && l0.slots[k].rec.id !in t.device.rejects
    ensures Delivering(l0, CopyOneTo(t, k), k + 1)
  {
    PrefixGrows(l0.slots, k, t.device.rejects);
    var t1 := CopyOneTo(t, k);
    if l0.slots[k].rec.id != 0 { NotYetHeld(l0, t, k); }
    var newId := SendOne(t, k);
    assert HasId(t1.local.slots[k], newId) && Live(t1.local.slots[k]);
    forall i | 0 <= i < |t1.device.records|
      ensures Stays(t1.device.records[i]) && HeldBefore(t1.local.slots, t1.device.records[i].id, k + 1)
    {
      if i < |t.device.records| { HeldOn(t.local.slots, t1.local.slots, t.device.records[i].id, k); }
    }
    assert PayloadsOf(t1.device.records) == PayloadsOf(t.device.records) + [l0.slots[k].rec.payload];
  }

  lemma DeliverStep(l0: Store, t: State, k: nat)
    requires Delivering(l0, t, k) && k < |l0.slots|
    ensures Delivering(l0, CopyOneTo(t, k), k + 1) && CopyOneTo(t, k).device.rejects == t.device.rejects
  {
    if Live(l0.slots[k]) && l0.slots[k].rec.id !in t.device.rejects {
      DeliverOne(l0, t, k);
    } else {
      DeliverNone(l0, t, k);
    }
  }

  lemma {:induction false} DeliverAll(l0: Store, t: State, k: nat)
    requires Delivering(l0, t, k)
    ensures Delivering(l0, CopyToPass(t, k, |l0.slots|), |l0.slots|)
    ensures CopyToPass(t, k, |l0.slots|).device.rejects == t.device.rejects
    decreases |l0.slots| - k
  {
    if k < |l0.slots| {
      DeliverStep(l0, t, k);
      DeliverAll(l0, CopyOneTo(t, k), k + 1);
    }
  }

  lemma CopyToDelivers(s: State)
    requires Sendable(s)
    ensures PayloadsOf(CopiedTo(s).device.records) == Arriving(s.local.slots, s.device.rejects)
    ensures CopiedTo(s).local.archive == s.local.archive + ArchivedLocals(s.local.slots)
  {
    var t0 := s.(device := s.device.(records := []));
    assert s.local.archive + [] == s.local.archive;
    DeliverAll(s.local, t0, 0);
    var t := CopyToPass(t0, 0, |s.local.slots|);
    assert s.local.slots[..|s.local.slots|] == s.local.slots;
    NothingToClean(t.device.records);
    assert PayloadsOf(ResetFlags(t.device.records)) == PayloadsOf(t.device.records);
  }

  /* ----- What the PC keeps, and under which identifiers ----- */

  // The live records, in order.
  function LiveRecords(slots: seq<Slot>): seq<LocalRecord> {
    if slots == [] then []
    else
      var last := slots[|slots| - 1];
      LiveRecords(slots[..|slots| - 1]) + if Live(last) then [last.rec] else []
  }

  // How many of them have no identifier.
  function Unassigned(live: seq<LocalRecord>): nat {
    if live == [] then 0
    else Unassigned(live[..|live| - 1]) + if live[|live| - 1].id == 0 then 1 else 0
  }

  // The identifier a record ends with: its own; without one the device's next
  // number after the records before it, if it accepts such records.
  function EndsWith(d: Device, before: seq<LocalRecord>, rec: LocalRecord): RecordId {
    if rec.id == 0 && 0 !in d.rejects then d.nextId + Unassigned(before) else rec.id
  }

  // The PC's records afterwards, and the device's before the close.
  function KeptRow(d: Device, live: seq<LocalRecord>): seq<Slot> {
    if live == [] then []
    else
      var before, last := live[..|live| - 1], live[|live| - 1];
      KeptRow(d, before) + [Used(last.(attr := Nothing, id := EndsWith(d, before, last)))]
  }

  function SentRow(d: Device, live: seq<LocalRecord>): seq<DeviceRecord> {
    if live == [] then []
    else
      var before, last := live[..|live| - 1], live[|live| - 1];
      SentRow(d, before) + if last.id in d.rejects then [] else [Written(EndsWith(d, before, last), last.payload)]
  }

  // The copy that began with device d and PC side l0 has reached position k.
  ghost predicate Keeping(l0: Store, d: Device, t: State, k: nat) {
    && Delivering(l0, t, k) && t.device.rejects == d.rejects
    && var live := LiveRecords(l0.slots[..k]);
       && Purge(t.local.slots[..k]) == KeptRow(d, live)
       && t.device.records == SentRow(d, live)
       && t.device.nextId == d.nextId + if 0 in d.rejects then 0 else Unassigned(live)
  }

  lemma RowsGrow(d: Device, live: seq<LocalRecord>, rec: LocalRecord)
    ensures KeptRow(d, live + [rec]) == KeptRow(d, live) + [Used(rec.(attr := Nothing, id := EndsWith(d, live, rec)))]
    ensures SentRow(d, live + [rec]) ==
            SentRow(d, live) + if rec.id in d.rejects then [] else [Written(EndsWith(d, live, rec), rec.payload)]
    ensures Unassigned(live + [rec]) == Unassigned(live) + if rec.id == 0 then 1 else 0
  {
    assert (live + [rec])[..|live|] == live;
  }

  lemma LiveGrows(slots: seq<Slot>, k: nat)
    requires k < |slots|
    ensures LiveRecords(slots[..k + 1]) ==
            if Live(slots[k]) then LiveRecords(slots[..k]) + [slots[k].rec] else LiveRecords(slots[..k])
  {
    assert slots[..k + 1][..k] == slots[..k];
  }

  // The purge sees the record at k only when it remains.
  lemma PurgedGrows(a: seq<Slot>, b: seq<Slot>, k: nat)
    requires k < |a| == |b| && forall j :: 0 <= j < |a| && j != k ==> b[j] == a[j]
    ensures Purge(b[..k + 1]) == if Remains(b[k]) then Purge(a[..k]) + [b[k]] else Purge(a[..k])
  {
    PurgeAppend(b[..k], b[k]);
    assert b[..k + 1] == b[..k] + [b[k]] && b[..k] == a[..k];
  }

  // What a copy of one live record does to it, accepted or not.
  lemma KeepOne(l0: Store, d: Device, t: State, k: nat)
    requires Keeping(l0, d, t, k) && k < |l0.slots| && Live(l0.slots[k])
    ensures var t1, rec := CopyOneTo(t, k), l0.slots[k].rec;
      var id := EndsWith(d, LiveRecords(l0.slots[..k]), rec);
      && t1.local.slots == t.local.slots[k := Used(rec.(attr := Nothing, id := id))]
      && t1.device.records == t.device.records + (if rec.id in d.rejects then [] else [Written(id, rec.payload)])
      && t1.device.nextId == t.device.nextId + (if rec.id == 0 && 0 !in d.rejects then 1 else 0)
  {
    var rec := l0.slots[k].rec;
    if rec.id in d.rejects {
      assert t.local.slots[k := Used(rec.(attr := Nothing))] == CopyOneTo(t, k).local.slots;
      assert t.device.records + [] == t.device.records;
    } else {
      if rec.id != 0 { NotYetHeld(l0, t, k); }
      var newId := SendOne(t, k);
    }
  }

  lemma KeepStep(l0: Store, d: Device, t: State, k: nat)
    requires Keeping(l0, d, t, k) && k < |l0.slots|
    ensures Keeping(l0, d, CopyOneTo(t, k), k + 1)
  {
    var slot, live := l0.slots[k], LiveRecords(l0.slots[..k]);
    DeliverStep(l0, t, k);
    LiveGrows(l0.slots, k);
    if Live(slot) {
      KeepOne(l0, d, t, k);
      RowsGrow(d, live, slot.rec);
      assert SentRow(d, live) + [] == SentRow(d, live);
    }
    PurgedGrows(t.local.slots, CopyOneTo(t, k).local.slots, k);
  }

  lemma {:induction false} KeepAll(l0: Store, d: Device, t: State, k: nat)
    requires Keeping(l0, d, t, k)
    ensures Keeping(l0, d, CopyToPass(t, k, |l0.slots|), |l0.slots|)
    decreases |l0.slots| - k
  {
    if k < |l0.slots| {
      KeepStep(l0, d, t, k);
      KeepAll(l0, d, CopyOneTo(t, k), k + 1);
    }
  }

  lemma {:induction false} KeptRowAt(d: Device, live: seq<LocalRecord>, m: nat)
    ensures |KeptRow(d, live)| == |live|
    ensures m < |live| ==>
            KeptRow(d, live)[m] == Used(live[m].(attr := Nothing, id := EndsWith(d, live[..m], live[m])))
    decreases |live|
  {
    if live != [] {
      KeptRowAt(d, live[..|live| - 1], m);
      if m < |live| { assert live[..|live| - 1][..m] == live[..m] || m == |live| - 1; }
    }
  }

  // After copying to the device, whichever writes that refuses, the PC holds
  // exactly its live records, in their order, with their content and marked clean.
  // A record that had an identifier keeps it; one that had none has the device's
  // next number, counted along the list, if the device accepts such records. The
  // device holds the accepted ones under these identifiers, clean.
  lemma CopyToKeeps(s: State)
    requires Sendable(s)
    ensures var after, live := CopiedTo(s), LiveRecords(s.local.slots);
      && |after.local.slots| == |live|
      && (forall m :: 0 <= m < |live| ==>
            after.local.slots[m] ==
            Used(live[m].(attr := Nothing, id := EndsWith(s.device, live[..m], live[m]))))
      && after.device.records == ResetFlags(SentRow(s.device, live))
  {
    var t0 := s.(device := s.device.(records := []));
    assert s.local.archive + [] == s.local.archive;
    KeepAll(s.local, s.device, t0, 0);
    var n := |s.local.slots|;
    var t := CopyToPass(t0, 0, n);
    var live := LiveRecords(s.local.slots);
    assert s.local.slots[..n] == s.local.slots && t.local.slots[..n] == t.local.slots;
    NothingToClean(t.device.records);
    KeptRowAt(s.device, live, 0);
    forall m | 0 <= m < |live|
      ensures KeptRow(s.device, live)[m] ==
              Used(live[m].(attr := Nothing, id := EndsWith(s.device, live[..m], live[m])))
    {
      KeptRowAt(s.device, live, m);
    }
  }

  /* ----- When the two sides mirror each other ----- */

  lemma {:induction false} SentRowAll(d: Device, live: seq<LocalRecord>, m: nat)
    ensures |SentRow(d, live)| <= |live|
    ensures |SentRow(d, live)| == |live| <==> forall k :: 0 <= k < |live| ==> live[k].id !in d.rejects
    ensures |SentRow(d, live)| == |live| && m < |live| ==>
            SentRow(d, live)[m] == Written(EndsWith(d, live[..m], live[m]), live[m].payload)
    decreases |live|
  {
    if live != [] {
      var before := live[..|live| - 1];
      SentRowAll(d, before, m);
      if m < |live| { assert before[..m] == live[..m] || m == |live| - 1; }
      assert forall k :: 0 <= k < |live| ==> live[k] == if k < |before| then before[k] else live[|live| - 1];
    }
  }

  lemma {:induction false} LiveIn(slots: seq<Slot>, j: nat)
    requires j < |slots| && Live(slots[j])
    ensures slots[j].rec in LiveRecords(slots)
    decreases |slots|
  {
    if j + 1 < |slots| { LiveIn(slots[..|slots| - 1], j); }
  }

  lemma {:induction false} LiveFrom(slots: seq<Slot>, r: LocalRecord)
    requires r in LiveRecords(slots)
    ensures exists j :: 0 <= j < |slots| && Live(slots[j]) && slots[j].rec == r
    decreases |slots|
  {
    var n := |slots| - 1;
    if r in LiveRecords(slots[..n]) {
      LiveFrom(slots[..n], r);
      var j :| 0 <= j < n && Live(slots[..n][j]) && slots[..n][j].rec == r;
      assert Live(slots[j]) && slots[j].rec == r;
    } else {
      assert Live(slots[n]) && slots[n].rec == r;
    }
  }

  // Every record is sent exactly when the device accepts each live one.
  lemma CopyableSendsAll(s: State)
    requires Sendable(s)
    ensures var live := LiveRecords(s.local.slots);
      |SentRow(s.device, live)| <= |live| && (|SentRow(s.device, live)| == |live| <==> Copyable(s))
  {
    var live := LiveRecords(s.local.slots);
    SentRowAll(s.device, live, 0);
    forall k | 0 <= k < |live| && Copyable(s)
      ensures live[k].id !in s.device.rejects
    {
      LiveFrom(s.local.slots, live[k]);
    }
    if j :| 0 <= j < |s.local.slots| && Live(s.local.slots[j]) && !Accepts(s, s.local.slots[j].rec.id) {
      LiveIn(s.local.slots, j);
    }
  }

  // After copying to the device that holds exactly the contents of the live PC
  // records it accepts, in their order, and each archived PC record was archived
  // once. The two sides are mirror images exactly when it accepts all of them.
  lemma CopyToMirrors(s: State)
    requires Sendable(s)
    ensures var after := CopiedTo(s);
      && PayloadsOf(after.device.records) == Arriving(s.local.slots, s.device.rejects)
      && after.local.archive == s.local.archive + ArchivedLocals(s.local.slots)
      && (Mirrored(after) <==> Copyable(s))
    ensures Copyable(s) ==> Arriving(s.local.slots, s.device.rejects) == LivePayloads(s.local.slots)
  {
    var after, live := CopiedTo(s), LiveRecords(s.local.slots);
    CopyToDelivers(s);
    CopyToKeeps(s);
    CopyableSendsAll(s);
    if Copyable(s) {
      AllArrive(s.local.slots, s.device.rejects);
      forall m | 0 <= m < |live|
        ensures !Flagged(after.device.records[m]) && after.local.slots[m] == Image(after.device.records[m])
      {
        SentRowAll(s.device, live, m);
        LiveFrom(s.local.slots, live[m]);
      }
    }
  }

  lemma {:induction false} AllArrive(slots: seq<Slot>, rejects: set<RecordId>)
    requires forall j :: 0 <= j < |slots| && Live(slots[j]) ==> slots[j].rec.id !in rejects
    ensures Arriving(slots, rejects) == LivePayloads(slots)
    decreases |slots|
  {
    if slots != [] { AllArrive(slots[..|slots| - 1], rejects); }
  }

  // Copying a mirror image to the device changes neither side exactly when the
  // device accepts every record it holds.
  lemma MirrorCopiesBack(m: State)
    requires Mirrored(m) && Sendable(m)
    requires forall i :: 0 <= i < |m.device.records| ==> m.device.records[i].id != 0
    ensures CopiedTo(m).device.records == m.device.records && CopiedTo(m).local == m.local <==>
            forall i :: 0 <= i < |m.device.records| ==> Accepts(m, m.device.records[i].id)
  {
    MirrorCopyable(m);
    AllLive(m.local.slots);
    CopyToKeeps(m);
    CopyableSendsAll(m);
    if Copyable(m) {
      CopyToDelivers(m);
      NoneArchived(m.local.slots);
      assert m.local.archive + [] == m.local.archive;
      forall i | 0 <= i < |m.device.records|
        ensures CopiedTo(m).device.records[i] == m.device.records[i] && CopiedTo(m).local.slots[i] == m.local.slots[i]
      {
        MirrorCopiesAt(m, i);
      }
      assert CopiedTo(m).device.records == m.device.records;
    }
  }

  lemma MirrorCopiesAt(m: State, i: nat)
    requires Mirrored(m) && Copyable(m) && Sendable(m) && i < |m.device.records| && m.device.records[i].id != 0
    ensures |CopiedTo(m).device.records| == |m.device.records| == |CopiedTo(m).local.slots|
    ensures CopiedTo(m).device.records[i] == m.device.records[i] && CopiedTo(m).local.slots[i] == m.local.slots[i]
  {
    var live := LiveRecords(m.local.slots);
    AllLive(m.local.slots);
    CopyToKeeps(m);
    CopyableSendsAll(m);
    SentRowAll(m.device, live, i);
    assert m.local.slots[i] == Image(m.device.records[i]) && live[i] == m.local.slots[i].rec;
  }

  lemma {:induction false} AllLive(slots: seq<Slot>)
    requires forall j :: 0 <= j < |slots| ==> slots[j].Used? && !slots[j].rec.archived && slots[j].rec.attr.Nothing?
    ensures |LiveRecords(slots)| == |slots|
    ensures forall j :: 0 <= j < |slots| ==> LiveRecords(slots)[j] == slots[j].rec
    decreases |slots|
  {
    if slots != [] { AllLive(slots[..|slots| - 1]); }
  }

  lemma MirrorCopyable(m: State)
    requires Mirrored(m) && Sendable(m)
    ensures Copyable(m) <==> forall i :: 0 <= i < |m.device.records| ==> Accepts(m, m.device.records[i].id)
  {
    forall i | 0 <= i < |m.device.records|
      ensures Live(m.local.slots[i]) && m.local.slots[i].rec.id == m.device.records[i].id
    {
      assert m.local.slots[i] == Image(m.device.records[i]);
    }
  }

  ghost predicate RoundTrips(s: State) {
    var copy := CopiedFrom(s);
    CopiedTo(copy).device.records == copy.device.records && CopiedTo(copy).local == copy.local
  }

  // Copying from the device and back gives the device the very same records
  // exactly when it accepts every live record it held; it need not accept
  // tombstones and archived ones, which are not sent.
  lemma CopyRoundTrip(s: State)
    requires ValidDevice(s.device)
    ensures RoundTrips(s) <==>
            forall i :: 0 <= i < |s.device.records| && Stays(s.device.records[i]) ==>
              Accepts(s, s.device.records[i].id)
  {
    var copy := CopiedFrom(s);
    CopiedFromIds(s);
    CleanUpMembers(s.device.records);
    MirrorCopiesBack(copy);
    forall i | 0 <= i < |s.device.records| && Stays(s.device.records[i])
      ensures exists j :: 0 <= j < |copy.device.records| && copy.device.records[j].id == s.device.records[i].id
    {
      assert s.device.records[i] in CleanUp(s.device.records);
      var j :| 0 <= j < |CleanUp(s.device.records)| && CleanUp(s.device.records)[j] == s.device.records[i];
      assert copy.device.records[j].id == s.device.records[i].id;
    }
    forall j | 0 <= j < |copy.device.records|
      ensures exists i :: 0 <= i < |s.device.records| && Stays(s.device.records[i])
                          && s.device.records[i].id == copy.device.records[j].id
    {
      assert CleanUp(s.device.records)[j] in s.device.records;
    }
  }

  lemma CopiedFromIds(s: State)
    requires ValidDevice(s.device)
    ensures var copy := CopiedFrom(s);
      && Mirrored(copy) && Sendable(copy) && copy.device.rejects == s.device.rejects
      && copy.device.records == ResetFlags(CleanUp(s.device.records))
      && |copy.device.records| == |CleanUp(s.device.records)|
      && (forall i :: 0 <= i < |copy.device.records| ==>
            copy.device.records[i].id == CleanUp(s.device.records)[i].id && 0 < copy.device.records[i].id)
  {
    var copy := CopiedFrom(s);
    CopyFromMirrors(s);
    CleanUpAt(s.device.records, 1);
    ResetFlagsAt(CleanUp(s.device.records), 1);
    forall i | 0 <= i < |copy.device.records|
      ensures 0 < copy.device.records[i].id < s.device.nextId
    {
      assert CleanUp(s.device.records)[i] in s.device.records;
    }
  }

  // A clean-up drops nothing but tombstones and archived records.
  lemma {:induction false} CleanUpMembers(ds: seq<DeviceRecord>)
    ensures forall d :: d in CleanUp(ds) <==> d in ds && Stays(d)
    decreases |ds|
  {
    if ds != [] {
      CleanUpMembers(ds[1..]);
      assert ds == [ds[0]] + ds[1..];
    }
  }

  lemma {:induction false} NoneArchived(slots: seq<Slot>)
    requires forall j :: 0 <= j < |slots| ==> slots[j].Used? && !slots[j].rec.archived
    ensures ArchivedLocals(slots) == []
    decreases |slots|
  {
    if slots != [] { NoneArchived(slots[..|slots| - 1]); }
  }
}
