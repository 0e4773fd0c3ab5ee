// Whole histories of the request queue: those that always purge the newest
// request of an owner, and those that purge any.
module QueueRuns {
  import opened Records
  import opened KeyFiles
  import opened RequestQueue
  import opened RequestHistories

  // System requests are loaded with pilot 0.
  function LoaderOf(o: Owner): uint32 {
    if o.System? then 0 else o.id
  }

  ghost predicate OwnerStack(kf: KeyFile, o: Owner, reqs: seq<Request>) {
    IsStack(kf, LoaderOf(o), o.System?, reqs) && AllBelong(reqs, LoaderOf(o), o.System?)
  }

  function LoadAll(kf: KeyFile, o: Owner): seq<Request> {
    Loaded(kf, LoaderOf(o), o.System?, None)
  }

  /* ----- Newest first ----- */

  datatype StackOp = Push(r: Request) | PopNewest(o: Owner)

  function StackStep(kf: KeyFile, op: StackOp): KeyFile {
    match op
    case Push(r) => Stored(kf, r)
    case PopNewest(o) => if LoadAll(kf, o) == [] then kf else Purged(kf, LoadAll(kf, o)[0])
  }

  // The queue after a history that starts with an empty file.
  function StackRun(ops: seq<StackOp>): KeyFile {
    if ops == [] then map[] else StackStep(StackRun(ops[..|ops| - 1]), ops[|ops| - 1])
  }

  // What an operation makes of an owner's pending requests, oldest first.
  function StackStepAfter(reqs: seq<Request>, op: StackOp, o: Owner): seq<Request>
    requires |reqs| + 1 < INT32_LIMIT
  {
    match op
    case Push(r) => if RequestOwner(r) == o then reqs + [LoadedForm(r, LoaderOf(o), |reqs| + 1)] else reqs
    case PopNewest(p) => if p == o && reqs != [] then reqs[..|reqs| - 1] else reqs
  }

  // What a history leaves pending for an owner, oldest first.
  function StackAfter(ops: seq<StackOp>, o: Owner): (s: seq<Request>)
    requires |ops| < INT32_LIMIT
    ensures |s| <= |ops|
  {
    if ops == [] then [] else StackStepAfter(StackAfter(ops[..|ops| - 1], o), ops[|ops| - 1], o)
  }

  lemma {:induction false} ChosenAll(reqs: seq<Request>)
    ensures Chosen(reqs, None) == reqs
    decreases |reqs|
  {
    if reqs != [] { ChosenAll(reqs[..|reqs| - 1]); }
  }

  lemma NewestFirst(kf: KeyFile, o: Owner, reqs: seq<Request>)
    requires OwnerStack(kf, o, reqs)
    ensures LoadAll(kf, o) == Reversed(reqs)
    ensures reqs != [] ==> LoadAll(kf, o) != [] && LoadAll(kf, o)[0] == reqs[|reqs| - 1]
  {
    LoadStack(kf, LoaderOf(o), o.System?, None, reqs);
    ChosenAll(reqs);
  }

  lemma PushKeepsStacks(kf: KeyFile, r: Request, o: Owner, reqs: seq<Request>)
    requires OwnerStack(kf, o, reqs) && |reqs| + 1 < INT32_LIMIT
    ensures OwnerStack(Stored(kf, r), o,
              if RequestOwner(r) == o then reqs + [LoadedForm(r, LoaderOf(o), |reqs| + 1)] else reqs)
  {
    if RequestOwner(r) == o {
      PushOnStack(kf, r, LoaderOf(o), o.System?, reqs);
    } else {
      StoredGroups(kf, r);
      OtherOwnersKeep(kf, Stored(kf, r), RequestOwner(r), LoaderOf(o), o.System?, reqs);
    }
  }

  lemma PopKeepsStacks(kf: KeyFile, p: Owner, o: Owner, mine: seq<Request>, reqs: seq<Request>)
    requires OwnerStack(kf, p, mine) && OwnerStack(kf, o, reqs) && mine != []
    ensures OwnerStack(Purged(kf, mine[|mine| - 1]), o, if p == o then mine[..|mine| - 1] else reqs)
  {
    var top: uint32 := |mine|;
    var r := mine[top - 1];
    assert Nth(kf, LoaderOf(p), p.System?, mine, top);
    HoldsOwn(kf, LoaderOf(p), p.System?, top, r);
    if p == o {
      PopFromStack(kf, LoaderOf(p), p.System?, mine);
    } else {
      PurgedGroups(kf, r);
      OtherOwnersKeep(kf, Purged(kf, r), p, LoaderOf(o), o.System?, reqs);
    }
  }

  lemma StepKept(kf: KeyFile, op: StackOp, o: Owner, mine: seq<Request>, reqs: seq<Request>)
    requires OwnerStack(kf, o, reqs) && |reqs| + 1 < INT32_LIMIT
    requires op.PopNewest? ==> OwnerStack(kf, op.o, mine) && (op.o == o ==> mine == reqs)
    ensures OwnerStack(StackStep(kf, op), o, StackStepAfter(reqs, op, o))
  {
    match op
    case Push(r) => PushKeepsStacks(kf, r, o, reqs);
    case PopNewest(p) =>
      NewestFirst(kf, p, mine);
      if mine == [] {
        assert Reversed(mine) == [];
      } else {
        PopKeepsStacks(kf, p, o, mine, reqs);
      }
  }

  lemma LastStep(ops: seq<StackOp>, o: Owner)
    requires ops != [] && |ops| < INT32_LIMIT
    ensures StackRun(ops) == StackStep(StackRun(ops[..|ops| - 1]), ops[|ops| - 1])
    ensures |StackAfter(ops[..|ops| - 1], o)| < |ops|
    ensures StackAfter(ops, o) == StackStepAfter(StackAfter(ops[..|ops| - 1], o), ops[|ops| - 1], o)
  {
  }

  ghost predicate KeptAfter(ops: seq<StackOp>, o: Owner)
    requires |ops| < INT32_LIMIT
  {
    OwnerStack(StackRun(ops), o, StackAfter(ops, o))
  }

  lemma NextKept(ops: seq<StackOp>, op: StackOp, o: Owner)
    requires |ops| + 2 < INT32_LIMIT && KeptAfter(ops, o) && (op.PopNewest? ==> KeptAfter(ops, op.o))
    ensures KeptAfter(ops + [op], o)
  {
    assert (ops + [op])[..|ops|] == ops && (ops + [op])[|ops|] == op;
    LastStep(ops + [op], o);
    StepKept(StackRun(ops), op, o, if op.PopNewest? then StackAfter(ops, op.o) else [], StackAfter(ops, o));
  }

  lemma {:induction false} StacksKept(ops: seq<StackOp>, o: Owner)
    requires |ops| + 1 < INT32_LIMIT
    ensures KeptAfter(ops, o)
    decreases |ops|
  {
    if ops != [] {
      var earlier, op := ops[..|ops| - 1], ops[|ops| - 1];
      StacksKept(earlier, o);
      if op.PopNewest? { StacksKept(earlier, op.o); }
      NextKept(earlier, op, o);
      assert earlier + [op] == ops;
    }
  }

  // Over every history of stores and newest-first purges, each owner's groups
  // are numbered 1..counter and loading returns the pending requests, newest first.
  lemma StackHistories(ops: seq<StackOp>, o: Owner)
    requires |ops| + 1 < INT32_LIMIT
    ensures OwnerStack(StackRun(ops), o, StackAfter(ops, o))
    ensures LoadAll(StackRun(ops), o) == Reversed(StackAfter(ops, o))
  {
    StacksKept(ops, o);
    NewestFirst(StackRun(ops), o, StackAfter(ops, o));
  }

  // On a stack, removing a request by the handle its store reported restores the
  // stack, for every handle that leads back to its request.
  lemma StoreThenRemoveOnStack(kf: KeyFile, r: Request, reqs: seq<Request>)
    requires var o := RequestOwner(r);
      && OwnerStack(kf, o, reqs) && |reqs| + 1 < 65535
      && (o.Pilot? ==> o.id != 0 && o.id * 65535 + |reqs| + 1 < UINT32_LIMIT)
    ensures var h := StoredHandle(kf, r);
      OwnerStack(PurgedPoint(Stored(kf, r), h / 65535, h % 65535), RequestOwner(r), reqs)
  {
    var o, num: uint32 := RequestOwner(r), |reqs| + 1;
    HandleLeadsBack(o, num);
    PushKeepsStacks(kf, r, o, reqs);
    var pushed := reqs + [LoadedForm(r, LoaderOf(o), num)];
    assert pushed[..|pushed| - 1] == reqs;
    StoredUnder(kf, o, r, reqs);
    RemoveTop(Stored(kf, r), o, pushed, Handle(o, num) / 65535, num);
  }

  lemma StoredUnder(kf: KeyFile, o: Owner, r: Request, reqs: seq<Request>)
    requires OwnerStack(kf, o, reqs) && RequestOwner(r) == o && |reqs| + 1 < INT32_LIMIT
    ensures StoredHandle(kf, r) == Handle(o, |reqs| + 1)
  {
  }

  lemma RemoveTop(kf: KeyFile, o: Owner, reqs: seq<Request>, pilotId: uint32, num: uint32)
    requires OwnerStack(kf, o, reqs) && reqs != []
    requires QueryOwner(pilotId, pilotId == 0) == o && num == |reqs|
    ensures OwnerStack(PurgedPoint(kf, pilotId, num), o, reqs[..|reqs| - 1])
  {
    assert Nth(kf, LoaderOf(o), o.System?, reqs, num);
    PopKeepsStacks(kf, o, o, reqs, reqs);
  }

  /* ----- Any order ----- */

  datatype QueueOp = Put(r: Request) | Remove(o: Owner, num: uint32)

  function QueueStep(kf: KeyFile, op: QueueOp): KeyFile {
    match op
    case Put(r) => Stored(kf, r)
    case Remove(o, num) =>
      var r := Load(kf, LoaderOf(o), o.System?, num);
      if r.Some? then Purged(kf, r.value) else kf
  }

  function QueueRun(ops: seq<QueueOp>): KeyFile {
    if ops == [] then map[] else QueueStep(QueueRun(ops[..|ops| - 1]), ops[|ops| - 1])
  }

  // The groups of an owner's requests.
  function Groups(kf: KeyFile, o: Owner): set<GroupName> {
    set g | g in kf && g.RequestGroup? && g.o == o
  }

  // The counter covers the stored groups, and every group reads as a request of
  // its owner.
  ghost predicate Counted(kf: KeyFile, o: Owner) {
    && |Groups(kf, o)| <= Counter(kf, o)
    && forall num: uint32 :: RequestGroup(o, num) in kf ==> Readable(kf, o, num)
  }

  predicate Readable(kf: KeyFile, o: Owner, num: uint32) {
    var r := Load(kf, LoaderOf(o), o.System?, num);
    r.Some? && SystemRelated(KindOf(r.value.body)) == o.System?
  }

  lemma ReadableDepends(kf: KeyFile, kf': KeyFile, o: Owner, num: uint32)
    requires SameGroup(kf, kf', RequestGroup(o, num))
    ensures Readable(kf', o, num) == Readable(kf, o, num)
  {
    LoadDepends(kf, kf', LoaderOf(o), o.System?, num);
  }

  lemma LoadedKind(g: Group, k: Kind)
    ensures KindOf(LoadBody(g, k)) == k
  {
  }

  lemma ReadableWhenTyped(kf: KeyFile, o: Owner, num: uint32, k: Kind)
    requires KindFromString(GetString(GroupOf(kf, RequestGroup(o, num)), Type)) == Some(k)
    requires SystemRelated(k) == o.System?
    ensures Readable(kf, o, num)
  {
    LoadedKind(GroupOf(kf, RequestGroup(o, num)), k);
  }

  // A stored request is readable even where it overwrites another one.
  lemma StoredReadable(kf: KeyFile, r: Request)
    ensures Readable(Stored(kf, r), RequestOwner(r), NextNumber(kf, RequestOwner(r)))
  {
    var o := RequestOwner(r);
    var num := NextNumber(kf, o);
    FieldsWriteCommon(r, Handle(o, num));
    TypeOver(GroupOf(kf, RequestGroup(o, num)), Fields(r, Handle(o, num)), KindOf(r.body));
    ReadableWhenTyped(Stored(kf, r), o, num, KindOf(r.body));
  }

  lemma StoredGroupSet(kf: KeyFile, r: Request, o: Owner)
    ensures Groups(Stored(kf, r), o) ==
            Groups(kf, o) + if RequestOwner(r) == o then {RequestGroup(o, NextNumber(kf, o))} else {}
  {
    StoredGroups(kf, r);
  }

  lemma PurgedGroupSet(kf: KeyFile, r: Request, o: Owner)
    requires r.section.RequestGroup?
    ensures Groups(Purged(kf, r), o) == Groups(kf, o) - {r.section}
  {
    PurgedGroups(kf, r);
  }

  lemma StaysReadable(kf: KeyFile, kf': KeyFile, o: Owner, except: GroupName)
    requires Counted(kf, o)
    requires forall g: GroupName :: g.RequestGroup? && g != except ==> SameGroup(kf, kf', g)
    ensures forall num: uint32 :: RequestGroup(o, num) in kf' && RequestGroup(o, num) != except ==>
              Readable(kf', o, num)
  {
    forall n: uint32 | RequestGroup(o, n) in kf' && RequestGroup(o, n) != except
      ensures Readable(kf', o, n)
    {
      assert SameGroup(kf, kf', RequestGroup(o, n));
      ReadableDepends(kf, kf', o, n);
    }
  }

  lemma PutKeepsReadable(kf: KeyFile, r: Request, o: Owner) returns (kf': KeyFile)
    requires Counted(kf, o)
    ensures kf' == Stored(kf, r)
    ensures forall num: uint32 :: RequestGroup(o, num) in kf' ==> Readable(kf', o, num)
  {
    kf' := Stored(kf, r);
    StoredGroups(kf, r);
    StoredReadable(kf, r);
    StaysReadable(kf, kf', o, RequestGroup(RequestOwner(r), NextNumber(kf, RequestOwner(r))));
  }

  lemma StoredCounter(kf: KeyFile, r: Request, o: Owner)
    requires 0 <= Counter(kf, o) as int + 1 < INT32_LIMIT
    ensures Counter(Stored(kf, r), o) as int == Counter(kf, o) as int + if RequestOwner(r) == o then 1 else 0
  {
    StoredGroups(kf, r);
    if RequestOwner(r) != o { assert SameGroup(kf, Stored(kf, r), CounterGroup(o)); }
  }

  lemma PutKeepsCounted(kf: KeyFile, r: Request, o: Owner)
    requires Counted(kf, o) && Counter(kf, o) as int + 1 < INT32_LIMIT
    ensures Counted(Stored(kf, r), o)
  {
    StoredGroupSet(kf, r, o);
    StoredCounter(kf, r, o);
    var kf' := PutKeepsReadable(kf, r, o);
  }

  lemma RemoveKeepsCounted(kf: KeyFile, p: Owner, num: uint32, o: Owner)
    requires Counted(kf, o) && Counted(kf, p)
    requires Load(kf, LoaderOf(p), p.System?, num).Some?
    ensures var kf' := Purged(kf, Load(kf, LoaderOf(p), p.System?, num).value);
      && Counted(kf', o)
      && Counter(kf', o) as int == Counter(kf, o) as int - if p == o then 1 else 0
  {
    var r := Load(kf, LoaderOf(p), p.System?, num).value;
    assert Holds(kf, LoaderOf(p), p.System?, num, r);
    HoldsOwn(kf, LoaderOf(p), p.System?, num, r);
    GroupIsThere(kf, p, num);
    assert Readable(kf, p, num) && RequestOwner(r) == p;
    PurgedCounted(kf, r, o);
  }

  lemma PurgedCounted(kf: KeyFile, r: Request, o: Owner)
    requires Counted(kf, o) && r.section.RequestGroup? && r.section in kf && r.section.o == RequestOwner(r)
    ensures Counted(Purged(kf, r), o)
    ensures Counter(Purged(kf, r), o) as int == Counter(kf, o) as int - if RequestOwner(r) == o then 1 else 0
  {
    PurgedSize(kf, r, o);
    PurgedCounter(kf, r, o);
    PurgedGroups(kf, r);
    StaysReadable(kf, Purged(kf, r), o, r.section);
  }

  lemma PurgedSize(kf: KeyFile, r: Request, o: Owner)
    requires r.section.RequestGroup? && r.section in kf && r.section.o == RequestOwner(r)
    ensures |Groups(Purged(kf, r), o)| == |Groups(kf, o)| - if RequestOwner(r) == o then 1 else 0
  {
    PurgedGroupSet(kf, r, o);
    assert r.section in Groups(kf, o) <==> RequestOwner(r) == o;
  }

  lemma PurgedCounter(kf: KeyFile, r: Request, o: Owner)
    requires r.section.RequestGroup? && 0 <= Counter(kf, o)
    ensures Counter(Purged(kf, r), o) as int == Counter(kf, o) as int - if RequestOwner(r) == o then 1 else 0
  {
    PurgedGroups(kf, r);
    if RequestOwner(r) != o { assert SameGroup(kf, Purged(kf, r), CounterGroup(o)); }
  }

  lemma GroupIsThere(kf: KeyFile, o: Owner, num: uint32)
    requires Load(kf, LoaderOf(o), o.System?, num).Some?
    ensures RequestGroup(o, num) in kf
  {
  }

  // Over every history of stores and of purges of pending requests in any
  // order, the counter is never negative and never below the number of groups.
  lemma {:induction false} AnyHistoryCounted(ops: seq<QueueOp>, o: Owner)
    requires |ops| + 1 < INT32_LIMIT
    ensures Counted(QueueRun(ops), o) && 0 <= Counter(QueueRun(ops), o) <= |ops|
    decreases |ops|
  {
    if ops == [] {
      assert Groups(QueueRun(ops), o) == {};
    } else {
      var earlier, op := ops[..|ops| - 1], ops[|ops| - 1];
      AnyHistoryCounted(earlier, o);
      var kf := QueueRun(earlier);
      match op {
        case Put(r) =>
          PutKeepsCounted(kf, r, o);
          StoredCounter(kf, r, o);
        case Remove(p, num) =>
          AnyHistoryCounted(earlier, p);
          if Load(kf, LoaderOf(p), p.System?, num).Some? { RemoveKeepsCounted(kf, p, num, o); }
      }
    }
  }

  /* ----- A store undone ----- */

  // A handle from which the daemon finds its way back to the owner and number.
  predicate LeadsBack(o: Owner, num: uint32) {
    num < 65535 && (o.Pilot? ==> o.id != 0 && o.id * 65535 + num < UINT32_LIMIT)
  }

  // Every group but the owner's counter is as it was; and every one but that of a
  // request besides.
  ghost predicate OthersSame(kf: KeyFile, kf': KeyFile, o: Owner) {
    forall g :: g != CounterGroup(o) ==> SameGroup(kf, kf', g)
  }

  ghost predicate RestSame(kf: KeyFile, kf': KeyFile, o: Owner, num: uint32) {
    forall g :: g != CounterGroup(o) && g != RequestGroup(o, num) ==> SameGroup(kf, kf', g)
  }

  // Removing a request by the handle its store reported gives the owner's counter
  // back, and every group of every owner, exactly when the number it was stored
  // under was free: whatever else the file holds, a stack or not.
  lemma StoreThenRemove(kf: KeyFile, r: Request)
    requires LeadsBack(RequestOwner(r), NextNumber(kf, RequestOwner(r)))
    ensures var o, h := RequestOwner(r), StoredHandle(kf, r);
      var kf' := PurgedPoint(Stored(kf, r), h / 65535, h % 65535);
      && Counter(kf', o) == Counter(kf, o)
      && (OthersSame(kf, kf', o) <==> RequestGroup(o, NextNumber(kf, o)) !in kf)
  {
    StoredReadable(kf, r);
    StoredRest(kf, r);
    RemovedAgain(kf, Stored(kf, r), RequestOwner(r), NextNumber(kf, RequestOwner(r)));
  }

  lemma StoredRest(kf: KeyFile, r: Request)
    ensures var o, kf' := RequestOwner(r), Stored(kf, r);
      && Counter(kf', o) == ToInt32(NextNumber(kf, o))
      && RestSame(kf, kf', o, NextNumber(kf, o))
  {
    StoredGroups(kf, r);
  }

  lemma RemovedAgain(kf: KeyFile, kf1: KeyFile, o: Owner, num: uint32)
    requires num == NextNumber(kf, o) && LeadsBack(o, num)
    requires Readable(kf1, o, num) && Counter(kf1, o) == ToInt32(num) && RestSame(kf, kf1, o, num)
    ensures var h := Handle(o, num);
      var kf' := PurgedPoint(kf1, h / 65535, h % 65535);
      && Counter(kf', o) == Counter(kf, o)
      && (OthersSame(kf, kf', o) <==> RequestGroup(o, num) !in kf)
  {
    HandleLeadsBack(o, num);
    var pilotId := Handle(o, num) / 65535;
    var kf' := PointPurged(kf1, pilotId, num, o);
    UndoneExactly(kf, kf1, kf', o, num);
    CountedBack(Counter(kf, o), num);
  }

  // One up and one down again, in 32 bits.
  lemma CountedBack(count: int32, num: uint32)
    requires num == ToUint32(count + 1)
    ensures ToInt32(ToInt32(num) - 1) == count
  {
  }

  // The purge by number finds the request and removes its group.
  lemma PointPurged(kf: KeyFile, pilotId: uint32, num: uint32, o: Owner) returns (kf': KeyFile)
    requires QueryOwner(pilotId, pilotId == 0) == o && Readable(kf, o, num)
    ensures kf' == PurgedPoint(kf, pilotId, num)
    ensures Counter(kf', o) == ToInt32(Counter(kf, o) - 1)
    ensures RequestGroup(o, num) !in kf' && RestSame(kf, kf', o, num)
  {
    var r := Load(kf, pilotId, pilotId == 0, num).value;
    HoldsOwn(kf, pilotId, pilotId == 0, num, r);
    PurgedGroups(kf, r);
    kf' := Purged(kf, r);
  }

  // Two changes that concern one request only cancel exactly when they leave its
  // group as it was.
  lemma UndoneExactly(kf: KeyFile, kf1: KeyFile, kf': KeyFile, o: Owner, num: uint32)
    requires RestSame(kf, kf1, o, num) && RestSame(kf1, kf', o, num) && RequestGroup(o, num) !in kf'
    ensures OthersSame(kf, kf', o) <==> RequestGroup(o, num) !in kf
  {
    forall g | g != CounterGroup(o) && g != RequestGroup(o, num)
      ensures SameGroup(kf, kf', g)
    {
      assert SameGroup(kf, kf1, g) && SameGroup(kf1, kf', g);
    }
    assert SameGroup(kf, kf', RequestGroup(o, num)) <==> RequestGroup(o, num) !in kf;
  }

  /* ----- What a load shows, and what it misses ----- */

  // A list holds loaded requests of an owner, of the wanted type or of any, with
  // falling numbers between two bounds.
  ghost predicate Falling(kf: KeyFile, o: Owner, wanted: Option<Kind>, list: seq<Request>, above: nat, bound: nat) {
    && (forall i :: 0 <= i < |list| ==>
          && list[i].section.RequestGroup? && above < list[i].section.num <= bound
          && Wanted(Some(list[i]), wanted)
          && Holds(kf, LoaderOf(o), o.System?, list[i].section.num, list[i]))
    && (forall i, j :: 0 <= i < j < |list| ==> list[i].section.num > list[j].section.num)
  }

  predicate ShownIn(kf: KeyFile, o: Owner, wanted: Option<Kind>, n: uint32, list: seq<Request>) {
    var r := Load(kf, LoaderOf(o), o.System?, n);
    Wanted(r, wanted) ==> r.value in list
  }

  lemma FallingNext(kf: KeyFile, o: Owner, wanted: Option<Kind>, num: uint32, bound: nat, list: seq<Request>)
    returns (next: seq<Request>)
    requires 0 < num <= bound && Falling(kf, o, wanted, list, num, bound)
    ensures var r := Load(kf, LoaderOf(o), o.System?, num);
      next == if Wanted(r, wanted) then list + [r.value] else list
    ensures Falling(kf, o, wanted, next, num - 1, bound)
    ensures ShownIn(kf, o, wanted, num, next) && forall x :: x in list ==> x in next
  {
    var r := Load(kf, LoaderOf(o), o.System?, num);
    next := list;
    if Wanted(r, wanted) {
      next := list + [r.value];
      assert Holds(kf, LoaderOf(o), o.System?, num, r.value);
      HoldsOwn(kf, LoaderOf(o), o.System?, num, r.value);
      assert next[|list|] == r.value;
    }
  }

  lemma {:induction false} LoadDownShows(kf: KeyFile, o: Owner, wanted: Option<Kind>, num: uint32, bound: nat,
                                         list: seq<Request>)
    requires num <= bound && Falling(kf, o, wanted, list, num, bound)
    requires forall n: uint32 :: num < n <= bound ==> ShownIn(kf, o, wanted, n, list)
    ensures var all := LoadDown(kf, LoaderOf(o), o.System?, wanted, num, list);
      && Falling(kf, o, wanted, all, 0, bound)
      && forall n: uint32 :: 0 < n <= bound ==> ShownIn(kf, o, wanted, n, all)
    decreases num
  {
    if num > 0 {
      var next := FallingNext(kf, o, wanted, num, bound, list);
      forall n: uint32 | num - 1 < n <= bound ensures ShownIn(kf, o, wanted, n, next) {
        assert n != num ==> ShownIn(kf, o, wanted, n, list);
      }
      LoadDownShows(kf, o, wanted, num - 1, bound, next);
    }
  }

  // Whatever the file holds, a load returns every request of the wanted type
  // numbered up to the counter once, the highest number first, and nothing else.
  lemma LoadShowsExactly(kf: KeyFile, o: Owner, wanted: Option<Kind>)
    ensures var list := Loaded(kf, LoaderOf(o), o.System?, wanted);
      && Falling(kf, o, wanted, list, 0, Numbered(Counter(kf, o)))
      && forall n: uint32 :: 0 < n <= Numbered(Counter(kf, o)) ==> ShownIn(kf, o, wanted, n, list)
  {
    var top := Numbered(Counter(kf, o));
    LoadDownShows(kf, o, wanted, top, top, []);
  }

  // So after any history a load misses a pending request exactly when one is
  // numbered above the counter.
  lemma MissesAboveCounter(ops: seq<QueueOp>, o: Owner)
    requires |ops| + 1 < INT32_LIMIT
    ensures var kf := QueueRun(ops);
      (forall num: uint32 :: num > 0 && RequestGroup(o, num) in kf ==>
         Load(kf, LoaderOf(o), o.System?, num).Some? && Load(kf, LoaderOf(o), o.System?, num).value in LoadAll(kf, o))
      <==>
      (forall num: uint32 :: num > 0 && RequestGroup(o, num) in kf ==> num <= Counter(kf, o))
  {
    var kf := QueueRun(ops);
    AnyHistoryCounted(ops, o);
    LoadShowsExactly(kf, o, None);
    forall num: uint32 | num > 0 && RequestGroup(o, num) in kf
      ensures Load(kf, LoaderOf(o), o.System?, num).Some?
      ensures Load(kf, LoaderOf(o), o.System?, num).value in LoadAll(kf, o) <==> num <= Counter(kf, o)
    {
      assert Readable(kf, o, num);
      var r := Load(kf, LoaderOf(o), o.System?, num).value;
      assert Holds(kf, LoaderOf(o), o.System?, num, r);
      HoldsOwn(kf, LoaderOf(o), o.System?, num, r);
      assert num <= Counter(kf, o) ==> ShownIn(kf, o, None, num, LoadAll(kf, o));
    }
  }

  // A store adds a request exactly when the number after the counter is free;
  // otherwise it overwrites the request that has it.
  lemma StoreAddsExactly(kf: KeyFile, r: Request)
    ensures var o := RequestOwner(r);
      |Groups(Stored(kf, r), o)| == |Groups(kf, o)| + 1 <==> RequestGroup(o, NextNumber(kf, o)) !in kf
  {
    StoredGroupSet(kf, r, RequestOwner(r));
  }

  // Purging any but the newest request of a stack makes the newest invisible,
  // and puts it where the next store will overwrite it.
  lemma PurgeInTheMiddle(kf: KeyFile, o: Owner, reqs: seq<Request>, k: nat)
    requires OwnerStack(kf, o, reqs) && 0 < k < |reqs|
    ensures var kf' := Purged(kf, reqs[k - 1]);
      && reqs[|reqs| - 1] !in LoadAll(kf', o)
      && Holds(kf', LoaderOf(o), o.System?, |reqs|, reqs[|reqs| - 1])
      && NextNumber(kf', o) == |reqs| && RequestGroup(o, |reqs|) in kf'
  {
    var last, top: uint32 := reqs[|reqs| - 1], |reqs|;
    assert Nth(kf, LoaderOf(o), o.System?, reqs, k) && Nth(kf, LoaderOf(o), o.System?, reqs, top);
    HoldsOwn(kf, LoaderOf(o), o.System?, k, reqs[k - 1]);
    HoldsOwn(kf, LoaderOf(o), o.System?, top, last);
    PurgeBelow(kf, o, reqs[k - 1], k, top);
    LeftAbove(kf, Purged(kf, reqs[k - 1]), o, top, last);
  }

  lemma PurgeBelow(kf: KeyFile, o: Owner, r: Request, k: uint32, top: uint32)
    requires r.section == RequestGroup(o, k) && RequestOwner(r) == o
    requires 0 < k < top && Counter(kf, o) == top
    ensures SameGroup(kf, Purged(kf, r), RequestGroup(o, top))
    ensures Counter(Purged(kf, r), o) as int + 1 == top
  {
    PurgedGroups(kf, r);
  }

  // A request numbered just above the counter.
  lemma LeftAbove(kf: KeyFile, kf': KeyFile, o: Owner, top: uint32, last: Request)
    requires Holds(kf, LoaderOf(o), o.System?, top, last) && last.section == RequestGroup(o, top)
    requires SameGroup(kf, kf', RequestGroup(o, top))
    requires 0 <= Counter(kf', o) && Counter(kf', o) as int + 1 == top
    ensures last !in LoadAll(kf', o) && Holds(kf', LoaderOf(o), o.System?, top, last)
    ensures NextNumber(kf', o) == top && RequestGroup(o, top) in kf'
  {
    HoldsDepends(kf, kf', LoaderOf(o), o.System?, top, last);
    GroupIsThere(kf', o, top);
    LoadShowsExactly(kf', o, None);
  }
}
