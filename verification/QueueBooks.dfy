// What a history of stores and purges leaves in the queue, said without the file:
// who was stored under which number, and which of them a load returns.
module QueueBooks {
  import opened Records
  import opened KeyFiles
  import opened RequestQueue
  import opened RequestHistories
  import opened QueueRuns

  // The stores for an owner less the purges that met a pending request.
  function Tally(ops: seq<QueueOp>, o: Owner): int
    decreases |ops|, 1
  {
    if ops == [] then 0
    else
      var earlier := ops[..|ops| - 1];
      match ops[|ops| - 1]
      case Put(r) => Tally(earlier, o) + if RequestOwner(r) == o then 1 else 0
      case Remove(p, num) => Tally(earlier, o) - if p == o && Pending(earlier, o, num).Some? then 1 else 0
  }

  // The request pending under a number: the last one stored under it, unless it
  // was purged since. A request is stored under the number after the tally.
  function Pending(ops: seq<QueueOp>, o: Owner, num: uint32): Option<Request>
    decreases |ops|, 0
  {
    if ops == [] then None
    else
      var earlier := ops[..|ops| - 1];
      match ops[|ops| - 1]
      case Put(r) =>
        if RequestOwner(r) == o && Tally(earlier, o) + 1 == num then Some(LoadedForm(r, LoaderOf(o), num))
        else Pending(earlier, o, num)
      case Remove(p, n) => if p == o && n == num then None else Pending(earlier, o, num)
  }

  // The last store under a number met no text in its group that would show
  // through. A group is only there when an earlier request was overwritten.
  predicate CleanlyStored(ops: seq<QueueOp>, o: Owner, num: uint32) {
    if ops == [] then true
    else
      var earlier := ops[..|ops| - 1];
      match ops[|ops| - 1]
      case Put(r) =>
        if RequestOwner(r) == o && Tally(earlier, o) + 1 == num then NoLeftovers(QueueRun(earlier), r)
        else CleanlyStored(earlier, o, num)
      case Remove(p, n) => (p == o && n == num) || CleanlyStored(earlier, o, num)
  }

  ghost predicate KeptAs(kf: KeyFile, o: Owner, tally: int, num: uint32, p: Option<Request>, clean: bool) {
    var r := Load(kf, LoaderOf(o), o.System?, num);
    && Counter(kf, o) == tally
    && (p.Some? <==> RequestGroup(o, num) in kf)
    && (p.Some? <==> r.Some?)
    && (p.Some? ==> (r == p <==> clean))
  }

  // Over any history the counter is the tally, a request is loaded under a number
  // exactly when one is pending there, and it is that very request exactly when
  // it was stored cleanly.
  lemma {:induction false} QueueKeepsBook(ops: seq<QueueOp>, o: Owner, num: uint32)
    requires |ops| + 1 < INT32_LIMIT
    ensures KeptAs(QueueRun(ops), o, Tally(ops, o), num, Pending(ops, o, num), CleanlyStored(ops, o, num))
    ensures 0 <= Tally(ops, o) <= |ops|
    decreases |ops|
  {
    AnyHistoryCounted(ops, o);
    if ops == [] {
      assert QueueRun(ops) == map[];
    } else {
      var earlier, op := ops[..|ops| - 1], ops[|ops| - 1];
      QueueKeepsBook(earlier, o, num);
      AnyHistoryCounted(earlier, o);
      match op {
        case Put(r) =>
          PutKept(QueueRun(earlier), r, o, num, Tally(earlier, o), Pending(earlier, o, num),
                  CleanlyStored(earlier, o, num));
        case Remove(p, n) =>
          QueueKeepsBook(earlier, p, n);
          AnyHistoryCounted(earlier, p);
          if Pending(earlier, p, n).Some? {
            RemoveKept(QueueRun(earlier), p, n, o, num, Tally(earlier, o), Pending(earlier, o, num),
                       CleanlyStored(earlier, o, num));
          }
      }
    }
  }

  lemma PutKept(kf: KeyFile, r: Request, o: Owner, num: uint32, tally: int, p: Option<Request>, clean: bool)
    requires KeptAs(kf, o, tally, num, p, clean) && 0 <= tally && tally + 1 < INT32_LIMIT
    ensures var here := RequestOwner(r) == o && tally + 1 == num;
      KeptAs(Stored(kf, r), o, tally + (if RequestOwner(r) == o then 1 else 0), num,
             if here then Some(LoadedForm(r, LoaderOf(o), num)) else p,
             if here then NoLeftovers(kf, r) else clean)
  {
    StoredCounter(kf, r, o);
    StoredGroups(kf, r);
    if RequestOwner(r) == o && tally + 1 == num {
      StoreThenLoad(kf, r, LoaderOf(o), o.System?, num);
      StoredReadable(kf, r);
      assert Holds(Stored(kf, r), LoaderOf(o), o.System?, num, LoadedForm(r, LoaderOf(o), num)) <==> NoLeftovers(kf, r);
    } else {
      assert SameGroup(kf, Stored(kf, r), RequestGroup(o, num));
      LoadDepends(kf, Stored(kf, r), LoaderOf(o), o.System?, num);
    }
  }

  lemma RemoveKept(kf: KeyFile, q: Owner, n: uint32, o: Owner, num: uint32, tally: int, p: Option<Request>, clean: bool)
    requires KeptAs(kf, o, tally, num, p, clean) && Counted(kf, q) && Counted(kf, o)
    requires Load(kf, LoaderOf(q), q.System?, n).Some?
    ensures var here := q == o && n == num;
      KeptAs(Purged(kf, Load(kf, LoaderOf(q), q.System?, n).value), o, tally - (if q == o then 1 else 0), num,
             if here then None else p, here || clean)
  {
    var r := Load(kf, LoaderOf(q), q.System?, n).value;
    assert Holds(kf, LoaderOf(q), q.System?, n, r);
    HoldsOwn(kf, LoaderOf(q), q.System?, n, r);
    GroupIsThere(kf, q, n);
    assert Readable(kf, q, n) && RequestOwner(r) == q;
    PurgedCounted(kf, r, o);
    PurgedGroups(kf, r);
    if q != o || n != num {
      assert SameGroup(kf, Purged(kf, r), RequestGroup(o, num));
      LoadDepends(kf, Purged(kf, r), LoaderOf(o), o.System?, num);
    }
  }

  // The pending requests numbered up to num, highest number first.
  function Listed(ops: seq<QueueOp>, o: Owner, num: uint32): seq<Request>
    decreases num
  {
    if num == 0 then []
    else
      var p := Pending(ops, o, num);
      (if p.Some? then [p.value] else []) + Listed(ops, o, num - 1)
  }

  // What the groups numbered up to num are loaded as, highest number first.
  function Shown(kf: KeyFile, o: Owner, num: uint32): seq<Request>
    decreases num
  {
    if num == 0 then []
    else
      var r := Load(kf, LoaderOf(o), o.System?, num);
      (if r.Some? then [r.value] else []) + Shown(kf, o, num - 1)
  }

  lemma {:induction false} LoadDownShown(kf: KeyFile, o: Owner, num: uint32, list: seq<Request>)
    ensures LoadDown(kf, LoaderOf(o), o.System?, None, num, list) == list + Shown(kf, o, num)
    decreases num
  {
    if num > 0 {
      var r := Load(kf, LoaderOf(o), o.System?, num);
      var next := if r.Some? then list + [r.value] else list;
      LoadDownShown(kf, o, num - 1, next);
      assert next + Shown(kf, o, num - 1) == list + Shown(kf, o, num);
    }
  }

  ghost predicate AllClean(ops: seq<QueueOp>, o: Owner, top: int) {
    forall n: uint32 :: 0 < n <= top && Pending(ops, o, n).Some? ==> CleanlyStored(ops, o, n)
  }

  lemma {:induction false} ShownAreListed(ops: seq<QueueOp>, o: Owner, num: uint32)
    requires |ops| + 1 < INT32_LIMIT
    ensures Shown(QueueRun(ops), o, num) == Listed(ops, o, num) <==> AllClean(ops, o, num)
    decreases num
  {
    if num > 0 {
      QueueKeepsBook(ops, o, num);
      ShownAreListed(ops, o, num - 1);
      HeadsAlike(Load(QueueRun(ops), LoaderOf(o), o.System?, num), Shown(QueueRun(ops), o, num - 1),
                 Pending(ops, o, num), Listed(ops, o, num - 1));
      assert AllClean(ops, o, num) <==>
             AllClean(ops, o, num - 1) && (Pending(ops, o, num).Some? ==> CleanlyStored(ops, o, num));
    }
  }

  lemma HeadsAlike(a: Option<Request>, x: seq<Request>, b: Option<Request>, y: seq<Request>)
    requires a.Some? <==> b.Some?
    ensures (if a.Some? then [a.value] else []) + x == (if b.Some? then [b.value] else []) + y <==> a == b && x == y
  {
    if a.Some? {
      assert ([a.value] + x)[0] == a.value && ([a.value] + x)[1..] == x;
      assert ([b.value] + y)[0] == b.value && ([b.value] + y)[1..] == y;
    } else {
      assert [] + x == x && [] + y == y;
    }
  }

  // So a load returns exactly the requests stored and not purged since whose
  // number is not above the tally, each once, the highest number first, if and
  // only if each of these was stored cleanly.
  lemma LoadsPending(ops: seq<QueueOp>, o: Owner) returns (top: uint32)
    requires |ops| + 1 < INT32_LIMIT
    ensures top == Tally(ops, o)
    ensures LoadAll(QueueRun(ops), o) == Listed(ops, o, top) <==> AllClean(ops, o, top)
  {
    QueueKeepsBook(ops, o, 0);
    top := Tally(ops, o);
    LoadDownShown(QueueRun(ops), o, top, []);
    ShownAreListed(ops, o, top);
    assert [] + Shown(QueueRun(ops), o, top) == Shown(QueueRun(ops), o, top);
  }
}
