// Running the queued install requests at the start of a synchronisation.
module Installs {
  import opened Records
  import opened KeyFiles
  import opened RequestQueue
  import opened RequestHistories
  import opened QueueRuns

  // One database handed to a file conduit. Conduits are told apart by number.
  datatype Delivery = Delivery(conduit: nat, r: Request)

  // Completing a request purges it, unless there is no bus to announce it on.
  function Completed(kf: KeyFile, list: seq<Request>, connected: bool): KeyFile
    decreases |list|
  {
    if list == [] || !connected then kf else Completed(Purged(kf, list[0]), list[1..], connected)
  }

  function Deliveries(conduit: nat, list: seq<Request>): seq<Delivery> {
    seq(|list|, i requires 0 <= i < |list| => Delivery(conduit, list[i]))
  }

  function Installable(kf: KeyFile, pilotId: uint32): seq<Request> {
    Loaded(kf, pilotId, false, Some(KInstall))
  }

  function QueueAfter(kf: KeyFile, pilotId: uint32, conduits: seq<nat>, connected: bool): KeyFile
    decreases |conduits|
  {
    if conduits == [] then kf
    else QueueAfter(Completed(kf, Installable(kf, pilotId), connected), pilotId, conduits[1..], connected)
  }

  function Delivered(kf: KeyFile, pilotId: uint32, conduits: seq<nat>, connected: bool): seq<Delivery>
    decreases |conduits|
  {
    if conduits == [] then []
    else
      var list := Installable(kf, pilotId);
      Deliveries(conduits[0], list) + Delivered(Completed(kf, list, connected), pilotId, conduits[1..], connected)
  }

  class InstallManager {
    const queue: Queue
    const pilotId: uint32
    const connected: bool
    var log: seq<Delivery>

    constructor (queue: Queue, pilotId: uint32, connected: bool)
      ensures this.queue == queue && this.pilotId == pilotId && this.connected == connected && log == []
    {
      this.queue, this.pilotId, this.connected, log := queue, pilotId, connected, [];
    }

    // install_db_foreach
    method InstallDb(conduit: nat, r: Request)
      modifies this`log, queue
      ensures log == old(log) + [Delivery(conduit, r)]
      ensures queue.kfile == if connected then Purged(old(queue.kfile), r) else old(queue.kfile)
    {
      log := log + [Delivery(conduit, r)];
      if connected {
        queue.PurgeRequest(r);
      }
    }

    // install_foreach
    method InstallForeach(conduit: nat)
      modifies this`log, queue
      ensures var list, n := Installable(old(queue.kfile), pilotId), |old(log)|;
        && |log| == n + |list| && log[..n] == old(log)
        && (forall k :: 0 <= k < |list| ==> log[n + k] == Delivery(conduit, list[k]))
      ensures log == old(log) + Deliveries(conduit, Installable(old(queue.kfile), pilotId))
      ensures queue.kfile == Completed(old(queue.kfile), Installable(old(queue.kfile), pilotId), connected)
    {
      var list := queue.LoadRequests(pilotId, false, Some(KInstall));
      ghost var goal := Completed(queue.kfile, list, connected);
      var i := 0;
      while i < |list|
        invariant 0 <= i <= |list|
        invariant log == old(log) + Deliveries(conduit, list[..i])
        invariant Completed(queue.kfile, list[i..], connected) == goal
      {
        InstallDb(conduit, list[i]);
        assert list[i..][1..] == list[i + 1..];
        assert Deliveries(conduit, list[..i + 1]) == Deliveries(conduit, list[..i]) + [Delivery(conduit, list[i])];
        i := i + 1;
      }
      assert list[..i] == list;
    }

    // The loop over the file conduits at the start of gpilot_synchronize. With a
    // bus the first conduit gets every install shown; without one each conduit does.
    method InstallAll(conduits: seq<nat>)
      modifies this`log, queue
      ensures var list, n := Installable(old(queue.kfile), pilotId), |old(log)|;
        && n <= |log| && log[..n] == old(log)
        && (connected && conduits != [] ==>
              && |log| == n + |list|
              && (forall k :: 0 <= k < |list| ==> log[n + k] == Delivery(conduits[0], list[k]))
              && Taken(old(queue.kfile), queue.kfile, Pilot(pilotId), list))
        && (!connected ==>
              && |log| == n + |conduits| * |list|
              && queue.kfile == old(queue.kfile))
      ensures log == old(log) + Delivered(old(queue.kfile), pilotId, conduits, connected)
      ensures queue.kfile == QueueAfter(old(queue.kfile), pilotId, conduits, connected)
    {
      ghost var goal := QueueAfter(queue.kfile, pilotId, conduits, connected);
      ghost var all := log + Delivered(queue.kfile, pilotId, conduits, connected);
      var i := 0;
      while i < |conduits|
        invariant 0 <= i <= |conduits|
        invariant log + Delivered(queue.kfile, pilotId, conduits[i..], connected) == all
        invariant QueueAfter(queue.kfile, pilotId, conduits[i..], connected) == goal
      {
        ghost var kf, before := queue.kfile, log;
        InstallForeach(conduits[i]);
        assert conduits[i..][1..] == conduits[i + 1..];
        ghost var here := Deliveries(conduits[i], Installable(kf, pilotId));
        ghost var later := Delivered(queue.kfile, pilotId, conduits[i + 1..], connected);
        assert before + (here + later) == (before + here) + later;
        i := i + 1;
      }
      WholeLog(old(queue.kfile), queue.kfile, pilotId, conduits, connected, old(log), log);
    }
  }

  // What the loop over the conduits adds to a log.
  lemma WholeLog(kf: KeyFile, kf': KeyFile, pilotId: uint32, conduits: seq<nat>, connected: bool,
                 before: seq<Delivery>, log: seq<Delivery>)
    requires log == before + Delivered(kf, pilotId, conduits, connected)
    requires kf' == QueueAfter(kf, pilotId, conduits, connected)
    ensures var list, n := Installable(kf, pilotId), |before|;
      && n <= |log| && log[..n] == before
      && (connected && conduits != [] ==>
            && |log| == n + |list|
            && (forall k :: 0 <= k < |list| ==> log[n + k] == Delivery(conduits[0], list[k]))
            && Taken(kf, kf', Pilot(pilotId), list))
      && (!connected ==> |log| == n + |conduits| * |list| && kf' == kf)
  {
    if connected {
      if conduits != [] { ShownInstallsOnce(kf, pilotId, conduits); }
    } else {
      WithoutBus(kf, pilotId, conduits);
    }
  }

  /* ----- Exactly once ----- */

  predicate IsInstall(r: Request) {
    r.body.Install?
  }

  // How many of the requests are for something else.
  function Others(reqs: seq<Request>): nat {
    if reqs == [] then 0
    else Others(reqs[..|reqs| - 1]) + if IsInstall(reqs[|reqs| - 1]) then 0 else 1
  }

  // The installs numbered above k are gone, everything else is still there.
  ghost predicate Swept(kf: KeyFile, o: Owner, reqs: seq<Request>, k: nat) {
    && k <= |reqs| < INT32_LIMIT
    && Counter(kf, o) as int == k + Others(reqs) - Others(reqs[..k])
    && (forall n: uint32 :: SweptAt(kf, o, reqs, k, n))
  }

  predicate SweptAt(kf: KeyFile, o: Owner, reqs: seq<Request>, k: nat, n: uint32) {
    if 0 < n <= |reqs| && (n <= k || !IsInstall(reqs[n - 1])) then Nth(kf, LoaderOf(o), o.System?, reqs, n)
    else RequestGroup(o, n) !in kf
  }

  lemma SweptAtKeeps(kf: KeyFile, kf': KeyFile, o: Owner, reqs: seq<Request>, k: nat, n: uint32)
    requires SweptAt(kf, o, reqs, k, n) && SameGroup(kf, kf', RequestGroup(o, n))
    ensures SweptAt(kf', o, reqs, k, n)
  {
    if 0 < n <= |reqs| { HoldsDepends(kf, kf', LoaderOf(o), o.System?, n, reqs[n - 1]); }
  }

  lemma SweepInstall(kf: KeyFile, o: Owner, reqs: seq<Request>, k: uint32)
    requires o.Pilot? && 0 < k && Swept(kf, o, reqs, k) && IsInstall(reqs[k - 1])
    ensures Swept(Purged(kf, reqs[k - 1]), o, reqs, k - 1)
  {
    var r, kf' := reqs[k - 1], Purged(kf, reqs[k - 1]);
    assert reqs[..k][..k - 1] == reqs[..k - 1];
    assert SweptAt(kf, o, reqs, k, k);
    HoldsOwn(kf, LoaderOf(o), o.System?, k, r);
    PurgedGroups(kf, r);
    OthersGrow(reqs, k);
    var below: nat := k - 1;
    forall n: uint32
      ensures SweptAt(kf', o, reqs, below, n)
    {
      assert SweptAt(kf, o, reqs, k, n);
      if n != k { SweptAtKeeps(kf, kf', o, reqs, k, n); }
    }
  }

  lemma SweepOther(kf: KeyFile, o: Owner, reqs: seq<Request>, k: uint32)
    requires 0 < k && Swept(kf, o, reqs, k) && !IsInstall(reqs[k - 1])
    ensures Swept(kf, o, reqs, k - 1)
  {
    assert reqs[..k][..k - 1] == reqs[..k - 1];
    var below: nat := k - 1;
    forall n: uint32
      ensures SweptAt(kf, o, reqs, below, n)
    {
      assert SweptAt(kf, o, reqs, k, n);
    }
  }

  lemma {:induction false} OthersGrow(reqs: seq<Request>, k: nat)
    requires k <= |reqs|
    ensures Others(reqs[..k]) <= Others(reqs) && Others(reqs) - Others(reqs[..k]) <= |reqs| - k
    ensures Others(reqs[..k]) <= k
    decreases |reqs|
  {
    if k < |reqs| {
      assert reqs[..|reqs| - 1][..k] == reqs[..k];
      OthersGrow(reqs[..|reqs| - 1], k);
    } else {
      assert reqs[..k] == reqs;
      if k > 0 { OthersGrow(reqs[..k - 1], k - 1); assert reqs[..k - 1][..k - 1] == reqs[..k - 1]; }
    }
  }

  // Completing the installs among the first k requests, newest first, sweeps them.
  lemma {:induction false} SweepAll(kf: KeyFile, o: Owner, reqs: seq<Request>, k: uint32)
    requires o.Pilot? && Swept(kf, o, reqs, k)
    ensures Swept(Completed(kf, Reversed(Chosen(reqs[..k], Some(KInstall))), true), o, reqs, 0)
    decreases k
  {
    if k > 0 {
      var r, chosen := reqs[k - 1], Chosen(reqs[..k - 1], Some(KInstall));
      assert reqs[..k][..k - 1] == reqs[..k - 1] && reqs[..k][k - 1] == r;
      if IsInstall(r) {
        SweepInstall(kf, o, reqs, k);
        assert Chosen(reqs[..k], Some(KInstall)) == chosen + [r] && (chosen + [r])[..|chosen|] == chosen;
        assert Reversed(chosen + [r]) == [r] + Reversed(chosen) && ([r] + Reversed(chosen))[1..] == Reversed(chosen);
        SweepAll(Purged(kf, r), o, reqs, k - 1);
      } else {
        SweepOther(kf, o, reqs, k);
        assert Chosen(reqs[..k], Some(KInstall)) == chosen + [] && chosen + [] == chosen;
        SweepAll(kf, o, reqs, k - 1);
      }
    }
  }

  // After the sweep nothing is left to install.
  lemma {:induction false} NothingInstallable(kf: KeyFile, o: Owner, reqs: seq<Request>, num: uint32,
                                              list: seq<Request>)
    requires o.Pilot? && Swept(kf, o, reqs, 0)
    ensures LoadDown(kf, o.id, false, Some(KInstall), num, list) == list
    decreases num
  {
    if num > 0 {
      assert SweptAt(kf, o, reqs, 0, num);
      NothingInstallable(kf, o, reqs, num - 1, list);
    }
  }

  lemma {:induction false} LaterConduitsGetNothing(kf: KeyFile, o: Owner, reqs: seq<Request>, conduits: seq<nat>)
    requires o.Pilot? && Swept(kf, o, reqs, 0)
    ensures Delivered(kf, o.id, conduits, true) == [] && QueueAfter(kf, o.id, conduits, true) == kf
    decreases |conduits|
  {
    if conduits != [] {
      NothingInstallable(kf, o, reqs, Numbered(Counter(kf, o)), []);
      LaterConduitsGetNothing(kf, o, reqs, conduits[1..]);
    }
  }

  // How many installs were queued after the request at n.
  function NewerInstalls(reqs: seq<Request>, n: nat): nat
    requires n < |reqs|
    decreases |reqs|
  {
    if n + 1 == |reqs| then 0
    else NewerInstalls(reqs[..|reqs| - 1], n) + if IsInstall(reqs[|reqs| - 1]) then 1 else 0
  }

  lemma ChosenStep(init: seq<Request>, last: Request)
    ensures var list := Reversed(Chosen(init, Some(KInstall)));
      Reversed(Chosen(init + [last], Some(KInstall))) == if IsInstall(last) then [last] + list else list
  {
    var chosen := Chosen(init, Some(KInstall));
    assert (init + [last])[..|init|] == init;
    assert (chosen + [last])[..|chosen|] == chosen;
    assert chosen + [] == chosen;
  }

  lemma ChosenCountStep(init: seq<Request>, last: Request)
    requires |Reversed(Chosen(init, Some(KInstall)))| == |init| - Others(init)
    ensures |Reversed(Chosen(init + [last], Some(KInstall)))| == |init| + 1 - Others(init + [last])
  {
    ChosenStep(init, last);
    assert (init + [last])[..|init|] == init;
  }

  lemma {:induction false} ChosenCount(reqs: seq<Request>)
    ensures |Reversed(Chosen(reqs, Some(KInstall)))| == |reqs| - Others(reqs)
    decreases |reqs|
  {
    if reqs != [] {
      var init, last := reqs[..|reqs| - 1], reqs[|reqs| - 1];
      ChosenCount(init);
      ChosenCountStep(init, last);
      assert init + [last] == reqs;
    }
  }

  // The row of installs, newest first, has each at the place of its age.
  lemma {:induction false} ChosenByAge(reqs: seq<Request>, n: nat)
    requires n < |reqs| && IsInstall(reqs[n])
    ensures var list := Reversed(Chosen(reqs, Some(KInstall)));
      NewerInstalls(reqs, n) < |list| && list[NewerInstalls(reqs, n)] == reqs[n]
    decreases |reqs|
  {
    ChosenStep(reqs[..|reqs| - 1], reqs[|reqs| - 1]);
    assert reqs[..|reqs| - 1] + [reqs[|reqs| - 1]] == reqs;
    if n + 1 < |reqs| { ChosenByAge(reqs[..|reqs| - 1], n); }
  }

  // With a bus, every pending install of the pilot goes to the first file
  // conduit exactly once, newest first, and is gone afterwards; every other
  // request keeps its number, and the counter is how many of those there are.
  lemma InstallsExactlyOnce(kf: KeyFile, pilotId: uint32, reqs: seq<Request>, conduits: seq<nat>)
    requires OwnerStack(kf, Pilot(pilotId), reqs) && conduits != []
    ensures var log := Delivered(kf, pilotId, conduits, true);
      && |log| == |reqs| - Others(reqs)
      && (forall n :: 0 <= n < |reqs| && IsInstall(reqs[n]) ==>
            NewerInstalls(reqs, n) < |log| && log[NewerInstalls(reqs, n)] == Delivery(conduits[0], reqs[n]))
    ensures Swept(QueueAfter(kf, pilotId, conduits, true), Pilot(pilotId), reqs, 0)
  {
    var o := Pilot(pilotId);
    var list := Reversed(Chosen(reqs, Some(KInstall)));
    LoadStack(kf, pilotId, false, Some(KInstall), reqs);
    assert reqs[..|reqs|] == reqs;
    forall n: uint32
      ensures SweptAt(kf, o, reqs, |reqs|, n)
    {
      if 0 < n <= |reqs| { assert Nth(kf, pilotId, false, reqs, n); }
    }
    SweepAll(kf, o, reqs, |reqs|);
    LaterConduitsGetNothing(Completed(kf, list, true), o, reqs, conduits[1..]);
    ChosenCount(reqs);
    forall n | 0 <= n < |reqs| && IsInstall(reqs[n])
      ensures NewerInstalls(reqs, n) < |list| && list[NewerInstalls(reqs, n)] == reqs[n]
    {
      ChosenByAge(reqs, n);
    }
  }

  // Where every request is an install, the age counts from the end.
  lemma {:induction false} NoOthers(reqs: seq<Request>)
    requires forall i :: 0 <= i < |reqs| ==> IsInstall(reqs[i])
    ensures Others(reqs) == 0
    ensures forall n :: 0 <= n < |reqs| ==> NewerInstalls(reqs, n) == |reqs| - 1 - n
    decreases |reqs|
  {
    if reqs != [] { NoOthers(reqs[..|reqs| - 1]); }
  }

  // When only installs are pending, the queue ends empty.
  lemma InstallsEmptyQueue(kf: KeyFile, pilotId: uint32, reqs: seq<Request>, conduits: seq<nat>)
    requires OwnerStack(kf, Pilot(pilotId), reqs) && conduits != []
    requires forall i :: 0 <= i < |reqs| ==> IsInstall(reqs[i])
    ensures var log := Delivered(kf, pilotId, conduits, true);
      && |log| == |reqs|
      && (forall n :: 0 <= n < |reqs| ==> log[|reqs| - 1 - n] == Delivery(conduits[0], reqs[n]))
    ensures OwnerStack(QueueAfter(kf, pilotId, conduits, true), Pilot(pilotId), [])
  {
    InstallsExactlyOnce(kf, pilotId, reqs, conduits);
    NoOthers(reqs);
    var kf' := QueueAfter(kf, pilotId, conduits, true);
    assert reqs[..0] == [];
    forall n: uint32
      ensures RequestGroup(Pilot(pilotId), n) !in kf'
    {
      assert SweptAt(kf', Pilot(pilotId), reqs, 0, n);
    }
  }

  lemma OneMoreRow(rows: nat, n: nat)
    requires rows > 0
    ensures rows * n == n + (rows - 1) * n
  {
  }

  // Without a bus nothing is purged, and there are as many deliveries to each
  // conduit as a load shows installs.
  lemma {:induction false} WithoutBus(kf: KeyFile, pilotId: uint32, conduits: seq<nat>)
    ensures QueueAfter(kf, pilotId, conduits, false) == kf
    ensures |Delivered(kf, pilotId, conduits, false)| == |conduits| * |Installable(kf, pilotId)|
    decreases |conduits|
  {
    if conduits != [] {
      WithoutBus(kf, pilotId, conduits[1..]);
      OneMoreRow(|conduits|, |Installable(kf, pilotId)|);
    }
  }

  // Conduit after conduit gets every one of them.
  lemma {:induction false} WithoutBusAt(kf: KeyFile, pilotId: uint32, conduits: seq<nat>, c: nat, k: nat)
    requires c < |conduits| && k < |Installable(kf, pilotId)|
    ensures var log, n := Delivered(kf, pilotId, conduits, false), |Installable(kf, pilotId)|;
      0 <= c * n + k < |log| && log[c * n + k] == Delivery(conduits[c], Installable(kf, pilotId)[k])
    decreases |conduits|
  {
    var n := |Installable(kf, pilotId)|;
    if c == 0 {
      assert c * n == 0;
    } else {
      WithoutBusAt(kf, pilotId, conduits[1..], c - 1, k);
      OneMoreRow(c, n);
    }
  }

  lemma {:induction false} NoOthersAbove(reqs: seq<Request>, m: nat)
    requires m <= |reqs| && forall i :: m <= i < |reqs| ==> IsInstall(reqs[i])
    ensures Others(reqs) == Others(reqs[..m])
    decreases |reqs|
  {
    if m < |reqs| {
      assert reqs[..|reqs| - 1][..m] == reqs[..m];
      NoOthersAbove(reqs[..|reqs| - 1], m);
    } else {
      assert reqs[..m] == reqs;
    }
  }

  lemma {:induction false} OnlyOthers(reqs: seq<Request>)
    ensures Others(reqs) <= |reqs|
    ensures Others(reqs) == |reqs| <==> forall i :: 0 <= i < |reqs| ==> !IsInstall(reqs[i])
    decreases |reqs|
  {
    if reqs != [] {
      var rest := reqs[..|reqs| - 1];
      OnlyOthers(rest);
      assert forall i :: 0 <= i < |reqs| ==> (i < |rest| && reqs[i] == rest[i]) || i == |rest|;
      if Others(rest) < |rest| {
        var i :| 0 <= i < |rest| && IsInstall(rest[i]);
        assert IsInstall(reqs[i]);
      }
    }
  }

  lemma OthersFirstIf(reqs: seq<Request>)
    requires forall i :: 0 <= i < |reqs| && !IsInstall(reqs[i]) ==> i + 1 <= Others(reqs)
    ensures forall i, j :: 0 <= i < j < |reqs| && IsInstall(reqs[i]) ==> IsInstall(reqs[j])
  {
    var m := Others(reqs);
    OnlyOthers(reqs);
    NoOthersAbove(reqs, m);
    OnlyOthers(reqs[..m]);
    assert forall i :: 0 <= i < m ==> reqs[..m][i] == reqs[i];
  }

  lemma OthersFirstAt(reqs: seq<Request>, i: nat)
    requires forall i, j :: 0 <= i < j < |reqs| && IsInstall(reqs[i]) ==> IsInstall(reqs[j])
    requires i < |reqs| && !IsInstall(reqs[i])
    ensures i + 1 <= Others(reqs)
  {
    OnlyOthers(reqs[..i + 1]);
    assert forall k :: 0 <= k < i + 1 ==> reqs[..i + 1][k] == reqs[k];
    OthersGrow(reqs, i + 1);
  }

  // None of the other requests is numbered above their count exactly when every
  // install comes after every other request.
  lemma OthersFirst(reqs: seq<Request>)
    ensures (forall i :: 0 <= i < |reqs| && !IsInstall(reqs[i]) ==> i + 1 <= Others(reqs)) <==>
            (forall i, j :: 0 <= i < j < |reqs| && IsInstall(reqs[i]) ==> IsInstall(reqs[j]))
  {
    if forall i :: 0 <= i < |reqs| && !IsInstall(reqs[i]) ==> i + 1 <= Others(reqs) {
      OthersFirstIf(reqs);
    } else if forall i, j :: 0 <= i < j < |reqs| && IsInstall(reqs[i]) ==> IsInstall(reqs[j]) {
      forall i | 0 <= i < |reqs| && !IsInstall(reqs[i]) ensures i + 1 <= Others(reqs) {
        OthersFirstAt(reqs, i);
      }
    }
  }

  // A request that can be read is loaded exactly when its number is up to the counter.
  lemma LoadedExactly(kf: KeyFile, o: Owner, n: uint32, r: Request)
    requires 0 < n && Holds(kf, LoaderOf(o), o.System?, n, r)
    ensures r in LoadAll(kf, o) <==> n <= Numbered(Counter(kf, o))
  {
    HoldsOwn(kf, LoaderOf(o), o.System?, n, r);
    LoadShowsExactly(kf, o, None);
    assert n <= Numbered(Counter(kf, o)) ==> ShownIn(kf, o, None, n, LoadAll(kf, o));
  }

  // A request is still loaded after the installs exactly when its number is not
  // above the count of requests that are left.
  lemma VisibleExactly(kf: KeyFile, o: Owner, reqs: seq<Request>, i: nat)
    requires o.Pilot? && Swept(kf, o, reqs, 0) && i < |reqs| && !IsInstall(reqs[i])
    ensures reqs[i] in LoadAll(kf, o) <==> i + 1 <= Others(reqs)
  {
    assert SweptAt(kf, o, reqs, 0, i + 1);
    LoadedExactly(kf, o, i + 1, reqs[i]);
    assert reqs[..0] == [];
  }

  // After the installs the requests that are left can all still be loaded
  // exactly when every install was queued after every other request.
  lemma OthersStayVisible(kf: KeyFile, pilotId: uint32, reqs: seq<Request>, conduits: seq<nat>)
    requires OwnerStack(kf, Pilot(pilotId), reqs) && conduits != []
    ensures var after := LoadAll(QueueAfter(kf, pilotId, conduits, true), Pilot(pilotId));
      (forall i :: 0 <= i < |reqs| && !IsInstall(reqs[i]) ==> reqs[i] in after) <==>
      (forall i, j :: 0 <= i < j < |reqs| && IsInstall(reqs[i]) ==> IsInstall(reqs[j]))
  {
    var kf' := QueueAfter(kf, pilotId, conduits, true);
    InstallsExactlyOnce(kf, pilotId, reqs, conduits);
    forall i | 0 <= i < |reqs| && !IsInstall(reqs[i])
      ensures reqs[i] in LoadAll(kf', Pilot(pilotId)) <==> i + 1 <= Others(reqs)
    {
      VisibleExactly(kf', Pilot(pilotId), reqs, i);
    }
    OthersFirst(reqs);
  }

  /* ----- Any file ----- */

  // The requests of a list are gone, every other group is as it was, and the
  // counter fell by their number.
  ghost predicate Taken(kf: KeyFile, kf': KeyFile, o: Owner, list: seq<Request>) {
    && Counter(kf', o) as int == Counter(kf, o) as int - |list|
    && (forall i :: 0 <= i < |list| ==> list[i].section !in kf')
    && (forall g: GroupName :: g != CounterGroup(o) && (forall i :: 0 <= i < |list| ==> list[i].section != g) ==>
          SameGroup(kf, kf', g))
  }

  ghost predicate Owned(o: Owner, list: seq<Request>) {
    forall i :: 0 <= i < |list| ==>
      list[i].section.RequestGroup? && list[i].section.o == o && RequestOwner(list[i]) == o
  }

  lemma {:induction false} CompletedTakes(kf: KeyFile, o: Owner, list: seq<Request>)
    requires Owned(o, list) && |list| <= Counter(kf, o)
    ensures Taken(kf, Completed(kf, list, true), o, list)
    decreases |list|
  {
    if list != [] {
      var kf1, rest := Purged(kf, list[0]), list[1..];
      PurgedGroups(kf, list[0]);
      assert forall i :: 0 <= i < |rest| ==> rest[i] == list[i + 1];
      CompletedTakes(kf1, o, rest);
      TakenMore(kf, kf1, Completed(kf1, rest, true), o, list);
    }
  }

  lemma TakenMore(kf: KeyFile, kf1: KeyFile, kf': KeyFile, o: Owner, list: seq<Request>)
    requires list != [] && Taken(kf1, kf', o, list[1..]) && Counter(kf1, o) as int == Counter(kf, o) as int - 1
    requires list[0].section !in kf1 && list[0].section.RequestGroup?
    requires forall g :: g != CounterGroup(o) && g != list[0].section ==> SameGroup(kf, kf1, g)
    ensures Taken(kf, kf', o, list)
  {
    var rest := list[1..];
    assert forall i :: 0 < i < |list| ==> list[i] == rest[i - 1];
    if forall i :: 0 <= i < |rest| ==> rest[i].section != list[0].section {
      assert SameGroup(kf1, kf', list[0].section);
    }
    forall g: GroupName | g != CounterGroup(o) && (forall i :: 0 <= i < |list| ==> list[i].section != g)
      ensures SameGroup(kf, kf', g)
    {
      assert list[0].section != g && SameGroup(kf, kf1, g);
      assert forall i :: 0 <= i < |rest| ==> rest[i].section != g;
      assert SameGroup(kf1, kf', g);
    }
  }

  lemma {:induction false} FallingIsShort(kf: KeyFile, o: Owner, wanted: Option<Kind>, list: seq<Request>, i: nat,
                                          bound: nat)
    requires Falling(kf, o, wanted, list, 0, bound) && i < |list|
    ensures list[i].section.num >= |list| - i
    decreases |list| - i
  {
    if i + 1 < |list| { FallingIsShort(kf, o, wanted, list, i + 1, bound); }
  }

  lemma InstallsAreOwned(kf: KeyFile, pilotId: uint32)
    ensures var o, list := Pilot(pilotId), Installable(kf, pilotId);
      && Falling(kf, o, Some(KInstall), list, 0, Numbered(Counter(kf, o)))
      && Owned(o, list) && |list| <= (if Counter(kf, o) < 0 then 0 else Counter(kf, o))
  {
    var o, list := Pilot(pilotId), Installable(kf, pilotId);
    LoadShowsExactly(kf, o, Some(KInstall));
    forall i | 0 <= i < |list|
      ensures list[i].section == RequestGroup(o, list[i].section.num) && RequestOwner(list[i]) == o
    {
      HoldsOwn(kf, pilotId, false, list[i].section.num, list[i]);
    }
    if list != [] { FallingIsShort(kf, o, Some(KInstall), list, 0, Numbered(Counter(kf, o))); }
  }

  // No install the load showed is there any more, and no other request became one.
  lemma NoLongerWanted(kf: KeyFile, kf': KeyFile, pilotId: uint32, n: uint32)
    requires Taken(kf, kf', Pilot(pilotId), Installable(kf, pilotId))
    requires 0 < n <= Numbered(Counter(kf, Pilot(pilotId)))
    ensures !Wanted(Load(kf', pilotId, false, n), Some(KInstall))
  {
    var o, list := Pilot(pilotId), Installable(kf, pilotId);
    var r := Load(kf, pilotId, false, n);
    LoadShowsExactly(kf, o, Some(KInstall));
    if Wanted(r, Some(KInstall)) {
      assert Holds(kf, pilotId, false, n, r.value);
      HoldsOwn(kf, pilotId, false, n, r.value);
      assert ShownIn(kf, o, Some(KInstall), n, list);
      assert RequestGroup(o, n) !in kf';
    } else if RequestGroup(o, n) in kf' {
      assert SameGroup(kf, kf', RequestGroup(o, n));
      LoadDepends(kf, kf', pilotId, false, n);
    }
  }

  lemma {:induction false} NothingWanted(kf: KeyFile, pilotId: uint32, num: uint32, list: seq<Request>)
    requires forall n: uint32 :: 0 < n <= num ==> !Wanted(Load(kf, pilotId, false, n), Some(KInstall))
    ensures LoadDown(kf, pilotId, false, Some(KInstall), num, list) == list
    decreases num
  {
    if num > 0 { NothingWanted(kf, pilotId, num - 1, list); }
  }

  // Nothing is left for a second conduit.
  lemma NoneLeft(kf: KeyFile, pilotId: uint32)
    ensures var list := Installable(kf, pilotId);
      var kf' := Completed(kf, list, true);
      Installable(kf', pilotId) == [] && Taken(kf, kf', Pilot(pilotId), list)
  {
    var o, list := Pilot(pilotId), Installable(kf, pilotId);
    var kf' := Completed(kf, list, true);
    InstallsAreOwned(kf, pilotId);
    if list != [] {
      CompletedTakes(kf, o, list);
      forall n: uint32 | 0 < n <= Numbered(Counter(kf', o))
        ensures !Wanted(Load(kf', pilotId, false, n), Some(KInstall))
      {
        NoLongerWanted(kf, kf', pilotId, n);
      }
      NothingWanted(kf', pilotId, Numbered(Counter(kf', o)), []);
    }
  }

  lemma {:induction false} NothingDelivered(kf: KeyFile, pilotId: uint32, conduits: seq<nat>)
    requires Installable(kf, pilotId) == []
    ensures Delivered(kf, pilotId, conduits, true) == [] && QueueAfter(kf, pilotId, conduits, true) == kf
    decreases |conduits|
  {
    if conduits != [] { NothingDelivered(kf, pilotId, conduits[1..]); }
  }

  // With a bus, and whatever the file holds: the installs a load shows go to the
  // first file conduit, each once, the highest number first, and later conduits
  // get nothing. Their groups are gone afterwards, every other group is as it
  // was, and the counter fell by their number.
  lemma ShownInstallsOnce(kf: KeyFile, pilotId: uint32, conduits: seq<nat>)
    requires conduits != []
    ensures var list, kf' := Installable(kf, pilotId), QueueAfter(kf, pilotId, conduits, true);
      && |Delivered(kf, pilotId, conduits, true)| == |list|
      && (forall k :: 0 <= k < |list| ==> Delivered(kf, pilotId, conduits, true)[k] == Delivery(conduits[0], list[k]))
      && Falling(kf, Pilot(pilotId), Some(KInstall), list, 0, Numbered(Counter(kf, Pilot(pilotId))))
      && Installable(kf', pilotId) == [] && Taken(kf, kf', Pilot(pilotId), list)
  {
    InstallsAreOwned(kf, pilotId);
    NoneLeft(kf, pilotId);
    NothingDelivered(Completed(kf, Installable(kf, pilotId), true), pilotId, conduits[1..]);
  }
}
