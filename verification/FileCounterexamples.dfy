// Files on which the queue, the list of conduits and the saved setup do not do
// what one expects of them.
module FileCounterexamples {
  import opened KeyFiles
  import opened Records
  import opened Text
  import opened SyncTypes
  import opened RequestQueue
  import opened RequestHistories
  import opened QueueRuns
  import opened Installs
  import opened ConduitFiles
  import opened ConduitHistories
  import Setup
  import SetupResults

  /* ----- The request queue ----- */

  function InstallOf(name: string): Request {
    Request(Install(Some(name), None), 7, 0, None, None, 0, General)
  }

  lemma TwoPending(a: string, b: string)
    ensures var first, second := LoadedForm(InstallOf(a), 7, 1), LoadedForm(InstallOf(b), 7, 2);
      OwnerStack(Stored(Stored(map[], InstallOf(a)), InstallOf(b)), Pilot(7), [first, second])
  {
    var first, second := LoadedForm(InstallOf(a), 7, 1), LoadedForm(InstallOf(b), 7, 2);
    EmptyStack(Pilot(7));
    Pushed(map[], Pilot(7), InstallOf(a), [], [first]);
    Pushed(Stored(map[], InstallOf(a)), Pilot(7), InstallOf(b), [first], [first, second]);
  }

  lemma Pushed(kf: KeyFile, o: Owner, r: Request, reqs: seq<Request>, more: seq<Request>)
    requires OwnerStack(kf, o, reqs) && RequestOwner(r) == o && |reqs| + 1 < INT32_LIMIT
    requires more == reqs + [LoadedForm(r, LoaderOf(o), |reqs| + 1)]
    ensures OwnerStack(Stored(kf, r), o, more)
  {
    PushKeepsStacks(kf, r, o, reqs);
  }

  // Of two stored requests the first is purged; the second is no longer loaded,
  // and a third one takes its place.
  lemma SecondRequestVanishes(a: string, b: string, c: string)
    ensures var first, second := LoadedForm(InstallOf(a), 7, 1), LoadedForm(InstallOf(b), 7, 2);
      var kf := Purged(Stored(Stored(map[], InstallOf(a)), InstallOf(b)), first);
      && second !in LoadAll(kf, Pilot(7))
      && Groups(Stored(kf, InstallOf(c)), Pilot(7)) == Groups(kf, Pilot(7))
  {
    TwoPending(a, b);
    SecondVanishes(Stored(Stored(map[], InstallOf(a)), InstallOf(b)), InstallOf(c),
                   LoadedForm(InstallOf(a), 7, 1), LoadedForm(InstallOf(b), 7, 2));
  }

  lemma SecondVanishes(kf: KeyFile, third: Request, first: Request, second: Request)
    requires OwnerStack(kf, Pilot(7), [first, second]) && RequestOwner(third) == Pilot(7)
    ensures second !in LoadAll(Purged(kf, first), Pilot(7))
    ensures Groups(Stored(Purged(kf, first), third), Pilot(7)) == Groups(Purged(kf, first), Pilot(7))
  {
    PurgeInTheMiddle(kf, Pilot(7), [first, second], 1);
    StoredGroupSet(Purged(kf, first), third, Pilot(7));
  }

  function Described(name: string, description: string): Request {
    Request(Install(Some(name), Some(description)), 7, 0, None, None, 0, General)
  }

  // A third install without a description, stored over the second one, is loaded
  // with the second one's description.
  lemma DescriptionShowsThrough(a: string, b: string, d: string, c: string)
    ensures var first := LoadedForm(InstallOf(a), 7, 1);
      var kf := Purged(Stored(Stored(map[], InstallOf(a)), Described(b, d)), first);
      Load(Stored(kf, InstallOf(c)), 7, false, 2) != Some(LoadedForm(InstallOf(c), 7, 2))
  {
    var first, second := LoadedForm(InstallOf(a), 7, 1), LoadedForm(Described(b, d), 7, 2);
    EmptyStack(Pilot(7));
    Pushed(map[], Pilot(7), InstallOf(a), [], [first]);
    Pushed(Stored(map[], InstallOf(a)), Pilot(7), Described(b, d), [first], [first, second]);
    ShowsThrough(Stored(Stored(map[], InstallOf(a)), Described(b, d)), InstallOf(c), first, second);
  }

  lemma ShowsThrough(kf: KeyFile, third: Request, first: Request, second: Request)
    requires OwnerStack(kf, Pilot(7), [first, second]) && RequestOwner(third) == Pilot(7)
    requires third.body.Install? && third.body.description.None?
    requires second.body.Install? && second.body.description.Some?
    ensures Load(Stored(Purged(kf, first), third), 7, false, 2) != Some(LoadedForm(third, 7, 2))
  {
    PurgeInTheMiddle(kf, Pilot(7), [first, second], 1);
    var kf' := Purged(kf, first);
    var g := GroupOf(kf', RequestGroup(Pilot(7), 2));
    FieldAt(third, Handle(Pilot(7), 2), Description);
    StoreThenLoad(kf', third, 7, false, 2);
    assert Holds(kf', 7, false, 2, second);
    DescriptionOf(g, RequestGroup(Pilot(7), 2), second);
    assert Description in TextKeys(KInstall) && !CleanUnder(g, Fields(third, Handle(Pilot(7), 2)), Description);
    assert !Holds(Stored(kf', third), 7, false, 2, LoadedForm(third, 7, 2));
  }

  lemma DescriptionOf(g: Group, section: GroupName, r: Request)
    requires Parse(g, 7, section) == Some(r) && r.body.Install?
    ensures GetString(g, Description) == r.body.description
  {
    LoadedKind(g, KindFromString(GetString(g, Type)).value);
  }

  function RestoreOf(directory: string): Request {
    Request(Restore(Some(directory)), 7, 0, None, None, 0, General)
  }

  // An install queued before a restore: once it is delivered the restore is not
  // loaded any more.
  lemma RestoreVanishes(a: string, d: string, conduit: nat)
    ensures var kf := Stored(Stored(map[], InstallOf(a)), RestoreOf(d));
      LoadedForm(RestoreOf(d), 7, 2) !in LoadAll(QueueAfter(kf, 7, [conduit], true), Pilot(7))
  {
    var first, second := LoadedForm(InstallOf(a), 7, 1), LoadedForm(RestoreOf(d), 7, 2);
    EmptyStack(Pilot(7));
    Pushed(map[], Pilot(7), InstallOf(a), [], [first]);
    Pushed(Stored(map[], InstallOf(a)), Pilot(7), RestoreOf(d), [first], [first, second]);
    AfterInstall(Stored(Stored(map[], InstallOf(a)), RestoreOf(d)), first, second, conduit);
  }

  lemma AfterInstall(kf: KeyFile, first: Request, second: Request, conduit: nat)
    requires OwnerStack(kf, Pilot(7), [first, second]) && IsInstall(first) && !IsInstall(second)
    ensures second !in LoadAll(QueueAfter(kf, 7, [conduit], true), Pilot(7))
  {
    var reqs := [first, second];
    assert reqs[..1] == [first] && reqs[..1][..0] == [];
    assert Installs.Others([first]) == 0;
    assert Installs.Others(reqs) == 1;
    InstallsExactlyOnce(kf, 7, reqs, [conduit]);
    VisibleExactly(QueueAfter(kf, 7, [conduit], true), Pilot(7), reqs, 1);
  }

  lemma EmptyStack(o: Owner)
    ensures OwnerStack(map[], o, [])
  {
  }

  /* ----- Conduits ----- */

  const TWO_SPELLINGS: KeyFile := map[
    General := map[Conduits := List(["a", "A"])],
    ConduitGroup("a") := map[],
    ConduitGroup("A") := map[]
  ]

  // Disabling "a" drops "A" from the list and leaves its group behind.
  lemma OtherSpellingIsDropped()
    ensures WellFormed(TWO_SPELLINGS) && !WellFormed(Disabled(TWO_SPELLINGS, "a"))
  {
    assert "a"[0] != "A"[0];
    assert "A" in Ids(TWO_SPELLINGS) by { assert Ids(TWO_SPELLINGS)[1] == "A"; }
    assert "a" in Ids(TWO_SPELLINGS) by { assert Ids(TWO_SPELLINGS)[0] == "a"; }
    SameIgnoringCaseAt("A", "a");
    DisableKeepsExactly(TWO_SPELLINGS, "a");
  }

  const ARMED: KeyFile := map[
    General := map[Conduits := List(["a"])],
    ConduitGroup("a") := map[FirstSyncType := Str("copy_from_pilot"), SyncTypeKey := Str("synchronize")]
  ]

  // A conduit asked for twice in one session is copied over twice.
  lemma FirstSyncTwiceInOneSession()
    ensures FirstDispatches(SessionLog(ARMED, ["a", "a"]), "a") == 2
  {
    assert "a" in Ids(ARMED) by { assert Ids(ARMED)[0] == "a"; }
    NamesRoundTrip(CopyFromPilot);
    FirstSyncEveryTimeWithin(ARMED, ["a", "a"], "a");
  }

  /* ----- The saved setup ----- */

  // A setup with one pilot, created 2^31 seconds after the beginning of the count.
  const LATE: Setup.PilotState := Setup.PilotState(1, 5, [], [
    Setup.Pda(0, Some("MyPDA"), 1, None, None, 0x8000_0000, 0, Some("/home"), None)])

  // The capplet and the daemon read the date back with its upper half set.
  lemma LateCreationIsSpoilt(env: Setup.Environment, kf: KeyFile)
    ensures var read := Setup.CappletLoaded(env, Setup.Saved(kf, LATE)).pilots;
      |read| == 1 && read[0].creation == 0xFFFF_FFFF_8000_0000 && read != LATE.pilots
    ensures var read := Setup.DaemonLoaded(env, Setup.Saved(kf, LATE)).pilots;
      |read| == 1 && read[0].creation == 0xFFFF_FFFF_8000_0000
  {
    assert ToInt32(0x8000_0000) == -0x8000_0000;
    assert (-0x8000_0000) % Setup.ULONG_LIMIT == 0xFFFF_FFFF_8000_0000;
    SetupResults.CappletReadsBack(env, kf, LATE);
    SetupResults.DaemonReadsBack(env, kf, LATE);
  }
}
