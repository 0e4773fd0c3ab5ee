// What the conduits file keeps over any history of edits, and which actions the
// daemon's sessions take from it.
module ConduitHistories {
  import opened Records
  import opened Text
  import opened KeyFiles
  import opened SyncTypes
  import opened ConduitFiles

  predicate Distinct(ids: seq<string>) {
    forall i, j :: 0 <= i < j < |ids| ==> ids[i] != ids[j]
  }

  // No conduit is listed twice, and a conduit has a group exactly when it is listed.
  ghost predicate WellFormed(kf: KeyFile) {
    && Distinct(Ids(kf))
    && forall id: string :: ConduitGroup(id) in kf <==> Enabled(kf, id)
  }

  // Another listed id that differs from this one only in ASCII case.
  ghost predicate Aliased(ids: seq<string>, id: string) {
    exists x :: x in ids && x != id && SameIgnoringCase(x, id)
  }

  lemma {:induction false} OthersMembers(ids: seq<string>, id: string, x: string)
    ensures x in Others(ids, id) <==> x in ids && !SameIgnoringCase(x, id)
  {
    if ids != [] {
      OthersMembers(ids[..|ids| - 1], id, x);
      assert ids == ids[..|ids| - 1] + [ids[|ids| - 1]];
    }
  }

  lemma {:induction false} OthersDistinct(ids: seq<string>, id: string)
    requires Distinct(ids)
    ensures Distinct(Others(ids, id))
  {
    if ids != [] {
      var init, last := ids[..|ids| - 1], ids[|ids| - 1];
      OthersDistinct(init, id);
      OthersMembers(init, id, last);
    }
  }

  lemma {:induction false} OthersKeepAll(ids: seq<string>, id: string)
    requires forall x :: x in ids ==> !SameIgnoringCase(x, id)
    ensures Others(ids, id) == ids
  {
    if ids != [] {
      OthersKeepAll(ids[..|ids| - 1], id);
      assert ids == ids[..|ids| - 1] + [ids[|ids| - 1]];
    }
  }

  lemma {:induction false} OthersOfSum(a: seq<string>, b: seq<string>, id: string)
    ensures Others(a + b, id) == Others(a, id) + Others(b, id)
  {
    if b == [] {
      assert a + b == a;
    } else {
      OthersOfSum(a, b[..|b| - 1], id);
      assert (a + b)[..|a + b| - 1] == a + b[..|b| - 1];
    }
  }

  lemma IdsAfterDisable(kf: KeyFile, id: string)
    requires Enabled(kf, id)
    ensures Ids(Disabled(kf, id)) == Others(Ids(kf), id)
    ensures forall g: GroupName :: !g.General? && g != ConduitGroup(id) ==>
              GroupOf(Disabled(kf, id), g) == GroupOf(kf, g) && (g in Disabled(kf, id) <==> g in kf)
    ensures ConduitGroup(id) !in Disabled(kf, id)
  {
  }

  // The ids of a row without one of them.
  lemma OthersInOrder(a: seq<string>, id: string, b: seq<string>)
    requires Distinct(a + [id] + b)
    ensures Others(a + [id] + b, id) == Others(a, id) + Others(b, id)
    ensures forall x :: x in a || x in b <==> x in a + [id] + b && x != id
  {
    OthersOfSum(a + [id], b, id);
    OthersOfSum(a, [id], id);
    SameAsItself(id);
    assert Others([id], id) == [];
    var ids := a + [id] + b;
    assert ids[|a|] == id;
    forall i | 0 <= i < |a| ensures a[i] != id { assert ids[i] == a[i]; }
    forall i | 0 <= i < |b| ensures b[i] != id { assert ids[|a| + 1 + i] == b[i]; }
  }

  // Disabling takes out the id and leaves the others in order, exactly when no
  // other id differs from it in case only.
  lemma DisableKeepsOrder(kf: KeyFile, a: seq<string>, id: string, b: seq<string>)
    requires Ids(kf) == a + [id] + b && Distinct(Ids(kf))
    ensures Ids(Disabled(kf, id)) == a + b <==> !Aliased(Ids(kf), id)
  {
    var ids := Ids(kf);
    assert ids[|a|] == id;
    IdsAfterDisable(kf, id);
    OthersInOrder(a, id, b);
    if Aliased(ids, id) {
      var x :| x in ids && x != id && SameIgnoringCase(x, id);
      OthersMembers(ids, id, x);
      assert x in a + b && x !in Others(ids, id);
    } else {
      OthersKeepAll(a, id);
      OthersKeepAll(b, id);
    }
  }

  // The file names a list of conduits after a disabling exactly when one is left.
  lemma ListLeftExactly(kf: KeyFile, id: string)
    requires Enabled(kf, id)
    ensures Conduits in GroupOf(Disabled(kf, id), General) <==> Ids(Disabled(kf, id)) != []
  {
    IdsAfterDisable(kf, id);
  }

  // Disabling keeps the file well formed exactly when the list holds no second
  // spelling of the id: the second spelling would lose its place in the list and
  // keep its group.
  lemma DisableKeepsExactly(kf: KeyFile, id: string)
    requires WellFormed(kf) && Enabled(kf, id)
    ensures WellFormed(Disabled(kf, id)) <==> !Aliased(Ids(kf), id)
  {
    var ids, kf' := Ids(kf), Disabled(kf, id);
    IdsAfterDisable(kf, id);
    OthersDistinct(ids, id);
    SameAsItself(id);
    if Aliased(ids, id) {
      var x :| x in ids && x != id && SameIgnoringCase(x, id);
      OthersMembers(ids, id, x);
      assert ConduitGroup(x) in kf && ConduitGroup(x) in kf' && !Enabled(kf', x);
    } else {
      forall x: string ensures ConduitGroup(x) in kf' <==> Enabled(kf', x) {
        OthersMembers(ids, id, x);
        assert ConduitGroup(x) in kf <==> Enabled(kf, x);
      }
    }
  }

  // An edit of one conduit's share of the file.
  datatype Edit =
    | Enable(id: string, t: SyncType)
    | EnableFirst(id: string, t: SyncType, first: SyncType, slow: bool)
    | RemoveFirst(id: string)
    | Save(id: string, s: Settings)
    | Disable(id: string)

  function Edited(kf: KeyFile, e: Edit): KeyFile {
    match e
    case Enable(id, t) => EnabledWith(kf, id, t)
    case EnableFirst(id, t, first, slow) => Armed(EnabledWith(kf, id, t), id, first, slow)
    case RemoveFirst(id) => Disarmed(kf, id)
    case Save(id, s) => SettingsSaved(kf, id, s)
    case Disable(id) => Disabled(kf, id)
  }

  function EditedAll(kf: KeyFile, es: seq<Edit>): KeyFile {
    if es == [] then kf else Edited(EditedAll(kf, es[..|es| - 1]), es[|es| - 1])
  }

  predicate Enables(e: Edit) {
    e.Enable? || e.EnableFirst?
  }

  // The list after an edit of a file in which the edited id has one spelling.
  function ListAfter(ids: seq<string>, e: Edit): seq<string> {
    if Enables(e) && e.id !in ids then ids + [e.id]
    else if e.Disable? && e.id in ids then Others(ids, e.id)
    else ids
  }

  lemma EditStep(kf: KeyFile, e: Edit)
    ensures Ids(Edited(kf, e)) == ListAfter(Ids(kf), e)
    ensures forall g: GroupName :: !g.General? && g != ConduitGroup(e.id) ==>
              GroupOf(Edited(kf, e), g) == GroupOf(kf, g) && (g in Edited(kf, e) <==> g in kf)
    ensures Enables(e) ==> ConduitGroup(e.id) in Edited(kf, e)
    ensures e.Disable? && Enabled(kf, e.id) ==> ConduitGroup(e.id) !in Edited(kf, e)
    ensures (e.Save? || e.RemoveFirst?) && ConduitGroup(e.id) in kf ==> ConduitGroup(e.id) in Edited(kf, e)
    ensures !Enabled(kf, e.id) && !Enables(e) ==> Edited(kf, e) == kf
  {
    if e.Disable? && Enabled(kf, e.id) { IdsAfterDisable(kf, e.id); }
  }

  lemma EditKeeps(kf: KeyFile, e: Edit)
    requires WellFormed(kf)
    requires e.Disable? ==> !Aliased(Ids(kf), e.id)
    ensures WellFormed(Edited(kf, e))
  {
    EditStep(kf, e);
    if e.Disable? && Enabled(kf, e.id) {
      DisableKeepsExactly(kf, e.id);
    } else {
      var kf' := Edited(kf, e);
      forall x: string ensures ConduitGroup(x) in kf' <==> Enabled(kf', x) {
        assert ConduitGroup(x) in kf <==> Enabled(kf, x);
      }
    }
  }

  // Ids that are told apart without regard to ASCII case.
  ghost predicate OneSpellingEach(names: set<string>) {
    forall x, y :: x in names && y in names && SameIgnoringCase(x, y) ==> x == y
  }

  // Whether a conduit is enabled is settled by the last edit that speaks of it.
  predicate LastEnables(es: seq<Edit>, id: string, before: bool) {
    if es == [] then before
    else
      var e := es[|es| - 1];
      if e.id == id && Enables(e) then true
      else if e.id == id && e.Disable? then false
      else LastEnables(es[..|es| - 1], id, before)
  }

  // Over any history of edits whose ids are spelled one way each, the file stays
  // well formed and lists exactly the conduits last enabled.
  lemma {:induction false} HistoryKeeps(kf: KeyFile, es: seq<Edit>, names: set<string>)
    requires WellFormed(kf) && OneSpellingEach(names)
    requires forall x :: x in Ids(kf) ==> x in names
    requires forall e :: e in es ==> e.id in names
    ensures WellFormed(EditedAll(kf, es))
    ensures forall x :: x in Ids(EditedAll(kf, es)) ==> x in names
    ensures forall x :: x in names ==>
              (Enabled(EditedAll(kf, es), x) <==> LastEnables(es, x, Enabled(kf, x)))
  {
    if es != [] {
      var init, e := es[..|es| - 1], es[|es| - 1];
      HistoryKeeps(kf, init, names);
      var mid := EditedAll(kf, init);
      EditKeeps(mid, e);
      EditStep(mid, e);
      SameAsItself(e.id);
      forall x ensures (x in Ids(Edited(mid, e)) ==> x in names)
        && (x in names ==> (Enabled(Edited(mid, e), x) <==> LastEnables(es, x, Enabled(kf, x))))
      {
        OthersMembers(Ids(mid), e.id, x);
      }
    }
  }

  /* ----- What a conduit is set to ----- */

  // The settings loaded for a conduit; None when it is not enabled.
  function HeldIn(kf: KeyFile, id: string): Option<Settings> {
    if Enabled(kf, id) then Some(SettingsOf(kf, id)) else None
  }

  // What the edits about a conduit say it is set to: the ordinary type is the last
  // one given, the first-sync type the last one given since it was enabled, unless
  // that was removed, and the slow mark goes with a two-way first synchronisation.
  function Told(es: seq<Edit>, id: string, before: Option<Settings>): Option<Settings> {
    if es == [] then before
    else
      var was := Told(es[..|es| - 1], id, before);
      if es[|es| - 1].id != id then was else ToldOne(es[|es| - 1], was)
  }

  function ToldOne(e: Edit, was: Option<Settings>): Option<Settings> {
    match e
    case Enable(_, t) => Some(if was.Some? then was.value.(syncType := t) else Settings(t, NotSet, false))
    case EnableFirst(_, t, first, slow) => Some(Settings(t, first, slow && first == Synchronize))
    case RemoveFirst(_) => if was.Some? then Some(Settings(was.value.syncType, NotSet, false)) else None
    case Save(_, s) =>
      if was.Some? then Some(Settings(s.syncType, s.firstSync, s.firstSlow && s.firstSync == Synchronize)) else None
    case Disable(_) => None
  }

  lemma ToldStep(kf: KeyFile, e: Edit)
    requires WellFormed(kf)
    ensures HeldIn(Edited(kf, e), e.id) == ToldOne(e, HeldIn(kf, e.id))
  {
    match e
    case Enable(id, t) =>
      EnableWrites(kf, id, t);
      NothingHeld(kf, id);
    case EnableFirst(id, t, first, slow) =>
      EnableWrites(kf, id, t);
      ArmWrites(EnabledWith(kf, id, t), id, first, slow);
    case RemoveFirst(id) => if Enabled(kf, id) { DisarmWrites(kf, id); }
    case Save(id, s) => if Enabled(kf, id) { SaveWrites(kf, id, s); }
    case Disable(id) => DisabledIsOut(kf, id);
  }

  lemma NothingHeld(kf: KeyFile, id: string)
    requires WellFormed(kf)
    ensures !Enabled(kf, id) ==> SettingsOf(kf, id) == Settings(NotSet, NotSet, false)
  {
    assert ConduitGroup(id) in kf <==> Enabled(kf, id);
  }

  lemma DisabledIsOut(kf: KeyFile, id: string)
    ensures !Enabled(Disabled(kf, id), id)
  {
    if Enabled(kf, id) {
      IdsAfterDisable(kf, id);
      SameAsItself(id);
      OthersMembers(Ids(kf), id, id);
    }
  }

  // An edit leaves the settings of a conduit spelled differently alone.
  lemma ToldElsewhere(kf: KeyFile, e: Edit, id: string)
    requires !SameIgnoringCase(id, e.id)
    ensures HeldIn(Edited(kf, e), id) == HeldIn(kf, id)
  {
    EditStep(kf, e);
    OthersMembers(Ids(kf), e.id, id);
    SameAsItself(id);
  }

  // Over any history of edits whose ids are spelled one way each, every conduit is
  // loaded with the settings the edits about it say, and no other conduit is loaded.
  lemma {:induction false} HistorySettings(kf: KeyFile, es: seq<Edit>, names: set<string>, id: string)
    requires WellFormed(kf) && OneSpellingEach(names) && id in names
    requires forall x :: x in Ids(kf) ==> x in names
    requires forall e :: e in es ==> e.id in names
    ensures HeldIn(EditedAll(kf, es), id) == Told(es, id, HeldIn(kf, id))
    decreases |es|
  {
    if es != [] {
      var init, e := es[..|es| - 1], es[|es| - 1];
      HistorySettings(kf, init, names, id);
      HistoryKeeps(kf, init, names);
      if e.id == id {
        ToldStep(EditedAll(kf, init), e);
      } else {
        ToldElsewhere(EditedAll(kf, init), e, id);
      }
    }
  }

  // Saving and loading again gives the settings back, save for a slow mark on a
  // first synchronisation that is not two-way.
  lemma SaveThenLoad(kf: KeyFile, id: string, s: Settings)
    requires Enabled(kf, id)
    ensures HeldIn(SettingsSaved(kf, id, s), id) == Some(s) <==> s.firstSync == Synchronize || !s.firstSlow
  {
    SaveWrites(kf, id, s);
  }

  // After a save, is_enabled reports the first-sync type, so the ordinary type
  // shows exactly when the two are the same.
  lemma ReportedAfterSave(kf: KeyFile, id: string, s: Settings)
    requires Enabled(kf, id)
    ensures ReportedType(SettingsSaved(kf, id, s), id) == s.syncType <==> s.firstSync == s.syncType
  {
    NamesRoundTrip(s.firstSync);
  }

  // Without a first-sync entry is_enabled reports the ordinary type: so in any
  // file after the first synchronisation was taken, and after a first enabling.
  lemma ReportedOtherwise(kf: KeyFile, id: string, t: SyncType)
    ensures Enabled(kf, id) ==> ReportedType(Disarmed(kf, id), id) == TypeUnder(kf, id, SyncTypeKey)
    ensures FirstSyncType !in GroupOf(kf, ConduitGroup(id)) ==> ReportedType(EnabledWith(kf, id, t), id) == t
  {
    NamesRoundTrip(t);
  }

  // An action the daemon takes for a conduit.
  datatype Dispatch = Dispatch(id: string, action: SyncType, first: bool, slow: bool)

  // conduit_sync_default's choice, from the settings loaded for the session.
  function Choice(id: string, s: Settings): Dispatch {
    if s.firstSync != NotSet then Dispatch(id, s.firstSync, true, s.firstSlow)
    else Dispatch(id, s.syncType, false, false)
  }

  predicate Pending(kf: KeyFile, id: string) {
    TypeUnder(kf, id, FirstSyncType) != NotSet
  }

  // The file after one dispatch, for a conduit whose settings came from loaded.
  function AfterDispatch(loaded: KeyFile, kf: KeyFile, id: string): KeyFile {
    if Enabled(loaded, id) && Pending(loaded, id) then Disarmed(kf, id) else kf
  }

  // A session loads every enabled conduit, then runs the wanted ones in turn.
  function SessionFile(loaded: KeyFile, wanted: seq<string>): KeyFile {
    if wanted == [] then loaded
    else AfterDispatch(loaded, SessionFile(loaded, wanted[..|wanted| - 1]), wanted[|wanted| - 1])
  }

  function SessionLog(loaded: KeyFile, wanted: seq<string>): seq<Dispatch> {
    if wanted == [] then []
    else
      var log, id := SessionLog(loaded, wanted[..|wanted| - 1]), wanted[|wanted| - 1];
      if Enabled(loaded, id) then log + [Choice(id, SettingsOf(loaded, id))] else log
  }

  // A session changes nothing but the first-sync entries of the conduits it ran.
  lemma {:induction false} SessionStep(loaded: KeyFile, wanted: seq<string>, id: string)
    ensures var kf := SessionFile(loaded, wanted);
            && Ids(kf) == Ids(loaded)
            && TypeUnder(kf, id, SyncTypeKey) == TypeUnder(loaded, id, SyncTypeKey)
            && (ConduitGroup(id) in kf <==> ConduitGroup(id) in loaded)
            && (id in wanted && Enabled(loaded, id) ==> !Pending(kf, id))
            && (id !in wanted ==> GroupOf(kf, ConduitGroup(id)) == GroupOf(loaded, ConduitGroup(id)))
            && (Pending(kf, id) ==> Pending(loaded, id))
  {
    if wanted != [] {
      var init, last := wanted[..|wanted| - 1], wanted[|wanted| - 1];
      SessionStep(loaded, init, id);
      assert wanted == init + [last];
    }
  }

  // The log of a session: every wanted conduit that is enabled is dispatched once
  // for each time it is wanted, in that order, and to the first synchronisation,
  // slow if the file says so, whenever one was pending at the start.
  lemma {:induction false} SessionDispatches(loaded: KeyFile, wanted: seq<string>)
    ensures |SessionLog(loaded, wanted)| == |EnabledAmong(loaded, wanted)|
    ensures forall k :: 0 <= k < |SessionLog(loaded, wanted)| ==>
              var id := EnabledAmong(loaded, wanted)[k];
              SessionLog(loaded, wanted)[k] ==
                if Pending(loaded, id)
                then Dispatch(id, TypeUnder(loaded, id, FirstSyncType), true,
                              BooleanOrFalse(GroupOf(loaded, ConduitGroup(id)), SlowSync))
                else Dispatch(id, TypeUnder(loaded, id, SyncTypeKey), false, false)
    decreases |wanted|
  {
    if wanted != [] { SessionDispatches(loaded, wanted[..|wanted| - 1]); }
  }

  function EnabledAmong(kf: KeyFile, ids: seq<string>): seq<string> {
    if ids == [] then []
    else
      EnabledAmong(kf, ids[..|ids| - 1]) + if Enabled(kf, ids[|ids| - 1]) then [ids[|ids| - 1]] else []
  }

  function FirstDispatches(log: seq<Dispatch>, id: string): nat {
    if log == [] then 0
    else FirstDispatches(log[..|log| - 1], id)
         + if log[|log| - 1].id == id && log[|log| - 1].first then 1 else 0
  }

  lemma FirstDispatchesMore(log: seq<Dispatch>, d: Dispatch, id: string)
    ensures FirstDispatches(log + [d], id) ==
            FirstDispatches(log, id) + if d.id == id && d.first then 1 else 0
  {
    assert (log + [d])[..|log|] == log;
  }

  // Within one session a pending first synchronisation is run every time the
  // conduit is, for the settings are loaded once.
  lemma {:induction false} FirstSyncEveryTimeWithin(loaded: KeyFile, wanted: seq<string>, id: string)
    ensures FirstDispatches(SessionLog(loaded, wanted), id) ==
            if Enabled(loaded, id) && Pending(loaded, id) then multiset(wanted)[id] else 0
    decreases |wanted|
  {
    if wanted != [] {
      var init, last := wanted[..|wanted| - 1], wanted[|wanted| - 1];
      FirstSyncEveryTimeWithin(loaded, init, id);
      OnceMore(init, last, id);
      assert init + [last] == wanted;
      FirstDispatchesMore(SessionLog(loaded, init), Choice(last, SettingsOf(loaded, last)), id);
    }
  }

  lemma OnceMore(init: seq<string>, last: string, id: string)
    ensures multiset(init + [last])[id] == multiset(init)[id] + if last == id then 1 else 0
  {
  }

  datatype Event = Session(wanted: seq<string>) | Change(e: Edit)

  function Next(kf: KeyFile, ev: Event): KeyFile {
    match ev
    case Session(wanted) => SessionFile(kf, wanted)
    case Change(e) => Edited(kf, e)
  }

  predicate Runs(kf: KeyFile, ev: Event, id: string) {
    ev.Session? && id in ev.wanted && Enabled(kf, id)
  }

  // The number of sessions that ran the conduit's first synchronisation.
  function FirstSessions(kf: KeyFile, evs: seq<Event>, id: string): nat
    decreases |evs|
  {
    if evs == [] then 0
    else (if Runs(kf, evs[0], id) && Pending(kf, id) then 1 else 0) + FirstSessions(Next(kf, evs[0]), evs[1..], id)
  }

  // What each session that ran the conduit dispatched it to.
  function Dispatches(kf: KeyFile, evs: seq<Event>, id: string): seq<Dispatch>
    decreases |evs|
  {
    if evs == [] then []
    else
      (if Runs(kf, evs[0], id) then [Choice(id, SettingsOf(kf, id))] else [])
      + Dispatches(Next(kf, evs[0]), evs[1..], id)
  }

  predicate Arms(e: Edit, id: string) {
    e.id == id && ((e.EnableFirst? && e.first != NotSet) || (e.Save? && e.s.firstSync != NotSet))
  }

  lemma NotArmedStays(kf: KeyFile, ev: Event, id: string)
    requires ev.Change? ==> !Arms(ev.e, id)
    ensures Pending(Next(kf, ev), id) ==> Pending(kf, id)
  {
    match ev
    case Session(wanted) => SessionStep(kf, wanted, id);
    case Change(e) =>
      EditStep(kf, e);
      NamesRoundTrip(NotSet);
  }

  // However often the conduit runs and whatever else is edited, one session at
  // most runs its first synchronisation, unless it is armed again.
  lemma {:induction false} FirstSyncInOneSession(kf: KeyFile, evs: seq<Event>, id: string)
    requires forall ev :: ev in evs && ev.Change? ==> !Arms(ev.e, id)
    ensures FirstSessions(kf, evs, id) <= if Pending(kf, id) then 1 else 0
    decreases |evs|
  {
    if evs != [] {
      var ev := evs[0];
      FirstSyncInOneSession(Next(kf, ev), evs[1..], id);
      NotArmedStays(kf, ev, id);
      if Runs(kf, ev, id) { SessionStep(kf, ev.wanted, id); }
    }
  }

  lemma ElsewhereKeeps(kf: KeyFile, ev: Event, id: string)
    requires ev.Change? ==> !SameIgnoringCase(id, ev.e.id)
    ensures Enabled(Next(kf, ev), id) <==> Enabled(kf, id)
    ensures TypeUnder(Next(kf, ev), id, SyncTypeKey) == TypeUnder(kf, id, SyncTypeKey)
    ensures !Runs(kf, ev, id) && Enabled(kf, id) ==>
              SettingsOf(Next(kf, ev), id) == SettingsOf(kf, id)
    ensures Runs(kf, ev, id) ==> !Pending(Next(kf, ev), id)
  {
    match ev
    case Session(wanted) => SessionStep(kf, wanted, id);
    case Change(e) =>
      EditStep(kf, e);
      OthersMembers(Ids(kf), e.id, id);
      SameAsItself(id);
  }

  lemma {:induction false} SettingsThenOrdinary(kf: KeyFile, evs: seq<Event>, id: string, k: nat, s: Settings)
    requires Enabled(kf, id) && SettingsOf(kf, id) == s
    requires forall ev :: ev in evs && ev.Change? ==> !SameIgnoringCase(id, ev.e.id)
    requires k < |Dispatches(kf, evs, id)|
    ensures Dispatches(kf, evs, id)[k] ==
            if k == 0 && s.firstSync != NotSet then Dispatch(id, s.firstSync, true, s.firstSlow)
            else Dispatch(id, s.syncType, false, false)
    decreases |evs|
  {
    var ev, kf' := evs[0], Next(kf, evs[0]);
    ElsewhereKeeps(kf, ev, id);
    var s' := SettingsOf(kf', id);
    if Runs(kf, ev, id) {
      assert s'.syncType == s.syncType && s'.firstSync == NotSet;
      if k > 0 { SettingsThenOrdinary(kf', evs[1..], id, k - 1, s'); }
    } else {
      SettingsThenOrdinary(kf', evs[1..], id, k, s);
    }
  }

  // The sessions of an enabled conduit that nobody edits dispatch it to the first
  // synchronisation once, if one is pending, slow if the file says so, and to the
  // ordinary one, never slow, ever after.
  lemma FirstThenOrdinary(kf: KeyFile, evs: seq<Event>, id: string, k: nat)
    requires Enabled(kf, id)
    requires forall ev :: ev in evs && ev.Change? ==> !SameIgnoringCase(id, ev.e.id)
    requires k < |Dispatches(kf, evs, id)|
    ensures Dispatches(kf, evs, id)[k] ==
            if k == 0 && Pending(kf, id)
            then Dispatch(id, TypeUnder(kf, id, FirstSyncType), true,
                          BooleanOrFalse(GroupOf(kf, ConduitGroup(id)), SlowSync))
            else Dispatch(id, TypeUnder(kf, id, SyncTypeKey), false, false)
  {
    SettingsThenOrdinary(kf, evs, id, k, SettingsOf(kf, id));
  }

  // In particular, whatever file a conduit is enabled in with a first
  // synchronisation: the next session that runs it takes that, slow exactly if it
  // is two-way and was asked to be slow, and the later ones the ordinary type.
  lemma ArmedThenOrdinary(kf: KeyFile, id: string, t: SyncType, first: SyncType, slow: bool, evs: seq<Event>, k: nat)
    requires first != NotSet
    requires forall ev :: ev in evs && ev.Change? ==> !SameIgnoringCase(id, ev.e.id)
    requires k < |Dispatches(Edited(kf, EnableFirst(id, t, first, slow)), evs, id)|
    ensures Dispatches(Edited(kf, EnableFirst(id, t, first, slow)), evs, id)[k] ==
            if k == 0 then Dispatch(id, first, true, slow && first == Synchronize) else Dispatch(id, t, false, false)
  {
    EnableWrites(kf, id, t);
    ArmWrites(EnabledWith(kf, id, t), id, first, slow);
    FirstThenOrdinary(Edited(kf, EnableFirst(id, t, first, slow)), evs, id, k);
  }
}
