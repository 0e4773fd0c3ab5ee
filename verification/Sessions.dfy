// The part of gpilotd/manager.c that loads the enabled conduits at the start of
// a session and picks the action each conduit is to take.
module Sessions {
  import opened Records
  import opened KeyFiles
  import opened SyncTypes
  import opened ConduitFiles
  import opened Text
  import opened ConduitConfig
  import opened ConduitHistories

  // The operation run for an action: "custom" runs as a synchronisation, and an
  // unset action runs nothing.
  function Performed(action: SyncType): Option<SyncType> {
    match action
    case Synchronize => Some(Synchronize)
    case Custom => Some(Synchronize)
    case NotSet => None
    case _ => Some(action)
  }

  // So the name stored in the file tells the operation; without a name, or with one
  // the program does not know, nothing is run.
  lemma PerformedByName(kf: KeyFile, id: string, key: Key)
    ensures var name := GetString(GroupOf(kf, ConduitGroup(id)), key);
      Performed(TypeUnder(kf, id, key)) ==
        if name == Some("synchronize") || name == Some("custom") then Some(Synchronize)
        else if name == Some("copy_to_pilot") then Some(CopyToPilot)
        else if name == Some("copy_from_pilot") then Some(CopyFromPilot)
        else if name == Some("merge_to_pilot") then Some(MergeToPilot)
        else if name == Some("merge_from_pilot") then Some(MergeFromPilot)
        else None
  {
    NamesRoundTrip(CopyToPilot);
  }

  // Over the sessions of an enabled conduit that nobody edits: the name of the
  // first synchronisation tells the first operation run, if one is pending, and
  // the ordinary name tells all others.
  lemma OperationsByName(kf: KeyFile, evs: seq<Event>, id: string, k: nat)
    requires Enabled(kf, id)
    requires forall ev :: ev in evs && ev.Change? ==> !SameIgnoringCase(id, ev.e.id)
    requires k < |Dispatches(kf, evs, id)|
    ensures var first := k == 0 && ConduitHistories.Pending(kf, id);
      Performed(Dispatches(kf, evs, id)[k].action) ==
      Performed(TypeUnder(kf, id, if first then FirstSyncType else SyncTypeKey))
  {
    FirstThenOrdinary(kf, evs, id, k);
  }

  // What is installed under an id: a library that fails to load, or a conduit of
  // one of the kinds a session knows, or of another.
  datatype ConduitKind = BackupKind | FileKind | StandardKind | OtherKind

  datatype Installed = Broken | Loads(kind: ConduitKind)

  predicate IsKind(installed: map<string, Installed>, id: string, kind: ConduitKind) {
    id in installed && installed[id] == Loads(kind)
  }

  function With(ids: seq<string>, installed: map<string, Installed>, id: string, kind: ConduitKind): seq<string> {
    if IsKind(installed, id, kind) then ids + [id] else ids
  }

  // Those among the ids that load as conduits of a kind, in their order.
  function OfKind(ids: seq<string>, installed: map<string, Installed>, kind: ConduitKind): seq<string> {
    if ids == [] then [] else With(OfKind(ids[..|ids| - 1], installed, kind), installed, ids[|ids| - 1], kind)
  }

  lemma {:induction false} OfKindHas(ids: seq<string>, installed: map<string, Installed>, kind: ConduitKind, id: string)
    ensures id in OfKind(ids, installed, kind) <==>
            id in ids && id in installed && installed[id] == Loads(kind)
    decreases |ids|
  {
    if ids != [] {
      OfKindHas(ids[..|ids| - 1], installed, kind, id);
      assert ids == ids[..|ids| - 1] + [ids[|ids| - 1]];
    }
  }

  lemma OfKindNext(ids: seq<string>, i: nat, installed: map<string, Installed>, kind: ConduitKind)
    requires i < |ids|
    ensures OfKind(ids[..i + 1], installed, kind) == With(OfKind(ids[..i], installed, kind), installed, ids[i], kind)
  {
    assert ids[..i + 1][..i] == ids[..i];
  }

  // Each id has an object, with the settings of the file's contents kf.
  ghost predicate Loaded(configs: seq<ConduitConfig>, file: ConduitsFile, kf: KeyFile, ids: seq<string>)
    reads configs
  {
    && |configs| == |ids|
    && forall k :: 0 <= k < |configs| ==>
         configs[k].file == file && configs[k].id == ids[k] && configs[k].Held() == SettingsOf(kf, ids[k])
  }

  method LoadConduit(file: ConduitsFile, id: string) returns (config: ConduitConfig)
    requires Enabled(file.contents, id)
    ensures fresh(config) && config.file == file && config.id == id
    ensures config.Held() == SettingsOf(file.contents, id)
  {
    config := new ConduitConfig(file, id);
    var ok := config.LoadConfig();
  }

  // The ids of the three lists.
  ghost predicate ByKind(cids: seq<string>, bids: seq<string>, fids: seq<string>, ids: seq<string>,
                         installed: map<string, Installed>)
  {
    && cids == OfKind(ids, installed, StandardKind)
    && bids == OfKind(ids, installed, BackupKind)
    && fids == OfKind(ids, installed, FileKind)
  }

  lemma ByKindNext(cids: seq<string>, bids: seq<string>, fids: seq<string>, ids: seq<string>, i: nat,
                   installed: map<string, Installed>)
    requires i < |ids| && ByKind(cids, bids, fids, ids[..i], installed)
    ensures ByKind(With(cids, installed, ids[i], StandardKind), With(bids, installed, ids[i], BackupKind),
                   With(fids, installed, ids[i], FileKind), ids[..i + 1], installed)
  {
    OfKindNext(ids, i, installed, StandardKind);
    OfKindNext(ids, i, installed, BackupKind);
    OfKindNext(ids, i, installed, FileKind);
  }

  // One more object.
  lemma LoadedMore(configs: seq<ConduitConfig>, config: ConduitConfig, file: ConduitsFile, kf: KeyFile,
                   ids: seq<string>, id: string)
    requires Loaded(configs, file, kf, ids)
    requires config.file == file && config.id == id && config.Held() == SettingsOf(kf, id)
    ensures Loaded(configs + [config], file, kf, ids + [id])
  {
  }

  // Unknown conduits, those that fail to load and those of no known kind are
  // passed over; each of the others gets an object of its own.
  method LoadConduits(file: ConduitsFile, installed: map<string, Installed>)
    returns (clist: seq<ConduitConfig>, blist: seq<ConduitConfig>, flist: seq<ConduitConfig>)
    ensures Loaded(clist, file, file.contents, OfKind(Ids(file.contents), installed, StandardKind))
    ensures Loaded(blist, file, file.contents, OfKind(Ids(file.contents), installed, BackupKind))
    ensures Loaded(flist, file, file.contents, OfKind(Ids(file.contents), installed, FileKind))
    ensures forall k :: 0 <= k < |clist| ==> fresh(clist[k])
    ensures forall k :: 0 <= k < |blist| ==> fresh(blist[k])
    ensures forall k :: 0 <= k < |flist| ==> fresh(flist[k])
  {
    var names := StringList(GroupOf(file.contents, General), Conduits);
    clist, blist, flist := [], [], [];
    ghost var kf := file.contents;
    ghost var cids: seq<string>, bids: seq<string>, fids: seq<string> := [], [], [];
    for i := 0 to |names|
      invariant ByKind(cids, bids, fids, names[..i], installed)
      invariant Loaded(clist, file, kf, cids) && Loaded(blist, file, kf, bids) && Loaded(flist, file, kf, fids)
      invariant forall k :: 0 <= k < |clist| ==> fresh(clist[k])
      invariant forall k :: 0 <= k < |blist| ==> fresh(blist[k])
      invariant forall k :: 0 <= k < |flist| ==> fresh(flist[k])
    {
      ByKindNext(cids, bids, fids, names, i, installed);
      if names[i] !in installed { continue; }
      var config := LoadConduit(file, names[i]);
      if installed[names[i]] == Broken { continue; }
      if installed[names[i]] == Loads(BackupKind) {
        LoadedMore(blist, config, file, kf, bids, names[i]);
        blist, bids := blist + [config], bids + [names[i]];
      } else if installed[names[i]] == Loads(FileKind) {
        LoadedMore(flist, config, file, kf, fids, names[i]);
        flist, fids := flist + [config], fids + [names[i]];
      } else if installed[names[i]] == Loads(StandardKind) {
        LoadedMore(clist, config, file, kf, cids, names[i]);
        clist, cids := clist + [config], cids + [names[i]];
      }
    }
    assert names[..|names|] == names;
  }

  method SyncDefault(config: ConduitConfig) returns (d: Dispatch, done: Option<SyncType>)
    modifies config.file
    ensures d == Choice(config.id, old(config.Held()))
    ensures d == if config.firstSync != NotSet then Dispatch(config.id, config.firstSync, true, config.firstSlow)
                 else Dispatch(config.id, config.syncType, false, false)
    ensures done == if d.action == NotSet then None
                    else if d.action == Custom then Some(Synchronize) else Some(d.action)
    ensures config.file.contents ==
            if d.first then Disarmed(old(config.file.contents), config.id) else old(config.file.contents)
  {
    var action, slow := config.syncType, false;
    if config.firstSync != NotSet {
      config.RemoveFirstSync();
      action := config.firstSync;
      if config.firstSlow { slow := true; }
      d := Dispatch(config.id, action, true, slow);
    } else {
      d := Dispatch(config.id, action, false, slow);
    }
    match action
    case Synchronize => done := Some(Synchronize);
    case Custom => done := Some(Synchronize);
    case CopyToPilot => done := Some(CopyToPilot);
    case CopyFromPilot => done := Some(CopyFromPilot);
    case MergeToPilot => done := Some(MergeToPilot);
    case MergeFromPilot => done := Some(MergeFromPilot);
    case NotSet => done := None;
  }

  method FindConduit(configs: seq<ConduitConfig>, id: string) returns (config: ConduitConfig?)
    ensures config == null ==> forall c :: c in configs ==> c.id != id
    ensures config != null ==> config in configs && config.id == id
  {
    config := null;
    for i := 0 to |configs|
      invariant forall k :: 0 <= k < i ==> configs[k].id != id
    {
      if configs[i].id == id { return configs[i]; }
    }
  }

  // What one more wanted conduit adds to the session.
  lemma SessionNext(loaded: KeyFile, installed: map<string, Installed>, wanted: seq<string>, i: nat)
    requires i < |wanted|
    ensures var ids := OfKind(wanted[..i], installed, StandardKind);
      var more := OfKind(wanted[..i + 1], installed, StandardKind);
      var log := SessionLog(loaded, ids);
      if wanted[i] in OfKind(Ids(loaded), installed, StandardKind) then
        && SessionLog(loaded, more) == log + [Choice(wanted[i], SettingsOf(loaded, wanted[i]))]
        && SessionFile(loaded, more) ==
           if ConduitHistories.Pending(loaded, wanted[i]) then Disarmed(SessionFile(loaded, ids), wanted[i])
           else SessionFile(loaded, ids)
      else SessionLog(loaded, more) == log && SessionFile(loaded, more) == SessionFile(loaded, ids)
  {
    OfKindNext(wanted, i, installed, StandardKind);
    OfKindHas(Ids(loaded), installed, StandardKind, wanted[i]);
    var ids := OfKind(wanted[..i], installed, StandardKind);
    assert (ids + [wanted[i]])[..|ids|] == ids;
  }

  // One session: the standard conduits named by its databases or requests are run
  // in turn; those not among the loaded ones are passed over.
  method RunSession(file: ConduitsFile, installed: map<string, Installed>, wanted: seq<string>)
    returns (log: seq<Dispatch>)
    modifies file
    ensures log == SessionLog(old(file.contents), OfKind(wanted, installed, StandardKind))
    ensures file.contents == SessionFile(old(file.contents), OfKind(wanted, installed, StandardKind))
  {
    ghost var loaded := file.contents;
    var configs, _, _ := LoadConduits(file, installed);
    ghost var ids := OfKind(Ids(loaded), installed, StandardKind);
    log := [];
    for i := 0 to |wanted|
      invariant log == SessionLog(loaded, OfKind(wanted[..i], installed, StandardKind))
      invariant file.contents == SessionFile(loaded, OfKind(wanted[..i], installed, StandardKind))
      invariant Loaded(configs, file, loaded, ids)
    {
      SessionNext(loaded, installed, wanted, i);
      var config := FindConduit(configs, wanted[i]);
      if config != null {
        ghost var k :| 0 <= k < |configs| && configs[k] == config;
        assert ids[k] == wanted[i];
        var d, _ := SyncDefault(config);
        log := log + [d];
      } else {
        assert forall k :: 0 <= k < |ids| ==> configs[k] in configs && configs[k].id == ids[k];
      }
    }
    assert wanted[..|wanted|] == wanted;
  }
}
