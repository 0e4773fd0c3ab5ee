// gpilotd/gnome-pilot-conduit-config.c: the object that reads and rewrites one
// conduit's share of the conduits file. Every call reads the file anew.
module ConduitConfig {
  import opened Records
  import opened Text
  import opened KeyFiles
  import opened SyncTypes
  import opened ConduitFiles

  class ConduitsFile {
    var contents: KeyFile

    constructor (kf: KeyFile)
      ensures contents == kf
    {
      contents := kf;
    }
  }

  // The list copied into an array with room for one id more.
  method CopyWith(names: seq<string>, id: string) returns (copy: array<string>)
    ensures fresh(copy) && copy[..] == names + [id]
  {
    copy := new string[|names| + 1];
    for cnt := 0 to |names|
      invariant copy[..cnt] == names[..cnt]
    {
      copy[cnt] := names[cnt];
    }
    copy[|names|] := id;
  }

  class ConduitConfig {
    const file: ConduitsFile
    const id: string
    var syncType: SyncType
    var firstSync: SyncType
    var firstSlow: bool

    // A new object's fields are zero, and the type numbered zero is "custom".
    constructor (f: ConduitsFile, conduit: string)
      ensures file == f && id == conduit
      ensures Held() == Settings(Custom, Custom, false)
    {
      file, id := f, conduit;
      syncType, firstSync, firstSlow := Custom, Custom, false;
    }

    function Held(): Settings
      reads this
    {
      Settings(syncType, firstSync, firstSlow)
    }

    method IsEnabled() returns (enabled: bool, t: Option<SyncType>)
      ensures enabled == Enabled(file.contents, id)
      ensures t == if enabled then Some(ReportedType(file.contents, id)) else None
    {
      var names := StringList(GroupOf(file.contents, General), Conduits);
      enabled, t := false, None;
      for cnt := 0 to |names|
        invariant enabled == (id in names[..cnt])
        invariant t == if enabled then Some(ReportedType(file.contents, id)) else None
      {
        if names[cnt] == id {
          var group := GroupOf(file.contents, ConduitGroup(id));
          var s := GetString(group, FirstSyncType);
          if s.None? { s := GetString(group, SyncTypeKey); }
          enabled, t := true, Some(FromStr(s));
        }
        assert names[..cnt + 1] == names[..cnt] + [names[cnt]];
      }
      assert names[..|names|] == names;
    }

    method Enable(t: SyncType)
      modifies file
      ensures file.contents == EnabledWith(old(file.contents), id, t)
      ensures Enabled(file.contents, id) && TypeUnder(file.contents, id, SyncTypeKey) == t
    {
      EnableWrites(file.contents, id, t);
      var kf := file.contents;
      var enabled, _ := IsEnabled();
      if !enabled {
        var names := StringList(GroupOf(kf, General), Conduits);
        var copy := CopyWith(names, id);
        kf := Set(kf, General, Conduits, List(copy[..]));
      }
      file.contents := Set(kf, ConduitGroup(id), SyncTypeKey, Str(ToStr(t)));
    }

    method EnableWithFirstSync(t: SyncType, first: SyncType, slow: bool)
      modifies file
      ensures file.contents == Armed(EnabledWith(old(file.contents), id, t), id, first, slow)
      ensures Enabled(file.contents, id)
      ensures SettingsOf(file.contents, id) == Settings(t, first, slow && first == Synchronize)
    {
      Enable(t);
      ArmWrites(file.contents, id, first, slow);
      var kf := Set(file.contents, ConduitGroup(id), FirstSyncType, Str(ToStr(first)));
      if first == Synchronize {
        kf := Set(kf, ConduitGroup(id), SlowSync, Bool(slow));
      } else {
        kf := RemoveKey(kf, ConduitGroup(id), SlowSync);
      }
      file.contents := kf;
    }

    method RemoveFirstSync()
      modifies file
      ensures file.contents == Disarmed(old(file.contents), id)
      ensures Enabled(file.contents, id) ==>
                SettingsOf(file.contents, id) == Settings(TypeUnder(old(file.contents), id, SyncTypeKey), NotSet, false)
    {
      var kf := file.contents;
      var enabled, _ := IsEnabled();
      if enabled {
        if ConduitGroup(id) in kf {
          kf := RemoveKey(kf, ConduitGroup(id), FirstSyncType);
          kf := RemoveKey(kf, ConduitGroup(id), SlowSync);
        }
        DisarmWrites(file.contents, id);
      }
      file.contents := kf;
    }

    // The copy has room for one id fewer than the list holds. That is enough,
    // because the conduit's own id is never copied.
    method Disable()
      modifies file
      ensures file.contents == Disabled(old(file.contents), id)
    {
      var kf := file.contents;
      var enabled, _ := IsEnabled();
      if !enabled { return; }
      var names := StringList(GroupOf(kf, General), Conduits);
      var copy := new string[|names|];
      var kept := 0;
      for cnt := 0 to |names|
        invariant kept <= cnt && copy[..kept] == Others(names[..cnt], id)
        invariant unchanged(file)
      {
        assert names[..cnt + 1][..cnt] == names[..cnt];
        if !SameIgnoringCase(names[cnt], id) {
          copy[kept] := names[cnt];
          kept := kept + 1;
        }
      }
      assert names[..|names|] == names;
      if kept > 0 {
        kf := Set(kf, General, Conduits, List(copy[..kept]));
      } else {
        kf := RemoveKey(kf, General, Conduits);
      }
      file.contents := RemoveGroup(kf, ConduitGroup(id));
    }

    method LoadConfig() returns (ok: bool)
      modifies this
      ensures ok == Enabled(file.contents, id)
      ensures Held() == if ok then SettingsOf(file.contents, id) else old(Held())
    {
      var enabled, _ := IsEnabled();
      ok := enabled;
      if ok {
        var group := GroupOf(file.contents, ConduitGroup(id));
        var s := GetString(group, SyncTypeKey);
        if s.Some? { syncType := FromStr(s); } else { syncType := NotSet; }
        s := GetString(group, FirstSyncType);
        if s.Some? { firstSync := FromStr(s); } else { firstSync := NotSet; }
        firstSlow := BooleanOrFalse(group, SlowSync);
      }
    }

    method SaveConfig() returns (ok: bool)
      modifies file
      ensures ok == Enabled(old(file.contents), id)
      ensures file.contents == SettingsSaved(old(file.contents), id, Held())
      ensures ok ==> SettingsOf(file.contents, id) == Held().(firstSlow := firstSlow && firstSync == Synchronize)
    {
      var enabled, _ := IsEnabled();
      ok := enabled;
      if ok {
        SaveWrites(file.contents, id, Held());
        var kf := Set(file.contents, ConduitGroup(id), SyncTypeKey, Str(ToStr(syncType)));
        kf := Set(kf, ConduitGroup(id), FirstSyncType, Str(ToStr(firstSync)));
        if firstSync == Synchronize {
          kf := Set(kf, ConduitGroup(id), SlowSync, Bool(firstSlow));
        } else {
          kf := RemoveKey(kf, ConduitGroup(id), SlowSync);
        }
        file.contents := kf;
      }
    }
  }
}
