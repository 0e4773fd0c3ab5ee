// What gpilotd/gnome-pilot-conduit-config.c does to a pilot's conduits file: the
// list of enabled conduits under General, and a group of settings for each.
module ConduitFiles {
  import opened Records
  import opened Text
  import opened KeyFiles
  import opened SyncTypes

  // A conduit's settings as the program holds them.
  datatype Settings = Settings(syncType: SyncType, firstSync: SyncType, firstSlow: bool)

  function Ids(kf: KeyFile): seq<string> {
    StringList(GroupOf(kf, General), Conduits)
  }

  predicate Enabled(kf: KeyFile, id: string) {
    id in Ids(kf)
  }

  function TypeUnder(kf: KeyFile, id: string, key: Key): SyncType {
    FromStr(GetString(GroupOf(kf, ConduitGroup(id)), key))
  }

  function SettingsOf(kf: KeyFile, id: string): Settings {
    Settings(TypeUnder(kf, id, SyncTypeKey), TypeUnder(kf, id, FirstSyncType),
             BooleanOrFalse(GroupOf(kf, ConduitGroup(id)), SlowSync))
  }

  // The type is_enabled reports: the first-sync entry, when there is one, hides
  // the ordinary entry.
  function ReportedType(kf: KeyFile, id: string): SyncType {
    if GetString(GroupOf(kf, ConduitGroup(id)), FirstSyncType).Some?
    then TypeUnder(kf, id, FirstSyncType) else TypeUnder(kf, id, SyncTypeKey)
  }

  function Listed(kf: KeyFile, id: string): KeyFile {
    if Enabled(kf, id) then kf else Set(kf, General, Conduits, List(Ids(kf) + [id]))
  }

  function EnabledWith(kf: KeyFile, id: string, t: SyncType): KeyFile {
    Set(Listed(kf, id), ConduitGroup(id), SyncTypeKey, Str(ToStr(t)))
  }

  // The first-sync entries; how slow matters only to a two-way first sync.
  function Armed(kf: KeyFile, id: string, first: SyncType, slow: bool): KeyFile {
    var kf' := Set(kf, ConduitGroup(id), FirstSyncType, Str(ToStr(first)));
    if first == Synchronize then Set(kf', ConduitGroup(id), SlowSync, Bool(slow))
    else RemoveKey(kf', ConduitGroup(id), SlowSync)
  }

  function Disarmed(kf: KeyFile, id: string): KeyFile {
    if Enabled(kf, id)
    then RemoveKey(RemoveKey(kf, ConduitGroup(id), FirstSyncType), ConduitGroup(id), SlowSync)
    else kf
  }

  // The ids other than id, told apart without regard to ASCII case.
  function Others(ids: seq<string>, id: string): (r: seq<string>)
    ensures |r| <= |ids| && (id in ids ==> |r| < |ids|)
  {
    if ids == [] then []
    else
      var rest := Others(ids[..|ids| - 1], id);
      var last := ids[|ids| - 1];
      assert id in ids ==> id == last || id in ids[..|ids| - 1];
      SameAsItself(id);
      if SameIgnoringCase(last, id) then rest else rest + [last]
  }

  lemma {:induction false} SameAsItself(s: string)
    ensures SameIgnoringCase(s, s)
  {
    if s != [] { SameAsItself(s[1..]); }
  }

  function Unlisted(kf: KeyFile, ids: seq<string>): KeyFile {
    if ids == [] then RemoveKey(kf, General, Conduits) else Set(kf, General, Conduits, List(ids))
  }

  function Disabled(kf: KeyFile, id: string): KeyFile {
    if Enabled(kf, id) then RemoveGroup(Unlisted(kf, Others(Ids(kf), id)), ConduitGroup(id)) else kf
  }

  function SettingsSaved(kf: KeyFile, id: string, s: Settings): KeyFile {
    if Enabled(kf, id)
    then Armed(Set(kf, ConduitGroup(id), SyncTypeKey, Str(ToStr(s.syncType))), id, s.firstSync, s.firstSlow)
    else kf
  }
  /* ----- What a conduit is loaded with afterwards, whatever the file held ----- */

  // Enabling writes the ordinary type and leaves the first-sync entries alone.
  lemma EnableWrites(kf: KeyFile, id: string, t: SyncType)
    ensures var kf' := EnabledWith(kf, id, t);
      && Enabled(kf', id)
      && SettingsOf(kf', id) == SettingsOf(kf, id).(syncType := t)
  {
    NamesRoundTrip(t);
  }

  // Arming writes the first-sync type, and the slow mark of a two-way one.
  lemma ArmWrites(kf: KeyFile, id: string, first: SyncType, slow: bool)
    ensures var kf' := Armed(kf, id, first, slow);
      && (Enabled(kf', id) <==> Enabled(kf, id))
      && SettingsOf(kf', id) == Settings(TypeUnder(kf, id, SyncTypeKey), first, slow && first == Synchronize)
  {
    NamesRoundTrip(first);
  }

  lemma DisarmWrites(kf: KeyFile, id: string)
    requires Enabled(kf, id)
    ensures var kf' := Disarmed(kf, id);
      && Enabled(kf', id)
      && SettingsOf(kf', id) == Settings(TypeUnder(kf, id, SyncTypeKey), NotSet, false)
  {
  }

  lemma SaveWrites(kf: KeyFile, id: string, s: Settings)
    requires Enabled(kf, id)
    ensures var kf' := SettingsSaved(kf, id, s);
      && Enabled(kf', id)
      && SettingsOf(kf', id) == s.(firstSlow := s.firstSlow && s.firstSync == Synchronize)
  {
    var kf1 := Set(kf, ConduitGroup(id), SyncTypeKey, Str(ToStr(s.syncType)));
    NamesRoundTrip(s.syncType);
    ArmWrites(kf1, id, s.firstSync, s.firstSlow);
  }
}
