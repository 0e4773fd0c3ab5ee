// The ways a conduit can be asked to synchronise, and their names in the files.
module SyncTypes {
  import opened Records

  datatype SyncType = Custom | Synchronize | CopyFromPilot | CopyToPilot | MergeFromPilot | MergeToPilot | NotSet

  function ToStr(t: SyncType): string {
    match t
    case Custom => "custom"
    case Synchronize => "synchronize"
    case CopyFromPilot => "copy_from_pilot"
    case CopyToPilot => "copy_to_pilot"
    case MergeFromPilot => "merge_from_pilot"
    case MergeToPilot => "merge_to_pilot"
    case NotSet => "not_set"
  }

  // A missing or unknown name is "not set".
  function FromStr(s: Option<string>): SyncType {
    if s == Some("synchronize") then Synchronize
    else if s == Some("copy_to_pilot") then CopyToPilot
    else if s == Some("copy_from_pilot") then CopyFromPilot
    else if s == Some("merge_to_pilot") then MergeToPilot
    else if s == Some("merge_from_pilot") then MergeFromPilot
    else if s == Some("custom") then Custom
    else NotSet
  }

  lemma NamesRoundTrip(t: SyncType)
    ensures FromStr(Some(ToStr(t))) == t
  {
    assert |"copy_to_pilot"| != |"copy_from_pilot"| && |"merge_to_pilot"| != |"merge_from_pilot"|;
    assert "custom"[0] != "copy_to_pilot"[0] || |"custom"| != |"copy_to_pilot"|;
  }
}
