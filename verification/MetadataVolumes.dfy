/** The volume list on its way from the command line of `run` through the metadata to the unmounts of `rm`. */
module MetadataVolumes {
  import opened Text
  import opened Names
  import opened VolumeSpec
  import opened StatusCodec
  import opened MetadataRoundTrip

  /** At most 32 volumes are recorded. */
  function Recorded(volumes: seq<Volume>): (r: seq<Volume>)
    ensures |r| <= MAX_VOLUMES && r <= volumes && |r| == if |volumes| > 32 then 32 else |volumes|
  {
    if |volumes| > MAX_VOLUMES then volumes[..MAX_VOLUMES] else volumes
  }

  predicate Recordable(v: Volume)
  {
    v.host != [] && v.container != [] && |PrintVolume(v)| < VOLUME_SIZE
  }

  function PrintVolumes(volumes: seq<Volume>): (r: seq<string>)
    ensures |r| == |volumes|
    ensures forall i :: 0 <= i < |r| ==> r[i] == PrintVolume(volumes[i])
  {
    if volumes == [] then [] else PrintVolumes(volumes[..|volumes| - 1]) + [PrintVolume(volumes[|volumes| - 1])]
  }

  /** The volume part of create_container_info: truncation to 32, then one string for each. */
  method CreateVolumeStrings(volumes: seq<Volume>) returns (r: Option<seq<string>>)
    ensures r == if forall i :: 0 <= i < |Recorded(volumes)| ==> Recordable(volumes[i])
                 then Some(PrintVolumes(Recorded(volumes))) else None
  {
    hide PrintVolume;
    var count := |volumes|;
    if count > MAX_VOLUMES {
      count := MAX_VOLUMES;
    }
    var strings := [];
    assert volumes[..count] == Recorded(volumes);
    for i := 0 to count
      invariant forall j :: 0 <= j < i ==> Recordable(volumes[j])
      invariant strings == PrintVolumes(volumes[..i])
    {
      if volumes[i].host == [] || volumes[i].container == [] {
        return None;
      }
      var text := PrintVolume(volumes[i]);
      if |text| >= VOLUME_SIZE {
        return None;
      }
      assert volumes[..i + 1][..i] == volumes[..i];
      strings := strings + [text];
    }
    return Some(strings);
  }

  function ParseVolumes(strings: seq<string>): Option<seq<Volume>>
  {
    if strings == [] then Some([])
    else
      match (ParseVolumes(strings[..|strings| - 1]), ParseVolume(strings[|strings| - 1]))
      case (Some(front), Some(v)) => Some(front + [v])
      case _ => None
  }

  /** The loop of clean_container_runtime that turns the metadata back into volumes. */
  method ParseVolumeStrings(strings: seq<string>) returns (r: Option<seq<Volume>>)
    ensures r == ParseVolumes(strings)
  {
    hide ParseVolume;
    var volumes := [];
    for i := 0 to |strings|
      invariant ParseVolumes(strings[..i]) == Some(volumes)
    {
      var v := ParseVolume(strings[i]);
      assert strings[..i + 1][..i] == strings[..i];
      if v == None {
        CorruptVolume(strings, i);
        return None;
      }
      volumes := volumes + [v.value];
    }
    assert strings[..|strings|] == strings;
    return Some(volumes);
  }

  lemma {:induction false} CorruptVolume(strings: seq<string>, i: nat)
    requires i < |strings| && ParseVolume(strings[i]) == None
    ensures ParseVolumes(strings) == None
    decreases |strings|
  {
    hide ParseVolume;
    if i < |strings| - 1 {
      CorruptVolume(strings[..|strings| - 1], i);
    }
  }

  lemma {:induction false} VolumesRoundTrip(volumes: seq<Volume>)
    requires forall v :: v in volumes ==> ValidVolume(v)
    ensures ParseVolumes(PrintVolumes(volumes)) == Some(volumes)
  {
    hide ParseVolume, PrintVolume, ValidVolume;
    if volumes != [] {
      var front, last := volumes[..|volumes| - 1], volumes[|volumes| - 1];
      assert last in volumes;
      forall v | v in front ensures ValidVolume(v) { assert v in volumes; }
      VolumesRoundTrip(front);
      VolumeRoundTrip(last);
      var strings := PrintVolumes(volumes);
      assert strings[..|strings| - 1] == PrintVolumes(front) && strings[|strings| - 1] == PrintVolume(last);
      assert volumes == front + [last];
    }
  }

  /** What removal works on is what run mounted: a record whose volumes were made from command line volumes,
      written and read again, yields the first 32 of those volumes, in order. */
  lemma {:induction false} RemovalSeesWhatRunMounted(volumes: seq<Volume>, info: Info)
    requires forall v :: v in volumes ==> ValidVolume(v)
    requires info.volumes == PrintVolumes(Recorded(volumes))
    requires CRecord(info) && WriterAccepts(info)
    requires 0 <= info.detach <= 1 && ValidName(info.name, 127)
    requires KeepsLine(info.containerId) && KeepsLine(info.created) && KeepsLine(info.ipAddr)
    ensures var read := ParseInfo(PrintInfo(info), info.name);
      read == Some(info) && ParseVolumes(read.value.volumes) == Some(Recorded(volumes))
  {
    hide ParseInfo, PrintInfo, ParseVolume, ValidVolume, CRecord, WriterAccepts, ValidName;
    forall s | s in info.volumes ensures s != [] {
      assert |s| >= 1;
    }
    MetadataSurvivesIff(info);
    forall v | v in Recorded(volumes) ensures ValidVolume(v) { assert v in volumes; }
    VolumesRoundTrip(Recorded(volumes));
  }
}
