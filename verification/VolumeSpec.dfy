/** Volume specifications `host:container[:ro|rw]`: parsed from the command line when a container is run,
    printed into its metadata, and parsed again when it is removed. */
module VolumeSpec {
  import opened Text
  import opened Paths

  const PATH_SIZE := 1024
  const CHECK_SIZE := 4096

  datatype Volume = Volume(host: string, container: string, readOnly: bool)

  /** The checks on the two paths. */
  predicate ValidPaths(host: string, container: string)
  {
    host != [] && host[0] == '/' && |host| < PATH_SIZE && SingleLine(host) &&
    container != [] && |container| < PATH_SIZE && JoinRootfs("/rootfs", container, CHECK_SIZE).Some?
  }

  /** The text after the first separator: the container path and perhaps a mode. */
  function ParseContainerPart(host: string, rest: string): Option<Volume>
  {
    var second := IndexOf(rest, ':');
    if second == |rest| then
      if ValidPaths(host, rest) then Some(Volume(host, rest, false)) else None
    else
      var container, mode := rest[..second], rest[second + 1..];
      if ':' in mode || !ValidPaths(host, container) || (mode != "ro" && mode != "rw") then None
      else Some(Volume(host, container, mode == "ro"))
  }

  /** td_parse_volume_spec with the buffers of parse_volume_config. */
  function ParseVolume(text: string): Option<Volume>
  {
    var first := IndexOf(text, ':');
    if first == |text| || first == 0 || first + 1 == |text| then None
    else ParseContainerPart(text[..first], text[first + 1..])
  }

  /** "%s:%s:%s" in create_container_info */
  function PrintVolume(v: Volume): string
  {
    v.host + [':'] + (v.container + [':'] + ModeText(v.readOnly))
  }

  function ModeText(readOnly: bool): string
  {
    if readOnly then "ro" else "rw"
  }

  /** The volumes the command line can produce. */
  predicate ValidVolume(v: Volume)
  {
    ':' !in v.host && ':' !in v.container && ValidPaths(v.host, v.container)
  }

  lemma {:induction false} ParsedIsValid(text: string)
    requires ParseVolume(text).Some?
    ensures ValidVolume(ParseVolume(text).value)
  {
    var first := IndexOf(text, ':');
    var rest := text[first + 1..];
    assert ':' !in text[..first];
    assert ':' !in rest[..IndexOf(rest, ':')];
  }

  lemma {:induction false} ContainerPartRoundTrip(v: Volume)
    requires ValidVolume(v)
    ensures ParseContainerPart(v.host, v.container + [':'] + ModeText(v.readOnly)) == Some(v)
  {
    IndexOfJoined(v.container, ':', ModeText(v.readOnly));
    assert ':' !in "ro" && ':' !in "rw";
    assert "ro"[1] == 'o' && "rw"[1] == 'w';
  }

  /** Printing and reading back gives the same volume exactly for the volumes the command line accepts. */
  lemma {:induction false} VolumeRoundTrip(v: Volume)
    ensures ParseVolume(PrintVolume(v)) == Some(v) <==> ValidVolume(v)
  {
    if ValidVolume(v) {
      ContainerPartRoundTrip(v);
      IndexOfJoined(v.host, ':', v.container + [':'] + ModeText(v.readOnly));
    } else if ParseVolume(PrintVolume(v)) == Some(v) {
      ParsedIsValid(PrintVolume(v));
    }
  }

  /** What the command line accepts, in terms of the two paths. */
  lemma {:induction false} AcceptedPathsIff(host: string, container: string)
    ensures ValidPaths(host, container) <==>
      host != [] && host[0] == '/' && |host| < 1024 && '\n' !in host && '\r' !in host &&
      container != [] && container[0] == '/' && |container| < 1024 && container != "/" &&
      forall c :: c in Components(container) ==> c != "." && c != ".."
  {
    JoinAcceptsIff("/rootfs", container, CHECK_SIZE);
  }

  /** The mode: read-only exactly with :ro; without a mode, or with :rw, the volume is writable; no other mode is accepted. */
  lemma {:induction false} ModeMeans(host: string, container: string, mode: string)
    requires ':' !in host && ':' !in container && ValidPaths(host, container)
    ensures ParseVolume(host + ":" + container) == Some(Volume(host, container, false))
    ensures ParseVolume(host + ":" + container + ":" + mode) ==
      if mode == "ro" then Some(Volume(host, container, true))
      else if mode == "rw" then Some(Volume(host, container, false))
      else None
  {
    hide ValidPaths;
    assert host != [] && container != [] by { AcceptedPathsIff(host, container); }
    IndexOfJoined(host, ':', container);
    IndexOfJoined(host, ':', container + ":" + mode);
    IndexOfJoined(container, ':', mode);
    assert host + ":" + container + ":" + mode == host + [':'] + (container + ":" + mode);
    assert ':' !in "ro" && ':' !in "rw" && "ro"[1] == 'o' && "rw"[1] == 'w';
  }
}
