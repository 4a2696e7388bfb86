/** The network state file as the commands of docker/network.c use it: load under the lock, edit in memory,
    print to a temporary file, publish by rename. */
module NetworkStore {
  import opened Text
  import opened Numbers
  import opened Ipv4
  import opened NetworkState
  import opened NetworkFile
  import opened AddressPool
  import opened NetworkTable

  /** What the operating system grants one command: the lock, reading the file, publishing the new file. */
  datatype Io = Io(lockOk: bool, readOk: bool, writeOk: bool)

  /** The outcome of one update on a file content; None means that nothing was published. */
  function Published(op: Op, image: Option<seq<Record>>, io: Io): Option<Outcome>
  {
    if io.lockOk && io.readOk && io.writeOk && image.Some? then Apply(op, image.value) else None
  }

  class Store {
    /** The bytes of the visible file, if there is one. */
    var file: Option<string>

    constructor ()
      ensures file == None
    {
      file := None;
    }

    /** What load_network_records reads; a missing file is an empty table. */
    ghost function Image(): Option<seq<Record>>
      reads this
    {
      match file
      case None => Some([])
      case Some(text) => LoadImage(text)
    }

    method Load(io: Io) returns (records: Option<seq<Record>>)
      ensures records == if io.readOk then Image() else None
    {
      if !io.readOk {
        return None;
      }
      match file
      case None => records := Some([]);
      case Some(text) => records := LoadNetworkRecords(text);
    }

    /** write_network_records: all or nothing. */
    method Write(records: seq<Record>, io: Io) returns (ok: bool)
      modifies this
      ensures ok == (io.writeOk && AllValid(records))
      ensures file == if ok then Some(PrintImage(records)) else old(file)
    {
      var text := PrintRecords(records);
      if text == None || !io.writeOk {
        return false;
      }
      file := text;
      return true;
    }

    /** The name lookup shared by all commands. */
    method Lookup(records: seq<Record>, name: string) returns (k: nat)
      ensures k == Find(records, name)
    {
      k := 0;
      while k < |records|
        invariant k <= |records|
        invariant forall i :: 0 <= i < k ==> records[i].name != name
      {
        if records[k].name == name {
          return;
        }
        k := k + 1;
      }
    }

    /** alloc_new_ip: the address (0 on failure) and its text. */
    method AllocNewIp(name: string, io: Io) returns (granted: nat, ip: string)
      modifies this
      ensures match Published(Alloc(name), old(Image()), io)
        case None => granted == 0 && ip == [] && file == old(file)
        case Some(o) => 0 < granted == o.address <= UINT32_MAX && ip == InetNtop(granted) &&
                        file == Some(PrintImage(o.records))
      ensures granted > 0 ==> AddressAdded(old(Image()), Image(), name, granted)
    {
      hide ValidRecord, ValidCidr, ParseCidr, LoadImage;
      granted, ip := 0, [];
      if !io.lockOk {
        return;
      }
      var loaded := Load(io);
      if loaded == None {
        return;
      }
      var records := loaded.value;
      ImageIsStorable(file);
      var k := Lookup(records, name);
      if k == |records| {
        return;
      }
      ghost var before := records[k];
      RecordFacts(before);
      var network := new NetworkRecord(records[k]);
      var address, examined := network.Allocate();
      if address == 0 {
        return;
      }
      AllocIsLeastUnused(Range(before), before.usedIps);
      records := records[k := network.Value()];
      ApplyKeepsStorable(Alloc(name), loaded.value);
      var ok := Write(records, io);
      if !ok {
        return;
      }
      AddressUpdateIsRead(Alloc(name), loaded.value);
      granted, ip := address, InetNtop(address);
    }

    /** release_used_ip, called with the text of the address. */
    method ReleaseUsedIp(name: string, ip: string, io: Io) returns (ok: bool)
      modifies this
      ensures var address := InetPton(ip);
        match Published(Release(name, if address.Some? then address.value else 0), old(Image()), io)
        case None => !ok && file == old(file)
        case Some(o) => ok && file == Some(PrintImage(o.records))
      ensures ok ==> InetPton(ip).Some? && AddressGone(old(Image()), Image(), name, InetPton(ip).value)
    {
      hide ValidRecord, ValidCidr, ParseCidr, LoadImage, InetPton;
      var parsed := InetPton(ip);
      var address := if parsed.Some? then parsed.value else 0;
      if address == 0 || !io.lockOk {
        return false;
      }
      var loaded := Load(io);
      if loaded == None {
        return false;
      }
      var records := loaded.value;
      ImageIsStorable(file);
      var k := Lookup(records, name);
      if k == |records| {
        return false;
      }
      var network := new NetworkRecord(records[k]);
      network.Release(address);
      records := records[k := network.Value()];
      ApplyKeepsStorable(Release(name, address), loaded.value);
      AddressUpdateIsRead(Release(name, address), loaded.value);
      ok := Write(records, io);
    }

    /** add_network_info; a record that cannot be printed makes the write fail. */
    method AddNetworkInfo(network: Record, io: Io) returns (ok: bool)
      modifies this
      ensures match Published(Add(network), old(Image()), io)
        case None => !ok && file == old(file)
        case Some(o) => ok && file == Some(PrintImage(o.records))
      ensures ok ==> RecordAppended(old(Image()), Image(), network)
    {
      hide ValidRecord, ValidCidr, ParseCidr, LoadImage;
      if !io.lockOk {
        return false;
      }
      var loaded := Load(io);
      if loaded == None || |loaded.value| >= MAX_RECORDS {
        return false;
      }
      var records := loaded.value;
      ImageIsStorable(file);
      var k := Lookup(records, network.name);
      if k < |records| {
        return false;
      }
      if ValidRecord(network) {
        ApplyKeepsValid(Add(network), records);
        PublishedIsReadable(Add(network), records);
      } else {
        assert (records + [network])[|records|] == network;
      }
      ok := Write(records + [network], io);
    }

    /** The compaction loop of delete_network_info. */
    method DropNamed(loaded: seq<Record>, name: string) returns (kept: seq<Record>)
      ensures kept == Others(loaded, name)
    {
      var records, outputCount := loaded, 0;
      for index := 0 to |records|
        invariant |records| == |loaded| && outputCount <= index
        invariant records[..outputCount] == Others(loaded[..index], name)
        invariant records[index..] == loaded[index..]
      {
        assert records[index] == records[index..][0] == loaded[index];
        assert loaded[..index + 1][..index] == loaded[..index];
        assert records[index + 1..] == loaded[index + 1..] by {
          assert records[index..][1..] == loaded[index..][1..];
        }
        if records[index].name != name {
          records := records[outputCount := records[index]];
          outputCount := outputCount + 1;
        }
      }
      assert loaded[..|loaded|] == loaded;
      return records[..outputCount];
    }

    /** delete_network_info: the compaction loop, then the write even when nothing was dropped. */
    method DeleteNetworkInfo(name: string, io: Io) returns (ok: bool)
      modifies this
      ensures match Published(Delete(name), old(Image()), io)
        case None => !ok && file == old(file)
        case Some(o) => ok && file == Some(PrintImage(o.records))
      ensures ok ==> RecordCutOut(old(Image()), Image(), name)
    {
      hide ValidRecord, Find, LoadImage, PrintImage, Others, Storable, UniqueNames, RecordCutOut, Apply;
      if !io.lockOk {
        return false;
      }
      var loaded := Load(io);
      if loaded == None {
        return false;
      }
      var records := DropNamed(loaded.value, name);
      ImageIsStorable(file);
      DeletionIsRead(loaded.value, name);
      ok := Write(records, io);
    }
  }

  /** Only the list of used addresses of the named record differs. */
  ghost predicate OneRecordChanged(before: seq<Record>, after: seq<Record>, name: string)
  {
    var k := Find(before, name);
    k < |before| == |after| && k == Find(after, name) &&
    (forall i :: 0 <= i < |before| && i != k ==> after[i] == before[i]) &&
    after[k].driver == before[k].driver && after[k].cidr == before[k].cidr
  }

  ghost predicate AddressAdded(before: Option<seq<Record>>, after: Option<seq<Record>>, name: string, address: nat)
  {
    before.Some? && after.Some? && OneRecordChanged(before.value, after.value, name) &&
    var k := Find(before.value, name);
    address !in before.value[k].usedIps && after.value[k].usedIps == before.value[k].usedIps + [address]
  }

  ghost predicate AddressGone(before: Option<seq<Record>>, after: Option<seq<Record>>, name: string, address: nat)
  {
    before.Some? && after.Some? && OneRecordChanged(before.value, after.value, name) &&
    var k := Find(before.value, name);
    forall a :: a in after.value[k].usedIps <==> a in before.value[k].usedIps && a != address
  }

  /** The new record stands at the end, unless its CIDR has a line break; then nothing can be read any more. */
  ghost predicate RecordAppended(before: Option<seq<Record>>, after: Option<seq<Record>>, r: Record)
  {
    before.Some? && (forall x :: x in before.value ==> x.name != r.name) &&
    after == if SingleLine(r.cidr) then Some(before.value + [r]) else None
  }

  /** No record has the name any more; all others are there as before, in their order. */
  ghost predicate RecordCutOut(before: Option<seq<Record>>, after: Option<seq<Record>>, name: string)
  {
    before.Some? && after.Some? && (forall x :: x in after.value ==> x.name != name) &&
    var k := Find(before.value, name);
    after.value == if k < |before.value| then before.value[..k] + before.value[k + 1..] else before.value
  }

  lemma {:induction false} AddressUpdateIsRead(op: Op, records: seq<Record>)
    requires (op.Alloc? || op.Release?) && Storable(records) && Apply(op, records).Some?
    ensures var o := Apply(op, records).value;
      var k := Find(records, op.name);
      LoadImage(PrintImage(o.records)) == Some(o.records) && OneRecordChanged(records, o.records, op.name) &&
      (op.Alloc? ==> o.address !in records[k].usedIps && o.records[k].usedIps == records[k].usedIps + [o.address]) &&
      (op.Release? ==> forall a :: a in o.records[k].usedIps <==> a in records[k].usedIps && a != op.address)
  {
    hide LoadImage, PrintImage, Storable, ValidRecord, Apply;
    PublishedIsReadable(op, records);
    AddressUpdatesMean(records, op);
    var o, k := Apply(op, records).value, Find(records, op.name);
    assert forall i :: 0 <= i < |records| ==> o.records[i].name == records[i].name;
    SameFind(records, o.records, op.name);
  }

  lemma {:induction false} SameFind(before: seq<Record>, after: seq<Record>, name: string)
    requires |before| == |after| && forall i :: 0 <= i < |before| ==> after[i].name == before[i].name
    ensures Find(after, name) == Find(before, name)
  {
    var i, j := Find(before, name), Find(after, name);
    assert i < |before| ==> after[i].name == name;
    assert j < |after| ==> before[j].name == name;
  }

  lemma {:induction false} DeletionIsRead(records: seq<Record>, name: string)
    requires Storable(records)
    ensures Apply(Delete(name), records) == Some(Outcome(Others(records, name), 0)) && AllValid(Others(records, name))
    ensures RecordCutOut(Some(records), LoadImage(PrintImage(Others(records, name))), name)
  {
    hide LoadImage, PrintImage, ValidRecord, Find, Others, UniqueNames, AllValid, AllSingleLine;
    DeleteMeans(records, name);
    ApplyKeepsValid(Delete(name), records);
    PublishedIsReadable(Delete(name), records);
  }

  lemma {:induction false} ImageIsStorable(file: Option<string>)
    ensures file.Some? && LoadImage(file.value).Some? ==> Storable(LoadImage(file.value).value)
    ensures Storable([])
  {
    if file.Some? && LoadImage(file.value).Some? {
      LoadedIsStorable(file.value);
    }
  }

  /** After a published update the next reader sees exactly the updated table, unless the update added a
      network whose CIDR has a line break: then the file cannot be read any more. */
  lemma {:induction false} PublishedIsReadable(op: Op, records: seq<Record>)
    requires Storable(records) && Apply(op, records).Some?
    ensures var after := Apply(op, records).value.records;
      LoadImage(PrintImage(after)) == if Harmless(op) then Some(after) else None
  {
    hide ValidRecord, LoadImage, PrintImage;
    ApplyKeepsValid(op, records);
    ApplyKeepsStorable(op, records);
    ImageRoundTrip(Apply(op, records).value.records);
  }

  /** An address survives its trip through text: releasing the printed address releases that address. */
  lemma {:induction false} ReleaseByText(name: string, address: nat)
    requires 0 < address <= UINT32_MAX
    ensures InetPton(InetNtop(address)) == Some(address)
    ensures forall ip :: InetPton(ip) == Some(address) ==> ip == InetNtop(address)
  {
    hide InetPton, InetNtop;
    NtopThenPton(address);
    forall ip | InetPton(ip) == Some(address) ensures ip == InetNtop(address) {
      PtonThenNtop(ip);
    }
  }
}
