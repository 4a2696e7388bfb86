/** What a repeated release of an address does. An rm that failed after giving the address back keeps the metadata and
    releases the address again when it is retried (docker/container.c:216-224); by then it may be somebody else's. */
module RetriedRelease {
  import opened Text
  import Numbers
  import opened Ipv4
  import opened NetworkState
  import opened NetworkFile
  import opened AddressPool
  import opened NetworkTable
  import opened NetworkStore
  import opened NatRules

  /** No update of the history adds or deletes the network. */
  predicate KeepsNetwork(ops: seq<Op>, name: string)
  {
    forall i :: 0 <= i < |ops| ==> ops[i] != Delete(name) && !(ops[i].Add? && ops[i].record.name == name)
  }

  /** Somebody was given the address during the history and has not given it back. */
  ghost predicate HeldBySomebody(initial: seq<Record>, ops: seq<Op>, name: string, address: nat)
  {
    exists i: nat :: i < |ops| && Granted(initial, ops, i, name, address) && StillHeld(ops, i, name, address)
  }

  /** An update brings an address into use on an existing network only by handing it out. */
  lemma {:induction false} UseComesFromGrant(records: seq<Record>, op: Op, name: string, address: nat)
    requires UniqueNames(records) && KeepsNetwork([op], name)
    requires address > 0 && InUse(Step(records, op), name, address) && Find(records, name) < |records|
    ensures !InUse(records, name, address) ==>
      op == Alloc(name) && Apply(op, records).Some? && Apply(op, records).value.address == address
    ensures op != Release(name, address)
  {
    hide ValidRecord, ValidCidr, AllocAddress;
    assert [op][0] == op;
    var k := Find(records, name);
    if Apply(op, records).Some? {
      match op
      case Add(r) => FindIs(records + [r], name, k);
      case Delete(other) => FindInOthers(records, name, other);
      case Alloc(other) =>
        var j := Find(records, other);
        FindAfterUpdate(records, j, Grant(records[j], Apply(op, records).value.address), name);
      case Release(other, a) =>
        var j := Find(records, other);
        FindAfterUpdate(records, j, Revoke(records[j], a), name);
    }
  }

  lemma {:induction false} NetworkStays(initial: seq<Record>, ops: seq<Op>, name: string)
    requires Storable(initial) && AllHarmless(ops) && KeepsNetwork(ops, name) && Find(initial, name) < |initial|
    ensures Find(Replay(initial, ops), name) < |Replay(initial, ops)|
  {
    hide ValidRecord, ValidCidr, AllocAddress;
    if ops != [] {
      var front, op := ops[..|ops| - 1], ops[|ops| - 1];
      var records := Replay(initial, front);
      NetworkStays(initial, front, name);
      ReplayIsStorable(initial, front);
      if Apply(op, records).Some? {
        match op
        case Add(r) => FindIs(records + [r], name, Find(records, name));
        case Delete(other) => FindInOthers(records, name, other);
        case Alloc(other) =>
          var j := Find(records, other);
          FindAfterUpdate(records, j, Grant(records[j], Apply(op, records).value.address), name);
        case Release(other, a) =>
          var j := Find(records, other);
          FindAfterUpdate(records, j, Revoke(records[j], a), name);
      }
    }
  }

  /** Over any history that keeps the network, a free address comes into use exactly by being somebody's. */
  lemma {:induction false} InUseIffHeld(initial: seq<Record>, ops: seq<Op>, name: string, address: nat)
    requires Storable(initial) && AllHarmless(ops) && KeepsNetwork(ops, name)
    requires address > 0 && Find(initial, name) < |initial| && !InUse(initial, name, address)
    ensures InUse(Replay(initial, ops), name, address) <==> HeldBySomebody(initial, ops, name, address)
  {
    hide Storable, Apply, InUse, AllHarmless, KeepsNetwork, UniqueNames;
    if HeldBySomebody(initial, ops, name, address) {
      var i: nat :| i < |ops| && Granted(initial, ops, i, name, address) && StillHeld(ops, i, name, address);
      HeldIsInUse(initial, ops, i, name, address);
    }
    if ops != [] && InUse(Replay(initial, ops), name, address) {
      var front, op := ops[..|ops| - 1], ops[|ops| - 1];
      FrontKeeps(ops, name);
      InUseIffHeld(initial, front, name, address);
      ReplayIsStorable(initial, front);
      NetworkStays(initial, front, name);
      UniqueAfter(Replay(initial, front));
      UseComesFromGrant(Replay(initial, front), op, name, address);
      if InUse(Replay(initial, front), name, address) {
        var i: nat :| i < |front| && Granted(initial, front, i, name, address) && StillHeld(front, i, name, address);
        assert ops[..i] == front[..i];
        assert Granted(initial, ops, i, name, address) && StillHeld(ops, i, name, address);
      } else {
        assert Granted(initial, ops, |ops| - 1, name, address);
      }
    }
  }

  lemma {:induction false} FrontKeeps(ops: seq<Op>, name: string)
    requires ops != [] && AllHarmless(ops) && KeepsNetwork(ops, name)
    ensures AllHarmless(ops[..|ops| - 1]) && KeepsNetwork(ops[..|ops| - 1], name) && KeepsNetwork([ops[|ops| - 1]], name)
    ensures ops[|ops| - 1] != Delete(name)
  {
  }

  lemma {:induction false} UniqueAfter(records: seq<Record>)
    requires Storable(records)
    ensures UniqueNames(records)
  {
  }

  lemma {:induction false} RevokeAbsentIff(records: seq<Record>, name: string, address: nat)
    requires address > 0 && Find(records, name) < |records|
    ensures Step(records, Release(name, address)) == records <==> !InUse(records, name, address)
  {
    var k := Find(records, name);
    if address !in records[k].usedIps {
      WithoutAbsent(records[k].usedIps, address);
    }
    assert records[k := Revoke(records[k], address)][k] == Revoke(records[k], address);
  }

  /** The release of a retried rm, after any history since the first release: it changes nothing exactly when nobody has
      been given the address meanwhile. If somebody has, the retry takes it away from them. */
  lemma {:induction false} RepeatedReleaseIsHarmlessIff(initial: seq<Record>, ops: seq<Op>, name: string, address: nat)
    requires Storable(initial) && AllHarmless(ops) && KeepsNetwork(ops, name) && address > 0
    requires Find(initial, name) < |initial|
    ensures var released := Step(initial, Release(name, address));
      var now := Replay(released, ops);
      (Step(now, Release(name, address)) == now <==> !HeldBySomebody(released, ops, name, address)) &&
      !InUse(Step(now, Release(name, address)), name, address)
  {
    hide Storable, Apply, InUse, HeldBySomebody, UniqueNames;
    var released := Step(initial, Release(name, address));
    ReleaseFreesIt(initial, name, address);
    var now := Replay(released, ops);
    InUseIffHeld(released, ops, name, address);
    NetworkStays(released, ops, name);
    RevokeAbsentIff(now, name, address);
    ReplayIsStorable(released, ops);
    ReleaseFreesIt(now, name, address);
  }

  lemma {:induction false} ReleaseFreesIt(records: seq<Record>, name: string, address: nat)
    requires Storable(records) && address > 0 && Find(records, name) < |records|
    ensures var after := Step(records, Release(name, address));
      Storable(after) && Find(after, name) < |after| && !InUse(after, name, address)
  {
    hide Storable;
    var k := Find(records, name);
    ApplyKeepsStorable(Release(name, address), records);
    FindAfterUpdate(records, k, Revoke(records[k], address), name);
  }

  /** It does happen: the next run gets the very address that the first rm gave back, and the retry of that rm takes it
      from the running container, so that the run after that is given it once more. */
  lemma {:induction false} RetryTakesFromTheNextHolder(records: seq<Record>, name: string)
    requires Storable(records) && Apply(Alloc(name), records).Some?
    ensures var granted := Apply(Alloc(name), records).value;
      var release := Release(name, granted.address);
      Apply(Alloc(name), Step(granted.records, release)) == Some(granted) &&
      Step(Replay(granted.records, [release, Alloc(name)]), release) == records
  {
    hide Storable;
    var granted := Apply(Alloc(name), records).value;
    AllocThenReleaseTable(records, name);
    ReplaySnoc(granted.records, [Release(name, granted.address)], Alloc(name));
    var none: seq<Op> := [];
    ReplaySnoc(granted.records, none, Release(name, granted.address));
    assert none + [Release(name, granted.address)] == [Release(name, granted.address)];
    assert [Release(name, granted.address)] + [Alloc(name)] == [Release(name, granted.address), Alloc(name)];
  }

  // ---------- the rules ----------

  /** Only whoever holds the address maps ports on it. */
  ghost predicate MappedByHolder(released: seq<Record>, ops: seq<Op>, name: string, address: nat, chain: seq<Rule>)
    requires address <= Numbers.UINT32_MAX
  {
    NoRulesFor(chain, InetNtop(address)) || HeldBySomebody(released, ops, name, address)
  }

  lemma {:induction false} OthersAreFew(chain: seq<Rule>, ip: string)
    ensures NoRulesFor(NatRules.Others(chain, ip), ip)
    ensures NatRules.Others(chain, ip) == chain <==> NoRulesFor(chain, ip)
  {
    hide ForAddress;
    forall r | r in NatRules.Others(chain, ip) ensures !ForAddress(r, ip) {
      OthersHas(chain, ip, r);
    }
    if NoRulesFor(chain, ip) {
      OthersNone(chain, ip);
    }
  }

  /** The network part of a retried rm, which removes the rules of the recorded address and releases it: table and chain stay
      as they are exactly when nobody was given the address meanwhile; a holder loses the address and every rule of it. */
  lemma {:induction false} RetriedCleanupIsHarmlessIff(initial: seq<Record>, ops: seq<Op>, name: string, address: nat,
                                                       chain: seq<Rule>)
    requires Storable(initial) && AllHarmless(ops) && KeepsNetwork(ops, name) && 0 < address <= Numbers.UINT32_MAX
    requires Find(initial, name) < |initial|
    requires MappedByHolder(Step(initial, Release(name, address)), ops, name, address, chain)
    ensures var released := Step(initial, Release(name, address));
      var now, ip := Replay(released, ops), InetNtop(address);
      (Step(now, Release(name, address)) == now && NatRules.Others(chain, ip) == chain <==>
         !HeldBySomebody(released, ops, name, address)) &&
      !InUse(Step(now, Release(name, address)), name, address) && NoRulesFor(NatRules.Others(chain, ip), ip)
  {
    hide Storable, Apply, InUse, HeldBySomebody, InetNtop, NoRulesFor, NatRules.Others;
    RepeatedReleaseIsHarmlessIff(initial, ops, name, address);
    OthersAreFew(chain, InetNtop(address));
  }

  /** The same on the file and the chains: the next run is given the address and maps its ports, then the retried rm works
      through its record. The running container is left without its address and without its port mappings. */
  method RetryAgainstTheNextRun(store: Store, rules: NatTable, name: string, ip: string, maps: seq<PortMap>,
                                env: seq<MapEnv>, alloc: Io, unset: UnsetEnv, release: Io)
    requires |env| == |maps| && AllCanonical(rules.output) && AllCanonical(rules.prerouting)
    requires NoRulesFor(rules.output, ip) && NoRulesFor(rules.prerouting, ip) && unset.Quiet()
    requires release.lockOk && release.readOk && release.writeOk
    requires var next := Published(Alloc(name), store.Image(), alloc);
      next.Some? && next.value.address <= Numbers.UINT32_MAX && ip == InetNtop(next.value.address)
    modifies store, rules
    ensures store.Image() == old(store.Image()) && rules.output == old(rules.output) && rules.prerouting == old(rules.prerouting)
  {
    hide Apply, LoadImage, PrintImage, Storable, InetPton, InetNtop, ValidRecord, ForAddress, Long, AllCanonical, AllGranted,
         NatRules.Others;
    ghost var before := store.Image().value;
    ghost var file := store.file;
    ImageIsStorable(file);
    var granted, text := store.AllocNewIp(name, alloc);
    PublishedIsReadable(Alloc(name), before);
    NothingLong(rules.output, ip);
    NothingLong(rules.prerouting, ip);
    rules.SetThenUnset(text, maps, env, unset);
    ReleaseByText(name, granted);
    AllocThenReleaseTable(before, name);
    ImageRoundTripOf(before);
    var ignored := store.ReleaseUsedIp(name, ip, release);
  }

  lemma {:induction false} NothingLong(chain: seq<Rule>, ip: string)
    requires NoRulesFor(chain, ip)
    ensures NoLong(chain, ip)
  {
    hide ForAddress, Long;
  }

  lemma {:induction false} ImageRoundTripOf(records: seq<Record>)
    requires Storable(records)
    ensures LoadImage(PrintImage(records)) == Some(records)
  {
    hide LoadImage, PrintImage, ValidRecord;
    ImageRoundTrip(records);
  }
}
