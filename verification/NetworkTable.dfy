/** The four updates of the network table, and what any history of them keeps. */
module NetworkTable {
  import opened Text
  import opened Ipv4
  import opened NetworkState
  import opened NetworkFile
  import opened AddressPool

  datatype Op =
    | Add(record: Record)
    | Delete(name: string)
    | Alloc(name: string)
    | Release(name: string, address: nat)

  /** The new table and the address handed out (0 when the update hands out none). */
  datatype Outcome = Outcome(records: seq<Record>, address: nat)

  /** The first record with that name, or |records|. */
  function Find(records: seq<Record>, name: string): (k: nat)
    ensures k <= |records|
    ensures k < |records| ==> records[k].name == name
    ensures forall i :: 0 <= i < k ==> records[i].name != name
  {
    if records == [] || records[0].name == name then 0 else 1 + Find(records[1..], name)
  }

  /** The records with another name, in order. */
  function Others(records: seq<Record>, name: string): (r: seq<Record>)
    ensures |r| <= |records|
    ensures forall x :: x in r <==> x in records && x.name != name
  {
    if records == [] then []
    else
      var front, last := records[..|records| - 1], records[|records| - 1];
      assert records == front + [last];
      if last.name == name then Others(front, name) else Others(front, name) + [last]
  }

  /** What an update makes of a loaded table; None when it gives up before writing. */
  function Apply(op: Op, records: seq<Record>): Option<Outcome>
  {
    match op
    case Add(r) =>
      if |records| >= MAX_RECORDS || Find(records, r.name) < |records| || !ValidRecord(r) then None
      else Some(Outcome(records + [r], 0))
    case Delete(name) => Some(Outcome(Others(records, name), 0))
    case Alloc(name) =>
      var k := Find(records, name);
      if k == |records| || !ValidCidr(records[k].cidr) then None
      else
        (match AllocAddress(Range(records[k]), records[k].usedIps)
         case None => None
         case Some(a) => Some(Outcome(records[k := Grant(records[k], a)], a)))
    case Release(name, address) =>
      var k := Find(records, name);
      if address == 0 || k == |records| then None
      else Some(Outcome(records[k := Revoke(records[k], address)], 0))
  }

  function Grant(r: Record, address: nat): Record
  {
    r.(usedIps := r.usedIps + [address])
  }

  function Revoke(r: Record, address: nat): Record
  {
    r.(usedIps := Without(r.usedIps, address))
  }

  // ---------- one update ----------

  lemma {:induction false} OthersAreUnique(records: seq<Record>, name: string)
    requires UniqueNames(records)
    ensures UniqueNames(Others(records, name))
  {
    if records != [] {
      var front, last := records[..|records| - 1], records[|records| - 1];
      var others := Others(front, name);
      OthersAreUnique(front, name);
      forall i | 0 <= i < |others| ensures others[i].name != last.name {
        assert others[i] in front;
        var j :| 0 <= j < |front| && front[j] == others[i];
        assert records[j].name != records[|records| - 1].name;
      }
    }
  }

  lemma {:induction false} FindIs(records: seq<Record>, name: string, k: nat)
    requires k < |records| && records[k].name == name
    requires forall i :: 0 <= i < k ==> records[i].name != name
    ensures Find(records, name) == k
  {
  }

  lemma {:induction false} GrantIsValid(r: Record)
    requires ValidRecord(r) && AllocAddress(Range(r), r.usedIps).Some?
    ensures ValidRecord(Grant(r, AllocAddress(Range(r), r.usedIps).value))
  {
    hide ValidCidr, ParseCidr;
    RecordFacts(r);
    AllocIsLeastUnused(Range(r), r.usedIps);
    ValidAfter(r, r.usedIps + [AllocAddress(Range(r), r.usedIps).value]);
  }

  lemma {:induction false} RevokeIsValid(r: Record, address: nat)
    requires ValidRecord(r)
    ensures ValidRecord(Revoke(r, address))
  {
    WithoutKeepsValid(Range(r), r.usedIps, address);
    ValidAfter(r, Without(r.usedIps, address));
  }

  /** Every update of a valid table gives a valid table of at most 128 uniquely named records. */
  lemma {:induction false} ApplyKeepsValid(op: Op, records: seq<Record>)
    requires |records| <= MAX_RECORDS && UniqueNames(records) && AllValid(records)
    requires Apply(op, records).Some?
    ensures var after := Apply(op, records).value.records;
      |after| <= MAX_RECORDS && UniqueNames(after) && AllValid(after)
  {
    hide ValidRecord, ValidCidr, ParseCidr;
    match op
    case Add(r) =>
    case Delete(name) =>
      OthersAreUnique(records, name);
      forall i | 0 <= i < |Others(records, name)| ensures ValidRecord(Others(records, name)[i]) {
        assert Others(records, name)[i] in records;
      }
    case Alloc(name) => GrantIsValid(records[Find(records, name)]);
    case Release(name, address) => RevokeIsValid(records[Find(records, name)], address);
  }

  /** The only update that can make a stored table unreadable adds a network whose CIDR has a line break. */
  predicate Harmless(op: Op)
  {
    op.Add? ==> SingleLine(op.record.cidr)
  }

  lemma {:induction false} ApplyKeepsStorable(op: Op, records: seq<Record>)
    requires Storable(records) && Apply(op, records).Some?
    ensures Storable(Apply(op, records).value.records) <==> Harmless(op)
  {
    hide ValidRecord, ValidCidr, ParseCidr;
    ApplyKeepsValid(op, records);
    match op
    case Add(r) =>
      assert Apply(op, records).value.records[|records|] == r;
    case Delete(name) =>
      forall i | 0 <= i < |Others(records, name)| ensures SingleLine(Others(records, name)[i].cidr) {
        assert Others(records, name)[i] in records;
      }
    case Alloc(name) =>
    case Release(name, address) =>
  }

  // ---------- histories ----------

  function Step(records: seq<Record>, op: Op): seq<Record>
  {
    match Apply(op, records)
    case None => records
    case Some(o) => o.records
  }

  /** The table after a history; an update that gives up changes nothing. */
  function Replay(initial: seq<Record>, ops: seq<Op>): seq<Record>
  {
    if ops == [] then initial else Step(Replay(initial, ops[..|ops| - 1]), ops[|ops| - 1])
  }

  lemma {:induction false} ReplaySnoc(initial: seq<Record>, ops: seq<Op>, op: Op)
    ensures Replay(initial, ops + [op]) == Step(Replay(initial, ops), op)
  {
    assert (ops + [op])[..|ops|] == ops;
  }

  predicate AllHarmless(ops: seq<Op>)
  {
    forall i :: 0 <= i < |ops| ==> Harmless(ops[i])
  }

  lemma {:induction false} ReplayIsStorable(initial: seq<Record>, ops: seq<Op>)
    requires Storable(initial) && AllHarmless(ops)
    ensures Storable(Replay(initial, ops))
  {
    hide Storable;
    if ops != [] {
      ReplayIsStorable(initial, ops[..|ops| - 1]);
      var before, op := Replay(initial, ops[..|ops| - 1]), ops[|ops| - 1];
      if Apply(op, before).Some? {
        ApplyKeepsStorable(op, before);
      }
    }
  }

  /** Exact capacity over any history: on an existing network an allocation fails exactly when
      min(128, 2^(32 - prefix) - 3) addresses are in use. */
  lemma {:induction false} CapacityOverHistory(initial: seq<Record>, ops: seq<Op>, name: string)
    requires Storable(initial) && AllHarmless(ops)
    requires Find(Replay(initial, ops), name) < |Replay(initial, ops)|
    ensures var r := Replay(initial, ops)[Find(Replay(initial, ops), name)];
      ValidCidr(r.cidr) && Range(r).prefix <= 32 &&
      (Apply(Alloc(name), Replay(initial, ops)) == None <==> |r.usedIps| == Capacity(Range(r)))
  {
    hide ValidRecord, ValidCidr, ParseCidr;
    ReplayIsStorable(initial, ops);
    var r := Replay(initial, ops)[Find(Replay(initial, ops), name)];
    RecordFacts(r);
    AllocFailsIff(Range(r), r.usedIps);
  }

  /** Allocating and then releasing the address restores the whole table. */
  lemma {:induction false} AllocThenReleaseTable(records: seq<Record>, name: string)
    requires Storable(records) && Apply(Alloc(name), records).Some?
    ensures var granted := Apply(Alloc(name), records).value;
      Apply(Release(name, granted.address), granted.records) == Some(Outcome(records, 0))
  {
    hide ValidRecord, ValidCidr, ParseCidr;
    var k := Find(records, name);
    RecordFacts(records[k]);
    var granted := Apply(Alloc(name), records).value;
    AllocIsLeastUnused(Range(records[k]), records[k].usedIps);
    AllocThenRelease(Range(records[k]), records[k].usedIps);
    FindAfterUpdate(records, k, Grant(records[k], granted.address), name);
    assert granted.records[k := records[k]] == records;
  }

  // ---------- ownership ----------

  predicate InUse(records: seq<Record>, name: string, address: nat)
  {
    var k := Find(records, name);
    k < |records| && address in records[k].usedIps
  }

  /** Updates that take an address away from whoever holds it. */
  predicate Ends(op: Op, name: string, address: nat)
  {
    op == Delete(name) || op == Release(name, address)
  }

  lemma {:induction false} FindAfterUpdate(records: seq<Record>, k: nat, r: Record, name: string)
    requires k < |records| && r.name == records[k].name
    ensures Find(records[k := r], name) == Find(records, name)
  {
    var i, j := Find(records[k := r], name), Find(records, name);
    assert forall m :: 0 <= m < |records| ==> records[k := r][m].name == records[m].name;
  }

  lemma {:induction false} FindInOthers(records: seq<Record>, name: string, other: string)
    requires name != other && Find(records, name) < |records| && UniqueNames(records)
    ensures var k := Find(Others(records, other), name);
      k < |Others(records, other)| && Others(records, other)[k] == records[Find(records, name)]
  {
    var r, rest := records[Find(records, name)], Others(records, other);
    assert r in rest;
    var k := Find(rest, name);
    var i :| 0 <= i < |rest| && rest[i] == r;
    assert k <= i;
    assert rest[k] in records;
    var j :| 0 <= j < |records| && records[j] == rest[k];
    assert records[j].name == name;
  }

  /** One update by anybody leaves a used address in use unless it releases it or deletes the network. */
  lemma {:induction false} UseSurvives(records: seq<Record>, op: Op, name: string, address: nat)
    requires UniqueNames(records) && InUse(records, name, address) && !Ends(op, name, address)
    ensures InUse(Step(records, op), name, address)
  {
    hide ValidRecord, ValidCidr, ParseCidr;
    if Apply(op, records).Some? {
      var k := Find(records, name);
      match op
      case Add(r) =>
        FindIs(records + [r], name, k);
      case Delete(other) => FindInOthers(records, name, other);
      case Alloc(other) =>
        var j := Find(records, other);
        FindAfterUpdate(records, j, Step(records, op)[j], name);
      case Release(other, a) =>
        var j := Find(records, other);
        FindAfterUpdate(records, j, Revoke(records[j], a), name);
    }
  }

  /** The i-th update of a history succeeded as an allocation on `name` and handed out `address`. */
  predicate Granted(initial: seq<Record>, ops: seq<Op>, i: nat, name: string, address: nat)
  {
    i < |ops| && ops[i] == Alloc(name) &&
    Apply(ops[i], Replay(initial, ops[..i])).Some? &&
    Apply(ops[i], Replay(initial, ops[..i])).value.address == address
  }

  /** Nothing after the i-th update took the address away. */
  predicate StillHeld(ops: seq<Op>, i: nat, name: string, address: nat)
  {
    forall k :: i < k < |ops| ==> !Ends(ops[k], name, address)
  }

  /** An address handed out and not taken away since is in use. */
  lemma {:induction false} HeldIsInUse(initial: seq<Record>, ops: seq<Op>, i: nat, name: string, address: nat)
    requires Storable(initial) && AllHarmless(ops)
    requires Granted(initial, ops, i, name, address) && StillHeld(ops, i, name, address)
    ensures InUse(Replay(initial, ops), name, address)
    decreases |ops|
  {
    hide ValidRecord, ValidCidr, ParseCidr, AllocAddress;
    var front, op := ops[..|ops| - 1], ops[|ops| - 1];
    var before := Replay(initial, front);
    ReplayIsStorable(initial, front);
    if i == |ops| - 1 {
      var k := Find(before, name);
      FindAfterUpdate(before, k, Grant(before[k], address), name);
    } else {
      assert front[..i] == ops[..i];
      HeldIsInUse(initial, front, i, name, address);
      UseSurvives(before, op, name, address);
    }
  }

  /** No two live holders: while an address is held, no later allocation on the network hands it out. */
  lemma {:induction false} NoTwoHolders(initial: seq<Record>, ops: seq<Op>, i: nat, j: nat, name: string, a: nat, b: nat)
    requires Storable(initial) && AllHarmless(ops) && i < j
    requires Granted(initial, ops, i, name, a) && Granted(initial, ops, j, name, b)
    requires StillHeld(ops[..j], i, name, a)
    ensures a != b
  {
    hide ValidRecord, ValidCidr, ParseCidr;
    assert ops[..j][..i] == ops[..i];
    HeldIsInUse(initial, ops[..j], i, name, a);
    ReplayIsStorable(initial, ops[..j]);
    var records := Replay(initial, ops[..j]);
    var k := Find(records, name);
    RecordFacts(records[k]);
    AllocIsLeastUnused(Range(records[k]), records[k].usedIps);
  }

  // ---------- what the updates mean ----------

  /** An addition succeeds exactly when there is room, no record has the name, and the record can be printed; then the table
      is the old one with the record at its end, and the name finds it. */
  lemma {:induction false} AddMeans(records: seq<Record>, r: Record)
    ensures Apply(Add(r), records).Some? <==>
      |records| < 128 && (forall x :: x in records ==> x.name != r.name) && ValidRecord(r)
    ensures Apply(Add(r), records).Some? ==>
      var after := Apply(Add(r), records).value.records;
      after == records + [r] && Find(after, r.name) == |records| && after[Find(after, r.name)] == r
  {
    hide ValidRecord;
    var k := Find(records, r.name);
    if k == |records| {
      forall x | x in records ensures x.name != r.name {
        var i :| 0 <= i < |records| && records[i] == x;
      }
      FindIs(records + [r], r.name, k);
    } else {
      assert records[k] in records;
    }
  }

  lemma {:induction false} OthersSnoc(front: seq<Record>, last: Record, name: string)
    ensures Others(front + [last], name) == if last.name == name then Others(front, name) else Others(front, name) + [last]
  {
    assert (front + [last])[..|front|] == front;
  }

  lemma {:induction false} OthersOfNone(records: seq<Record>, name: string)
    requires forall i :: 0 <= i < |records| ==> records[i].name != name
    ensures Others(records, name) == records
  {
    if records != [] {
      var n := |records| - 1;
      assert records == records[..n] + [records[n]];
      hide Others;
      OthersSnoc(records[..n], records[n], name);
      OthersOfNone(records[..n], name);
    }
  }

  lemma {:induction false} OthersWithout(before: seq<Record>, r: Record, after: seq<Record>)
    requires forall i :: 0 <= i < |before| ==> before[i].name != r.name
    requires forall i :: 0 <= i < |after| ==> after[i].name != r.name
    ensures Others(before + [r] + after, r.name) == before + after
    decreases |after|
  {
    hide Others;
    if after == [] {
      assert before + [r] + after == before + [r] && before + after == before;
      OthersSnoc(before, r, r.name);
      OthersOfNone(before, r.name);
    } else {
      var n := |after| - 1;
      assert before + [r] + after == (before + [r] + after[..n]) + [after[n]];
      OthersSnoc(before + [r] + after[..n], after[n], r.name);
      OthersWithout(before, r, after[..n]);
      assert before + after[..n] + [after[n]] == before + after;
    }
  }

  /** A deletion cuts out the one record of that name; every other record stays, in its order and as it was, and the name is
      not found any more. A table without the name stays as it is. */
  lemma {:induction false} DeleteMeans(records: seq<Record>, name: string)
    requires UniqueNames(records)
    ensures var k := Find(records, name);
      var deleted := Apply(Delete(name), records);
      deleted == Some(Outcome(if k < |records| then records[..k] + records[k + 1..] else records, 0)) &&
      (forall r :: r in deleted.value.records ==> r.name != name) &&
      (forall r :: r in records && r.name != name ==> r in deleted.value.records) &&
      Find(deleted.value.records, name) == |deleted.value.records|
  {
    var k := Find(records, name);
    if k < |records| {
      var before, r, after := records[..k], records[k], records[k + 1..];
      assert records == before + [r] + after;
      forall i | 0 <= i < |after| ensures after[i].name != name {
        assert after[i] == records[k + 1 + i];
      }
      OthersWithout(before, r, after);
    } else {
      OthersOfNone(records, name);
    }
    NotFound(Others(records, name), name);
  }

  lemma {:induction false} NotFound(records: seq<Record>, name: string)
    requires forall r :: r in records ==> r.name != name
    ensures Find(records, name) == |records|
  {
    if records != [] {
      assert records[0] in records;
      forall r | r in records[1..] ensures r.name != name { assert r in records; }
      NotFound(records[1..], name);
    }
  }

  /** Allocation and release change the list of used addresses of one record, and nothing else. */
  lemma {:induction false} AddressUpdatesMean(records: seq<Record>, op: Op)
    requires (op.Alloc? || op.Release?) && Apply(op, records).Some?
    ensures var k := Find(records, op.name);
      var o := Apply(op, records).value;
      k < |records| && |o.records| == |records| &&
      (forall i :: 0 <= i < |records| && i != k ==> o.records[i] == records[i]) &&
      o.records[k].name == op.name && o.records[k].driver == records[k].driver && o.records[k].cidr == records[k].cidr &&
      (op.Alloc? ==> o.address !in records[k].usedIps && o.records[k].usedIps == records[k].usedIps + [o.address]) &&
      (op.Release? ==> op.address > 0 && forall a :: a in o.records[k].usedIps <==> a in records[k].usedIps && a != op.address)
  {
    hide LeastFree, ParseCidr;
    if op.Alloc? {
      FreeIsUnused(Range(records[Find(records, op.name)]), records[Find(records, op.name)].usedIps);
    }
  }

  lemma {:induction false} FreeIsUnused(range: Cidr, used: seq<nat>)
    requires range.prefix <= 32
    ensures AllocAddress(range, used).Some? ==> AllocAddress(range, used).value !in used
  {
  }

  /** A release succeeds exactly when the address is not zero and the network exists, whether or not the address was in use;
      an allocation exactly when the network exists and has fewer than min(128, 2^(32 - prefix) - 3) addresses in use. */
  lemma {:induction false} AddressUpdateSucceedsIff(records: seq<Record>, name: string, address: nat)
    requires AllValid(records)
    ensures Apply(Release(name, address), records).Some? <==> address > 0 && exists r :: r in records && r.name == name
    ensures Apply(Alloc(name), records).Some? <==>
      var k := Find(records, name);
      k < |records| && Range(records[k]).prefix <= 32 && |records[k].usedIps| < Capacity(Range(records[k]))
  {
    hide ValidRecord, ValidCidr, ParseCidr, AllocAddress;
    var k := Find(records, name);
    if k < |records| {
      assert records[k] in records;
      RecordFacts(records[k]);
      UsedWithinCapacity(Range(records[k]), records[k].usedIps);
      AllocFailsIff(Range(records[k]), records[k].usedIps);
    }
  }
}
