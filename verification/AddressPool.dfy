/** The lowest-free-address allocator of docker/network.c: the arithmetic, the record edited in place,
    and the algebra of allocating and releasing. */
module AddressPool {
  import opened Text
  import opened Numbers
  import opened Ipv4
  import opened NetworkState

  // ---------- specification ----------

  /** The first candidate of [from, limit) that is not used, or limit. */
  function LeastFree(from: nat, limit: nat, used: seq<nat>): (r: nat)
    requires from <= limit
    ensures from <= r <= limit
    ensures forall a :: from <= a < r ==> a in used
    ensures r < limit ==> r !in used
    decreases limit - from
  {
    if from == limit || from !in used then from else LeastFree(from + 1, limit, used)
  }

  function AllocAddress(range: Cidr, used: seq<nat>): Option<nat>
    requires range.prefix <= 32
  {
    if |used| >= MAX_USED_IPS || range.Broadcast() <= range.network + 2 then None
    else
      var a := LeastFree(range.network + 2, range.Broadcast(), used);
      if a == range.Broadcast() then None else Some(a)
  }

  /** Every occurrence of address dropped, the rest in order. */
  function Without(used: seq<nat>, address: nat): (r: seq<nat>)
    ensures address !in r && |r| <= |used|
    ensures forall a :: a in r <==> a in used && a != address
  {
    if used == [] then []
    else
      var last := used[|used| - 1];
      assert used == used[..|used| - 1] + [last];
      var front := Without(used[..|used| - 1], address);
      if last == address then front else front + [last]
  }

  // ---------- the pigeonhole argument ----------

  function Interval(lo: nat, hi: nat): (r: set<nat>)
    requires lo <= hi
    ensures |r| == hi - lo
    ensures forall a :: a in r <==> lo <= a < hi
    decreases hi - lo
  {
    if lo == hi then {} else Interval(lo + 1, hi) + {lo}
  }

  function Elements(s: seq<nat>): (r: set<nat>)
    ensures |r| <= |s|
    ensures forall a :: a in r <==> a in s
  {
    if s == [] then {} else
      assert s == [s[0]] + s[1..];
      Elements(s[1..]) + {s[0]}
  }

  lemma {:induction false} SubsetSize(a: set<nat>, b: set<nat>)
    requires a <= b
    ensures |a| <= |b|
  {
    assert b == a + (b - a);
  }

  lemma {:induction false} DistinctElements(s: seq<nat>)
    requires Distinct(s)
    ensures |Elements(s)| == |s|
  {
    hide Distinct;
    if s != [] {
      DistinctTail(s);
      DistinctElements(s[1..]);
      assert Elements(s) == Elements(s[1..]) + {s[0]};
    }
  }

  lemma {:induction false} DistinctTail(s: seq<nat>)
    requires s != [] && Distinct(s)
    ensures Distinct(s[1..]) && s[0] !in s[1..]
  {
  }

  /** The search stops after at most one more candidate than there are used addresses. */
  lemma {:induction false} LeastFreeIsNear(from: nat, limit: nat, used: seq<nat>)
    requires from <= limit
    ensures LeastFree(from, limit, used) - from <= |used|
  {
    var r := LeastFree(from, limit, used);
    SubsetSize(Interval(from, r), Elements(used));
  }

  function Min(a: int, b: int): int { if a <= b then a else b }

  /** How many addresses a network can hand out at the same time. */
  function Capacity(range: Cidr): int
    requires range.prefix <= 32
  {
    Min(MAX_USED_IPS, range.BlockSize() - 3)
  }

  lemma {:induction false} UsedWithinCapacity(range: Cidr, used: seq<nat>)
    requires range.Aligned() && range.prefix <= 30
    requires |used| <= MAX_USED_IPS && ValidAddresses(range, used)
    ensures |used| <= Capacity(range)
  {
    AlignedFits(range);
    DistinctElements(used);
    SubsetSize(Elements(used), Interval(range.network + 2, range.Broadcast()));
  }

  /** An allocation fails exactly when the pool is exhausted. */
  lemma {:induction false} AllocFailsIff(range: Cidr, used: seq<nat>)
    requires range.Aligned() && range.prefix <= 30
    requires |used| <= MAX_USED_IPS && ValidAddresses(range, used)
    ensures AllocAddress(range, used) == None <==> |used| == Capacity(range)
  {
    AlignedFits(range);
    UsedWithinCapacity(range, used);
    LeastFreeIsNear(range.network + 2, range.Broadcast(), used);
    if |used| == range.BlockSize() - 3 && AllocAddress(range, used).Some? {
      var a := AllocAddress(range, used).value;
      var more := used + [a];
      assert Distinct(more);
      DistinctElements(more);
      SubsetSize(Elements(more), Interval(range.network + 2, range.Broadcast()));
    }
  }

  /** What an allocation hands out: the least usable address that nobody holds, and the list stays valid. */
  lemma {:induction false} AllocIsLeastUnused(range: Cidr, used: seq<nat>)
    requires range.Aligned() && ValidAddresses(range, used) && AllocAddress(range, used).Some?
    ensures var a := AllocAddress(range, used).value;
      Usable(range, a) && a !in used && 0 < a < UINT32_MAX &&
      ValidAddresses(range, used + [a]) && |used + [a]| <= MAX_USED_IPS &&
      (forall b: nat :: Usable(range, b) && b < a ==> b in used) &&
      a <= range.network + 2 + |used|
  {
    AlignedFits(range);
    LeastFreeIsNear(range.network + 2, range.Broadcast(), used);
  }

  // ---------- algebra ----------

  lemma {:induction false} WithoutAbsent(used: seq<nat>, address: nat)
    requires address !in used
    ensures Without(used, address) == used
  {
    if used != [] {
      WithoutAbsent(used[..|used| - 1], address);
    }
  }

  /** Releasing what was just granted restores the list verbatim. */
  lemma {:induction false} AllocThenRelease(range: Cidr, used: seq<nat>)
    requires range.Aligned() && ValidAddresses(range, used) && AllocAddress(range, used).Some?
    ensures Without(used + [AllocAddress(range, used).value], AllocAddress(range, used).value) == used
  {
    AllocIsLeastUnused(range, used);
    var a := AllocAddress(range, used).value;
    assert (used + [a])[..|used|] == used;
    WithoutAbsent(used, a);
  }

  lemma {:induction false} WithoutAppend(a: seq<nat>, b: seq<nat>, address: nat)
    ensures Without(a + b, address) == Without(a, address) + Without(b, address)
  {
    if b == [] {
      assert a + b == a;
    } else {
      assert (a + b)[..|a + b| - 1] == a + b[..|b| - 1];
      WithoutAppend(a, b[..|b| - 1], address);
    }
  }

  /** Releasing is idempotent, and releases commute: only the set of released addresses matters. */
  lemma {:induction false} ReleaseAlgebra(used: seq<nat>, a: nat, b: nat)
    ensures Without(Without(used, a), a) == Without(used, a)
    ensures Without(Without(used, a), b) == Without(Without(used, b), a)
  {
    WithoutAbsent(Without(used, a), a);
    if used != [] {
      var front, last := used[..|used| - 1], used[|used| - 1];
      ReleaseAlgebra(front, a, b);
      WithoutAppend(Without(front, a), [last], b);
      WithoutAppend(Without(front, b), [last], a);
    }
  }

  lemma {:induction false} WithoutKeepsValid(range: Cidr, used: seq<nat>, address: nat)
    requires ValidAddresses(range, used)
    ensures ValidAddresses(range, Without(used, address))
  {
    if used != [] {
      var front, last := used[..|used| - 1], used[|used| - 1];
      WithoutKeepsValid(range, front, address);
      assert last !in front;
    }
  }

  // ---------- the record edited in place ----------

  /** 32-bit unsigned addition. */
  function Add32(x: nat, y: nat): nat
  {
    (x + y) % (UINT32_MAX + 1)
  }

  /** struct td_network_record: a fixed array of addresses and how many of them are in use. */
  class NetworkRecord {
    const name: string
    const driver: string
    const cidr: string
    const usedIps: array<nat>
    var usedIpCount: nat

    ghost predicate Valid()
      reads this, usedIps
    {
      usedIps.Length == MAX_USED_IPS && usedIpCount <= MAX_USED_IPS && ValidRecord(Value())
    }

    function Value(): Record
      reads this, usedIps
      requires usedIpCount <= usedIps.Length
    {
      Record(name, driver, cidr, usedIps[..usedIpCount])
    }

    constructor (r: Record)
      requires ValidRecord(r)
      ensures Valid() && Value() == r && fresh(usedIps)
    {
      name, driver, cidr := r.name, r.driver, r.cidr;
      usedIps := new nat[MAX_USED_IPS](i => if 0 <= i < |r.usedIps| then r.usedIps[i] else 0);
      usedIpCount := |r.usedIps|;
      new;
      assert usedIps[..usedIpCount] == r.usedIps;
    }

    /** The candidate loop of alloc_new_ip; 0 stands for failure. All sums are 32-bit. */
    method FirstFree(minimum: nat, maximum: nat) returns (candidate: nat, examined: nat)
      requires minimum + 2 < maximum <= UINT32_MAX && usedIpCount <= usedIps.Length
      ensures var found := LeastFree(minimum + 2, maximum, usedIps[..usedIpCount]);
        candidate == (if found == maximum then 0 else found) && examined <= found - minimum - 1
    {
      ghost var used := usedIps[..usedIpCount];
      candidate, examined := Add32(minimum, 2), 0;
      while candidate < maximum
        invariant minimum + 2 <= candidate <= maximum
        invariant examined == candidate - minimum - 2
        invariant LeastFree(candidate, maximum, used) == LeastFree(minimum + 2, maximum, used)
      {
        examined := examined + 1;
        var taken := Holds(candidate);
        if !taken {
          return;
        }
        candidate := Add32(candidate, 1);
      }
      candidate := 0;
    }

    /** The search and the append of alloc_new_ip. */
    method Allocate() returns (granted: nat, examined: nat)
      requires Valid()
      modifies this`usedIpCount, usedIps
      ensures Valid()
      ensures var before := old(Value());
        match AllocAddress(Range(before), before.usedIps)
        case None => granted == 0 && Value() == before
        case Some(a) => granted == a != 0 && Value() == before.(usedIps := before.usedIps + [a])
      ensures examined <= old(usedIpCount) + 1
    {
      hide ValidRecord, ValidCidr, ParseCidr, LeastFree;
      ghost var before := Value();
      ghost var used := before.usedIps;
      RecordFacts(before);
      var range := ParseCidr(cidr).value;
      var minimum, maximum := range.network, range.Broadcast();
      if usedIpCount >= MAX_USED_IPS || maximum <= Add32(minimum, 2) {
        return 0, 0;
      }
      LeastFreeIsNear(minimum + 2, maximum, used);
      granted, examined := FirstFree(minimum, maximum);
      if granted == 0 {
        return;
      }
      AllocIsLeastUnused(range, used);
      usedIps[usedIpCount] := granted;
      usedIpCount := usedIpCount + 1;
      assert usedIps[..usedIpCount] == used + [granted];
      ValidAfter(before, used + [granted]);
    }

    /** The inner scan: is the candidate one of the used addresses? */
    method Holds(candidate: nat) returns (used: bool)
      requires usedIpCount <= usedIps.Length
      ensures used == (candidate in usedIps[..usedIpCount])
    {
      for index := 0 to usedIpCount
        invariant candidate !in usedIps[..index]
      {
        if candidate == usedIps[index] {
          assert usedIps[..usedIpCount][index] == candidate;
          return true;
        }
        assert usedIps[..index + 1] == usedIps[..index] + [usedIps[index]];
      }
      return false;
    }

    /** The compaction loop of release_used_ip. */
    method Compact(address: nat)
      requires usedIpCount <= usedIps.Length
      modifies this`usedIpCount, usedIps
      ensures usedIpCount <= usedIps.Length
      ensures usedIps[..usedIpCount] == Without(old(usedIps[..usedIpCount]), address)
    {
      ghost var used := usedIps[..usedIpCount];
      var outputIndex := 0;
      for ipIndex := 0 to usedIpCount
        invariant outputIndex <= ipIndex <= usedIpCount == |used|
        invariant usedIps[..outputIndex] == Without(used[..ipIndex], address)
        invariant usedIps[ipIndex..usedIpCount] == used[ipIndex..]
      {
        assert usedIps[ipIndex] == usedIps[ipIndex..usedIpCount][0] == used[ipIndex];
        assert used[..ipIndex + 1][..ipIndex] == used[..ipIndex];
        ghost var kept := usedIps[..outputIndex];
        if usedIps[ipIndex] != address {
          usedIps[outputIndex] := usedIps[ipIndex];
          outputIndex := outputIndex + 1;
          assert usedIps[..outputIndex] == kept + [used[ipIndex]];
        }
        assert usedIps[ipIndex + 1..usedIpCount] == used[ipIndex..][1..];
      }
      usedIpCount := outputIndex;
      assert used[..|used|] == used;
    }

    /** The compaction of release_used_ip, in place and stable. */
    method Release(address: nat)
      requires Valid()
      modifies this`usedIpCount, usedIps
      ensures Valid()
      ensures Value() == old(Value()).(usedIps := Without(old(Value()).usedIps, address))
    {
      hide ValidRecord, ValidCidr, ParseCidr, Without, ValidAddresses, Range;
      ghost var before := Value();
      RecordFacts(before);
      Compact(address);
      WithoutKeepsValid(Range(before), before.usedIps, address);
      ValidAfter(before, Without(before.usedIps, address));
    }
  }

  lemma {:induction false} RecordFacts(r: Record)
    requires ValidRecord(r)
    ensures ValidCidr(r.cidr) && ParseCidr(r.cidr).Some? && |r.usedIps| <= MAX_USED_IPS
    ensures Range(r).Aligned() && Range(r).prefix <= 30 && ValidAddresses(Range(r), r.usedIps)
    ensures Range(r).network + 3 <= Range(r).Broadcast() <= UINT32_MAX
  {
    AlignedFits(Range(r));
  }

  lemma {:induction false} ValidAfter(r: Record, usedIps: seq<nat>)
    requires ValidRecord(r) && |usedIps| <= MAX_USED_IPS && ValidAddresses(Range(r), usedIps)
    ensures ValidRecord(r.(usedIps := usedIps))
  {
  }

  /** What that means for some written prefixes: a /30 network has one container address, a /29 five, and from /24 on the
      record is the limit. */
  lemma {:induction false} CapacityOf(a: nat, p: nat)
    requires a <= UINT32_MAX && p <= 30
    ensures var text := InetNtop(a) + "/" + PrintNat(p);
      ParseCidr(text).Some? &&
      var c := ParseCidr(text).value;
      Capacity(c) == Min(128, Pow2(32 - p) - 3) &&
      (p == 30 ==> Capacity(c) == 1) && (p == 29 ==> Capacity(c) == 5) && (p <= 24 ==> Capacity(c) == 128)
  {
    hide InetNtop, PrintNat, ParseCidr;
    CidrMeans(a, p);
    BlockSizes();
    if p <= 24 {
      Pow2Monotone(8, 32 - p);
    }
  }
}
