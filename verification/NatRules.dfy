/** The DNAT rules of port mappings (docker/network.c): two chains changed only by commands that append a rule,
    list the rules, or delete the first rule equal to a given one. */
module NatRules {
  import opened Text
  import opened Numbers
  import opened Ipv4

  /** A rule as iptables lists it behind `-A CHAIN`. */
  type Rule = seq<string>

  const MAX_TOKENS: nat := 32

  datatype PortMap = PortMap(hostPort: nat, containerPort: nat)

  predicate BareTcp(spec: Rule)
  {
    |spec| >= 3 && spec[..3] == ["-p", "tcp", "--dport"]
  }

  /** iptables names the match module of a TCP port match even when the command left it out. */
  function Canonical(spec: Rule): (r: Rule)
    ensures |r| == |spec| + if BareTcp(spec) then 2 else 0
  {
    if BareTcp(spec) then ["-p", "tcp", "-m", "tcp"] + spec[2..] else spec
  }

  function Destination(ip: string, p: PortMap): string
  {
    ip + ":" + PrintNat(p.containerPort)
  }

  function OutputSpec(ip: string, p: PortMap): Rule
  {
    ["-p", "tcp", "--dport", PrintNat(p.hostPort), "-j", "DNAT", "--to-destination", Destination(ip, p)]
  }

  function PreroutingSpec(ip: string, p: PortMap): Rule
  {
    ["-p", "tcp", "-m", "tcp", "--dport", PrintNat(p.hostPort), "-j", "DNAT", "--to-destination", Destination(ip, p)]
  }

  // ---------- which rules belong to an address ----------

  predicate StartsWith(s: string, prefix: string)
  {
    |prefix| <= |s| && s[..|prefix|] == prefix
  }

  /** The token scan of delete_dnat_rules_for_chain. */
  predicate NamesDestination(tokens: seq<string>, ip: string)
  {
    exists i :: 0 <= i < |tokens| - 1 && tokens[i] == "--to-destination" && StartsWith(tokens[i + 1], ip + ":")
  }

  /** The code cuts a line into at most 32 tokens, two of which are `-A CHAIN`. */
  function Cut(r: Rule): Rule
  {
    if |r| > MAX_TOKENS - 2 then r[..MAX_TOKENS - 2] else r
  }

  predicate Long(r: Rule)
  {
    |r| > MAX_TOKENS - 2
  }

  /** A rule that, as far as the code looks, sends traffic to a port of the address. */
  predicate ForAddress(r: Rule, ip: string)
  {
    NamesDestination(Cut(r), ip)
  }

  /** The tokens of a listed rule. */
  function LineTokens(chain: string, r: Rule): seq<string>
  {
    ["-A", chain] + Cut(r)
  }

  lemma {:induction false} LineNamesDestination(chain: string, r: Rule, ip: string)
    requires chain != "--to-destination"
    ensures NamesDestination(LineTokens(chain, r), ip) <==> ForAddress(r, ip)
  {
    var line, cut := LineTokens(chain, r), Cut(r);
    assert line[0] == "-A" && line[1] == chain && "-A"[1] == 'A' && "--to-destination"[1] == '-';
    assert forall i :: 0 <= i < |cut| ==> cut[i] == line[i + 2];
    if NamesDestination(line, ip) {
      var i :| 0 <= i < |line| - 1 && line[i] == "--to-destination" && StartsWith(line[i + 1], ip + ":");
      assert cut[i - 2] == line[i] && cut[i - 1] == line[i + 1];
    }
    if NamesDestination(cut, ip) {
      var i :| 0 <= i < |cut| - 1 && cut[i] == "--to-destination" && StartsWith(cut[i + 1], ip + ":");
      assert line[i + 2] == cut[i] && line[i + 3] == cut[i + 1];
    }
  }

  /** The prefix test decides exactly whether a destination belongs to the address. */
  lemma {:induction false} DestinationTestIsExact(ip: string, other: string, p: PortMap)
    requires InetPton(ip).Some? && InetPton(other).Some?
    ensures StartsWith(Destination(other, p), ip + ":") <==> ip == other
  {
    hide PrintNat;
    forall c | c in ip ensures c != ':' { AddressChars(ip, c); }
    forall c | c in other ensures c != ':' { AddressChars(other, c); }
    var d, port := Destination(other, p), PrintNat(p.containerPort);
    assert d == other + [':'] + port;
    IndexOfJoined(other, ':', port);
    if ip == other {
      assert d[..|ip + ":"|] == ip + ":";
    }
    if StartsWith(d, ip + ":") {
      var rest := d[|ip| + 1..];
      assert d == ip + [':'] + rest;
      IndexOfJoined(ip, ':', rest);
      assert ip == d[..|ip|] && other == d[..|other|];
    }
  }

  /** The rules of a port mapping belong to its address and are stored as they are listed. */
  lemma {:induction false} MappingRules(ip: string, p: PortMap)
    ensures ForAddress(Canonical(OutputSpec(ip, p)), ip) && ForAddress(Canonical(PreroutingSpec(ip, p)), ip)
    ensures Canonical(OutputSpec(ip, p)) == Canonical(PreroutingSpec(ip, p)) == PreroutingSpec(ip, p)
  {
    hide PrintNat;
    var spec, r := OutputSpec(ip, p), PreroutingSpec(ip, p);
    assert spec[..3] == ["-p", "tcp", "--dport"];
    assert Canonical(spec) == r;
    assert r[..3] == ["-p", "tcp", "-m"] && r[..3][2] == "-m" && "-m"[1] == 'm' && "--dport"[1] == '-';
    assert r[8] == "--to-destination" && r[9] == Destination(ip, p);
    assert Destination(ip, p)[..|ip + ":"|] == ip + ":";
  }

  /** The rules of other addresses, in order. */
  function Others(rules: seq<Rule>, ip: string): seq<Rule>
  {
    if rules == [] then []
    else if ForAddress(rules[0], ip) then Others(rules[1..], ip)
    else [rules[0]] + Others(rules[1..], ip)
  }

  /** Deleting removes the first equal rule. */
  function DeleteFirst(rules: seq<Rule>, r: Rule): (rest: Option<seq<Rule>>)
    ensures rest.Some? <==> r in rules
  {
    if rules == [] then None
    else if rules[0] == r then Some(rules[1..])
    else
      match DeleteFirst(rules[1..], r)
      case None => None
      case Some(rest) => Some([rules[0]] + rest)
  }

  lemma {:induction false} OthersAppend(a: seq<Rule>, b: seq<Rule>, ip: string)
    ensures Others(a + b, ip) == Others(a, ip) + Others(b, ip)
  {
    if a == [] {
      assert a + b == b;
    } else {
      assert (a + b)[1..] == a[1..] + b;
      OthersAppend(a[1..], b, ip);
    }
  }

  lemma {:induction false} OthersNone(rules: seq<Rule>, ip: string)
    requires forall r :: r in rules ==> !ForAddress(r, ip)
    ensures Others(rules, ip) == rules
  {
    if rules != [] {
      assert rules[0] in rules;
      forall r | r in rules[1..] ensures !ForAddress(r, ip) { assert r in rules; }
      OthersNone(rules[1..], ip);
    }
  }

  lemma {:induction false} OthersAll(rules: seq<Rule>, ip: string)
    requires forall r :: r in rules ==> ForAddress(r, ip)
    ensures Others(rules, ip) == []
  {
    if rules != [] {
      assert rules[0] in rules;
      forall r | r in rules[1..] ensures ForAddress(r, ip) { assert r in rules; }
      OthersAll(rules[1..], ip);
    }
  }

  lemma {:induction false} OthersHas(rules: seq<Rule>, ip: string, r: Rule)
    ensures r in Others(rules, ip) <==> r in rules && !ForAddress(r, ip)
  {
    hide ForAddress;
    if rules != [] {
      OthersHas(rules[1..], ip, r);
      assert r in rules <==> r == rules[0] || r in rules[1..];
    }
  }

  // ---------- the chains ----------

  class NatTable {
    var output: seq<Rule>
    var prerouting: seq<Rule>

    constructor (output: seq<Rule>, prerouting: seq<Rule>)
      ensures this.output == output && this.prerouting == prerouting
    {
      this.output, this.prerouting := output, prerouting;
    }

    function Rules(chain: string): seq<Rule>
      reads this
    {
      if chain == "OUTPUT" then output else prerouting
    }

    /** iptables -t nat -A */
    method Append(chain: string, spec: Rule, granted: bool) returns (ok: bool)
      modifies this
      ensures ok == granted
      ensures output == if ok && chain == "OUTPUT" then old(output) + [Canonical(spec)] else old(output)
      ensures prerouting == if ok && chain != "OUTPUT" then old(prerouting) + [Canonical(spec)] else old(prerouting)
    {
      if granted {
        if chain == "OUTPUT" {
          output := output + [Canonical(spec)];
        } else {
          prerouting := prerouting + [Canonical(spec)];
        }
      }
      return granted;
    }

    /** iptables -t nat -D: fails when there is no such rule. */
    method Delete(chain: string, spec: Rule, granted: bool) returns (ok: bool)
      modifies this
      ensures ok == (granted && Canonical(spec) in old(Rules(chain)))
      ensures Rules(chain) ==
        if ok then DeleteFirst(old(Rules(chain)), Canonical(spec)).value else old(Rules(chain))
      ensures chain == "OUTPUT" ==> prerouting == old(prerouting)
      ensures chain != "OUTPUT" ==> output == old(output)
    {
      var rest := DeleteFirst(Rules(chain), Canonical(spec));
      if !granted || rest == None {
        return false;
      }
      if chain == "OUTPUT" {
        output := rest.value;
      } else {
        prerouting := rest.value;
      }
      return true;
    }

    /** One round of set_container_port_map: a rule in OUTPUT, then one in PREROUTING; when the second is refused the
        first is taken back. */
    method MapPort(ip: string, p: PortMap, env: MapEnv) returns (ok: bool)
      requires AllCanonical(output) && AllCanonical(prerouting)
      modifies this
      ensures AllCanonical(output) && AllCanonical(prerouting)
      ensures ok == (env.outputOk && env.preroutingOk)
      ensures ok ==> output == old(output) + [PreroutingSpec(ip, p)] && prerouting == old(prerouting) + [PreroutingSpec(ip, p)]
      ensures Others(output, ip) == Others(old(output), ip) && Others(prerouting, ip) == Others(old(prerouting), ip)
      ensures forall r :: r in output ==> r in old(output) || r == PreroutingSpec(ip, p)
      ensures forall r :: r in prerouting ==> r in old(prerouting) || r == PreroutingSpec(ip, p)
    {
      hide Canonical, ForAddress, OutputSpec, PreroutingSpec;
      ghost var r := PreroutingSpec(ip, p);
      MappingRules(ip, p);
      AppendedOthers(output, [r], ip);
      AppendedOthers(prerouting, [r], ip);
      var appended := Append("OUTPUT", OutputSpec(ip, p), env.outputOk);
      if !appended {
        return false;
      }
      var mapped := Append("PREROUTING", PreroutingSpec(ip, p), env.preroutingOk);
      if !mapped {
        ghost var during := output;
        DeleteFirstCounts(during, r, ip);
        DeletingKeepsCanonical(during, r);
        forall x | x in DeleteFirst(during, r).value ensures x in during { DeleteFirstKeeps(during, r, x); }
        var ignored := Delete("OUTPUT", OutputSpec(ip, p), env.undoOk);
        return false;
      }
      return true;
    }

    /** set_container_port_map: the mappings made before a failure are left to the caller's cleanup. */
    method SetPortMap(ip: string, maps: seq<PortMap>, env: seq<MapEnv>) returns (ok: bool)
      requires |env| == |maps| && AllCanonical(output) && AllCanonical(prerouting)
      modifies this
      ensures AllCanonical(output) && AllCanonical(prerouting)
      ensures ok <==> InetPton(ip).Some? && forall i :: 0 <= i < |env| ==> env[i].outputOk && env[i].preroutingOk
      ensures ok ==> output == old(output) + MapRules(ip, maps) && prerouting == old(prerouting) + MapRules(ip, maps)
      ensures Others(output, ip) == Others(old(output), ip) && Others(prerouting, ip) == Others(old(prerouting), ip)
      ensures forall r :: r in output ==> r in old(output) || !Long(r)
      ensures forall r :: r in prerouting ==> r in old(prerouting) || !Long(r)
      ensures InetPton(ip) == None ==> output == old(output) && prerouting == old(prerouting)
    {
      hide Canonical, ForAddress, InetPton, PreroutingSpec, Long, Others, MapRules, AllCanonical;
      if InetPton(ip) == None {
        return false;
      }
      MappedSoFar(output, ip, maps, 0);
      MappedSoFar(prerouting, ip, maps, 0);
      for i := 0 to |maps|
        invariant AllCanonical(output) && AllCanonical(prerouting)
        invariant forall j :: 0 <= j < i ==> env[j].outputOk && env[j].preroutingOk
        invariant output == old(output) + MapRules(ip, maps[..i])
        invariant prerouting == old(prerouting) + MapRules(ip, maps[..i])
      {
        MappingIsShort(ip, maps[i]);
        MappedSoFar(old(output), ip, maps, i);
        MappedSoFar(old(prerouting), ip, maps, i);
        var mapped := MapPort(ip, maps[i], env[i]);
        if !mapped {
          return false;
        }
      }
      MappedSoFar(old(output), ip, maps, |maps|);
      MappedSoFar(old(prerouting), ip, maps, |maps|);
      return true;
    }

    /** unset_container_port_map: both chains, whatever becomes of the first. */
    method UnsetPortMap(ip: string, env: UnsetEnv) returns (ok: bool)
      requires AllCanonical(output) && AllCanonical(prerouting)
      modifies this
      ensures AllCanonical(output) && AllCanonical(prerouting)
      ensures Others(output, ip) == Others(old(output), ip) && Others(prerouting, ip) == Others(old(prerouting), ip)
      ensures ip == [] || InetPton(ip) == None ==> ok == (ip == []) && output == old(output) && prerouting == old(prerouting)
      ensures ok && ip != [] ==> output == Others(old(output), ip) && prerouting == Others(old(prerouting), ip)
      ensures forall r :: r in output ==> r in old(output)
      ensures forall r :: r in prerouting ==> r in old(prerouting)
      ensures InetPton(ip).Some? && env.Quiet() && NoLong(old(output), ip) && NoLong(old(prerouting), ip) ==> ok
    {
      hide Canonical, ForAddress;
      if ip == [] {
        return true;
      }
      if InetPton(ip) == None {
        return false;
      }
      ChainNames();
      var outputOk := DeleteDnatRules("OUTPUT", ip, env.listOutput, env.output);
      var preroutingOk := DeleteDnatRules("PREROUTING", ip, env.listPrerouting, env.prerouting);
      return outputOk && preroutingOk;
    }

    /** Setting the mappings of an address, even failing midway, and then removing the address: both chains lose exactly the
        rules of the address, so chains that had none are restored. */
    method SetThenUnset(ip: string, maps: seq<PortMap>, env: seq<MapEnv>, unset: UnsetEnv)
      requires |env| == |maps| && AllCanonical(output) && AllCanonical(prerouting)
      requires unset.Quiet() && NoLong(output, ip) && NoLong(prerouting, ip)
      modifies this
      ensures InetPton(ip).Some? ==> output == Others(old(output), ip) && prerouting == Others(old(prerouting), ip)
      ensures NoRulesFor(old(output), ip) && NoRulesFor(old(prerouting), ip) ==>
        output == old(output) && prerouting == old(prerouting)
    {
      hide Canonical, ForAddress, Long, InetPton, AllCanonical;
      ghost var out, pre := output, prerouting;
      NoAddressIsEmpty();
      var mapped := SetPortMap(ip, maps, env);
      StillShort(out, output, ip);
      StillShort(pre, prerouting, ip);
      if NoRulesFor(out, ip) && NoRulesFor(pre, ip) {
        OthersNone(out, ip);
        OthersNone(pre, ip);
      }
      var removed := UnsetPortMap(ip, unset);
    }

    /** delete_dnat_rules_for_chain: list the chain once, then delete each listed rule of the address. */
    method DeleteDnatRules(chain: string, ip: string, listed: bool, granted: nat -> bool) returns (ok: bool)
      requires AllCanonical(Rules(chain)) && chain != "--to-destination"
      modifies this
      ensures chain == "OUTPUT" ==> prerouting == old(prerouting)
      ensures chain != "OUTPUT" ==> output == old(output)
      ensures AllCanonical(Rules(chain))
      ensures Others(Rules(chain), ip) == Others(old(Rules(chain)), ip)
      ensures forall r :: r in Rules(chain) ==> r in old(Rules(chain))
      ensures ok ==> NoLong(old(Rules(chain)), ip) && Rules(chain) == Others(old(Rules(chain)), ip)
      ensures listed && AllGranted(granted) && NoLong(old(Rules(chain)), ip) ==> ok
    {
      hide Canonical, ForAddress, Cut;
      if !listed {
        return false;
      }
      var rules := Rules(chain);
      ok := true;
      for i := 0 to |rules|
        invariant AllCanonical(Rules(chain))
        invariant forall r :: r in Rules(chain) ==> r in rules
        invariant chain == "OUTPUT" ==> prerouting == old(prerouting)
        invariant chain != "OUTPUT" ==> output == old(output)
        invariant Progress(rules, Rules(chain), i, ip, ok)
        invariant AllGranted(granted) && NoLong(rules, ip) ==> ok
      {
        ghost var before := Rules(chain);
        var tokens := LineTokens(chain, rules[i]);
        LineNamesDestination(chain, rules[i], ip);
        if NamesDestination(tokens, ip) {
          assert tokens[2..] == Cut(rules[i]);
          CutIsCanonical(rules, i);
          var deleted := Delete(chain, tokens[2..], granted(i));
          DeletingKeepsCanonical(before, Cut(rules[i]));
          forall x | deleted && x in DeleteFirst(before, Cut(rules[i])).value ensures x in before {
            DeleteFirstKeeps(before, Cut(rules[i]), x);
          }
          DeletingProgress(rules, before, i, ip, ok, deleted);
          if !deleted {
            ok := false;
          }
        } else {
          SkippingProgress(rules, before, i, ip, ok);
        }
      }
      DeletedAll(rules, Rules(chain), ip, ok);
    }
  }

  /** What iptables makes of one mapping, and of taking the first rule back. */
  datatype MapEnv = MapEnv(outputOk: bool, preroutingOk: bool, undoOk: bool)

  /** What iptables makes of removing an address: listing each chain, and each deletion. */
  datatype UnsetEnv = UnsetEnv(listOutput: bool, output: nat -> bool, listPrerouting: bool, prerouting: nat -> bool)
  {
    ghost predicate Quiet()
    {
      listOutput && listPrerouting && AllGranted(output) && AllGranted(prerouting)
    }
  }

  function MapRules(ip: string, maps: seq<PortMap>): seq<Rule>
  {
    if maps == [] then [] else MapRules(ip, maps[..|maps| - 1]) + [PreroutingSpec(ip, maps[|maps| - 1])]
  }

  lemma {:induction false} MapRulesBelong(ip: string, maps: seq<PortMap>)
    ensures forall r :: r in MapRules(ip, maps) ==> ForAddress(r, ip) && !Long(r)
  {
    hide ForAddress, PreroutingSpec, Long;
    if maps != [] {
      MapRulesBelong(ip, maps[..|maps| - 1]);
      MappingRules(ip, maps[|maps| - 1]);
      MappingIsShort(ip, maps[|maps| - 1]);
    }
  }

  /** A chain with the rules of the first mappings appended. */
  lemma {:induction false} MappedSoFar(before: seq<Rule>, ip: string, maps: seq<PortMap>, i: nat)
    requires i <= |maps|
    ensures var now := before + MapRules(ip, maps[..i]);
      Others(now, ip) == Others(before, ip) && forall r :: r in now ==> r in before || !Long(r)
    ensures i == 0 ==> before + MapRules(ip, maps[..i]) == before
    ensures i < |maps| ==> MapRules(ip, maps[..i + 1]) == MapRules(ip, maps[..i]) + [PreroutingSpec(ip, maps[i])]
    ensures i == |maps| ==> maps[..i] == maps
  {
    hide ForAddress, Long, PreroutingSpec, Others;
    MapRulesBelong(ip, maps[..i]);
    AppendedOthers(before, MapRules(ip, maps[..i]), ip);
    if i < |maps| {
      assert maps[..i + 1][..i] == maps[..i];
    }
  }

  lemma {:induction false} NoAddressIsEmpty()
    ensures InetPton([]) == None
  {
    hide InetPton, InetNtop;
    if InetPton([]).Some? {
      PtonThenNtop([]);
      NtopText(InetPton([]).value);
    }
  }

  lemma {:induction false} MappingIsShort(ip: string, p: PortMap)
    ensures !Long(PreroutingSpec(ip, p))
  {
  }

  lemma {:induction false} AppendedOthers(rules: seq<Rule>, added: seq<Rule>, ip: string)
    requires forall r :: r in added ==> ForAddress(r, ip)
    ensures Others(rules + added, ip) == Others(rules, ip)
  {
    hide ForAddress;
    OthersAppend(rules, added, ip);
    OthersAll(added, ip);
  }

  lemma {:induction false} ChainNames()
    ensures "OUTPUT" != "--to-destination" && "PREROUTING" != "--to-destination" && "PREROUTING" != "OUTPUT"
  {
    assert "OUTPUT"[0] == 'O' && "PREROUTING"[0] == 'P' && "--to-destination"[0] == '-';
  }

  predicate AllCanonical(rules: seq<Rule>)
  {
    forall i :: 0 <= i < |rules| ==> Canonical(rules[i]) == rules[i]
  }

  ghost predicate AllGranted(granted: nat -> bool)
  {
    forall i: nat :: granted(i)
  }

  predicate NoRulesFor(rules: seq<Rule>, ip: string)
  {
    forall r :: r in rules ==> !ForAddress(r, ip)
  }

  /** No rule of the address has more tokens than the code can hand back. */
  predicate NoLong(rules: seq<Rule>, ip: string)
  {
    forall i :: 0 <= i < |rules| ==> !(ForAddress(rules[i], ip) && Long(rules[i]))
  }

  function Matches(rules: seq<Rule>, ip: string): nat
  {
    if rules == [] then 0 else (if ForAddress(rules[0], ip) then 1 else 0) + Matches(rules[1..], ip)
  }

  function ShortMatches(rules: seq<Rule>, ip: string): nat
  {
    if rules == [] then 0
    else (if ForAddress(rules[0], ip) && !Long(rules[0]) then 1 else 0) + ShortMatches(rules[1..], ip)
  }

  /** The state of the deletion after i listed rules: the other addresses' rules are untouched; while all went well,
      each match has cost one short rule, and if no rule is long, exactly the matches so far are gone. */
  predicate Progress(rules: seq<Rule>, now: seq<Rule>, i: nat, ip: string, ok: bool)
  {
    i <= |rules| && Others(now, ip) == Others(rules, ip) &&
    (ok ==> ShortMatches(now, ip) + Matches(rules[..i], ip) == ShortMatches(rules, ip)) &&
    (ok && NoLong(rules, ip) ==> now == Others(rules[..i], ip) + rules[i..])
  }

  lemma {:induction false} CutIsCanonical(rules: seq<Rule>, i: nat)
    requires AllCanonical(rules) && i < |rules|
    ensures Canonical(Cut(rules[i])) == Cut(rules[i])
  {
    var r, cut := rules[i], Cut(rules[i]);
    assert Canonical(r) == r;
    if |r| >= 3 {
      assert cut[..3] == r[..3];
    }
  }

  lemma {:induction false} DeleteFirstKeeps(rules: seq<Rule>, r: Rule, x: Rule)
    requires DeleteFirst(rules, r).Some? && x in DeleteFirst(rules, r).value
    ensures x in rules
  {
    if rules[0] != r && x != rules[0] {
      DeleteFirstKeeps(rules[1..], r, x);
    }
  }

  lemma {:induction false} DeletingKeepsCanonical(rules: seq<Rule>, r: Rule)
    requires AllCanonical(rules)
    ensures r in rules ==> AllCanonical(DeleteFirst(rules, r).value)
  {
    hide Canonical;
    if r in rules {
      var rest := DeleteFirst(rules, r).value;
      forall i | 0 <= i < |rest| ensures Canonical(rest[i]) == rest[i] {
        DeleteFirstKeeps(rules, r, rest[i]);
      }
    }
  }

  lemma {:induction false} DeleteFirstCounts(rules: seq<Rule>, r: Rule, ip: string)
    requires r in rules && ForAddress(r, ip)
    ensures var rest := DeleteFirst(rules, r).value;
      Others(rest, ip) == Others(rules, ip) &&
      ShortMatches(rest, ip) == ShortMatches(rules, ip) - (if Long(r) then 0 else 1)
  {
    hide ForAddress;
    if rules[0] != r {
      DeleteFirstCounts(rules[1..], r, ip);
      var rest := DeleteFirst(rules, r).value;
      assert rest == [rules[0]] + DeleteFirst(rules[1..], r).value;
      assert rest[1..] == DeleteFirst(rules[1..], r).value;
    }
  }

  lemma {:induction false} DeleteFirstAfter(a: seq<Rule>, r: Rule, b: seq<Rule>)
    requires r !in a
    ensures DeleteFirst(a + [r] + b, r) == Some(a + b)
  {
    if a == [] {
      assert a + [r] + b == [r] + b && a + b == b && ([r] + b)[1..] == b;
    } else {
      assert (a + [r] + b)[1..] == a[1..] + [r] + b;
      assert a + b == [a[0]] + (a[1..] + b);
      DeleteFirstAfter(a[1..], r, b);
    }
  }

  lemma {:induction false} MatchesSnoc(rules: seq<Rule>, r: Rule, ip: string)
    ensures Matches(rules + [r], ip) == Matches(rules, ip) + (if ForAddress(r, ip) then 1 else 0)
  {
    hide ForAddress;
    if rules == [] {
      assert ([r])[1..] == [] && rules + [r] == [r];
    } else {
      assert (rules + [r])[1..] == rules[1..] + [r];
      MatchesSnoc(rules[1..], r, ip);
    }
  }

  lemma {:induction false} NextPrefix(rules: seq<Rule>, i: nat, ip: string)
    requires i < |rules|
    ensures Matches(rules[..i + 1], ip) == Matches(rules[..i], ip) + (if ForAddress(rules[i], ip) then 1 else 0)
    ensures Others(rules[..i + 1], ip) == Others(rules[..i], ip) + (if ForAddress(rules[i], ip) then [] else [rules[i]])
    ensures rules[i..] == [rules[i]] + rules[i + 1..]
  {
    hide ForAddress;
    assert rules[..i + 1] == rules[..i] + [rules[i]];
    MatchesSnoc(rules[..i], rules[i], ip);
    OthersAppend(rules[..i], [rules[i]], ip);
    var none: seq<Rule> := [];
    assert [rules[i]][1..] == none && Others(none, ip) == none;
  }

  lemma {:induction false} CutIsShort(r: Rule, ip: string)
    ensures !Long(Cut(r)) && (ForAddress(r, ip) ==> ForAddress(Cut(r), ip)) && (!Long(r) ==> Cut(r) == r)
  {
  }

  lemma {:induction false} DeletingProgress(rules: seq<Rule>, now: seq<Rule>, i: nat, ip: string, ok: bool, deleted: bool)
    requires Progress(rules, now, i, ip, ok) && i < |rules| && ForAddress(rules[i], ip)
    requires deleted ==> Cut(rules[i]) in now
    ensures Progress(rules, if deleted then DeleteFirst(now, Cut(rules[i])).value else now, i + 1, ip, ok && deleted)
    ensures ok && NoLong(rules, ip) ==> Cut(rules[i]) in now
  {
    hide ForAddress, Cut, Long, Matches, ShortMatches, Others, DeleteFirst;
    var r := Cut(rules[i]);
    CutIsShort(rules[i], ip);
    NextPrefix(rules, i, ip);
    if deleted {
      DeleteFirstCounts(now, r, ip);
    }
    if ok && NoLong(rules, ip) {
      OthersHas(rules[..i], ip, r);
      assert now == Others(rules[..i], ip) + [r] + rules[i + 1..];
      DeleteFirstAfter(Others(rules[..i], ip), r, rules[i + 1..]);
    }
  }

  lemma {:induction false} SkippingProgress(rules: seq<Rule>, now: seq<Rule>, i: nat, ip: string, ok: bool)
    requires Progress(rules, now, i, ip, ok) && i < |rules| && !ForAddress(rules[i], ip)
    ensures Progress(rules, now, i + 1, ip, ok)
  {
    hide ForAddress;
    NextPrefix(rules, i, ip);
    if ok && NoLong(rules, ip) {
      assert Others(rules[..i], ip) + rules[i..] == Others(rules[..i + 1], ip) + rules[i + 1..];
    }
  }

  lemma {:induction false} LongMatchesCount(rules: seq<Rule>, ip: string)
    ensures ShortMatches(rules, ip) <= Matches(rules, ip)
    ensures ShortMatches(rules, ip) == Matches(rules, ip) <==> NoLong(rules, ip)
  {
    hide ForAddress, Long;
    if rules != [] {
      LongMatchesCount(rules[1..], ip);
      assert forall i :: 0 < i < |rules| ==> rules[i] == rules[1..][i - 1];
      assert NoLong(rules, ip) <==> !(ForAddress(rules[0], ip) && Long(rules[0])) && NoLong(rules[1..], ip);
    }
  }

  /** If every deletion succeeded, no match was long, and exactly the matches are gone. */
  lemma {:induction false} DeletedAll(rules: seq<Rule>, now: seq<Rule>, ip: string, ok: bool)
    requires Progress(rules, now, |rules|, ip, ok)
    ensures ok ==> NoLong(rules, ip) && now == Others(rules, ip)
  {
    hide ForAddress, Long;
    assert rules[..|rules|] == rules;
    LongMatchesCount(rules, ip);
  }

  lemma {:induction false} StillShort(before: seq<Rule>, now: seq<Rule>, ip: string)
    requires NoLong(before, ip) && forall r :: r in now ==> r in before || !Long(r)
    ensures NoLong(now, ip)
  {
    hide ForAddress, Long;
    forall i | 0 <= i < |now| ensures !(ForAddress(now[i], ip) && Long(now[i])) {
      assert now[i] in now;
    }
  }

  /** The token is followed by the value, wherever it stands. */
  predicate Gives(r: Rule, token: string, value: string)
  {
    (exists i :: 0 <= i < |r| - 1 && r[i] == token) && forall i :: 0 <= i < |r| - 1 && r[i] == token ==> r[i + 1] == value
  }

  /** The rule matches the host port and sends it to the container port of the address. */
  predicate Forwards(r: Rule, ip: string, p: PortMap)
  {
    Gives(r, "--dport", PrintNat(p.hostPort)) && Gives(r, "--to-destination", ip + ":" + PrintNat(p.containerPort))
  }

  /** Both rules of a mapping, as given and as listed, send the host port to the container port of the address. */
  lemma {:induction false} PortsOfRules(ip: string, p: PortMap, r: Rule)
    requires r == OutputSpec(ip, p) || r == PreroutingSpec(ip, p)
    ensures Forwards(r, ip, p) && Forwards(Canonical(r), ip, p)
  {
    hide PrintNat, Canonical, OutputSpec, PreroutingSpec, Gives;
    MappingRules(ip, p);
    OptionsOf(ip, p);
    assert Destination(ip, p) == ip + ":" + PrintNat(p.containerPort);
    assert Canonical(r) == PreroutingSpec(ip, p);
  }

  lemma {:induction false} OptionsOf(ip: string, p: PortMap)
    ensures forall r :: r == OutputSpec(ip, p) || r == PreroutingSpec(ip, p) ==>
      Gives(r, "--dport", PrintNat(p.hostPort)) && Gives(r, "--to-destination", Destination(ip, p))
  {
    hide PrintNat, Destination;
    var port, d := PrintNat(p.hostPort), Destination(ip, p);
    var short, long := OutputSpec(ip, p), PreroutingSpec(ip, p);
    NotAToken(ip, p);
    assert |"--dport"| == 7 && |"--to-destination"| == 16 && |"-p"| == 2 && |"tcp"| == 3 && |"-m"| == 2 && |"-j"| == 2 &&
      |"DNAT"| == 4;
    assert short[2] == "--dport" && short[3] == port && short[6] == "--to-destination" && short[7] == d;
    assert long[4] == "--dport" && long[5] == port && long[8] == "--to-destination" && long[9] == d;
  }

  lemma {:induction false} NotAToken(ip: string, p: PortMap)
    ensures PrintNat(p.hostPort) != "--dport" && PrintNat(p.hostPort) != "--to-destination"
    ensures Destination(ip, p) != "--dport" && Destination(ip, p) != "--to-destination"
  {
    hide PrintNat;
    assert IsDigit(PrintNat(p.hostPort)[0]) && "--dport"[0] == '-' && "--to-destination"[0] == '-';
    assert Destination(ip, p)[|ip|] == ':' && ':' !in "--dport" && ':' !in "--to-destination";
  }

  /** So a list of mappings puts one such rule for each mapping into a chain, in order. */
  lemma {:induction false} PortsOfMappings(ip: string, maps: seq<PortMap>)
    ensures |MapRules(ip, maps)| == |maps|
    ensures forall i :: 0 <= i < |maps| ==> Forwards(MapRules(ip, maps)[i], ip, maps[i])
  {
    hide Forwards, PreroutingSpec, OutputSpec, Canonical;
    if maps != [] {
      var n := |maps| - 1;
      PortsOfMappings(ip, maps[..n]);
      PortsOfRules(ip, maps[n], PreroutingSpec(ip, maps[n]));
      assert forall i :: 0 <= i < n ==> maps[..n][i] == maps[i] && MapRules(ip, maps)[i] == MapRules(ip, maps[..n])[i];
    }
  }
}
