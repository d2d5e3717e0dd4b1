/** Peer signatures: addresses with equal ones are interchangeable in the whole policy walk. */
module Signatures {
  import opened Text
  import opened Addresses
  import opened Checker

  datatype PeerProbes = PeerProbes(ipSetIDs: seq<string>, ipPortSetIDs: seq<string>, ipPortSuffix: string,
                                   srcPortSetIDs: seq<string>, srcPortSuffix: string, nets: seq<Net>)

  // ----- what the rules consult -----

  /** Set names and CIDR texts referenced by rules. */
  datatype Refs = Refs(ipset: set<string>, ipport: set<string>, srcport: set<string>, nets: set<string>)

  function SetOf(s: seq<string>): set<string> { set x | x in s }

  /** collectPeerProbes' visit closure. */
  function Visit(refs: Refs, r: Rule): Refs {
    Refs(refs.ipset + SetOf(r.src.ipSets) + SetOf(r.src.notIpSets) + SetOf(r.dst.ipSets) + SetOf(r.dst.notIpSets),
         refs.ipport + SetOf(r.dstIpPortSets) + SetOf(r.dst.namedPorts) + SetOf(r.dst.notNamedPorts),
         refs.srcport + SetOf(r.src.namedPorts) + SetOf(r.src.notNamedPorts),
         refs.nets + SetOf(r.src.nets) + SetOf(r.src.notNets) + SetOf(r.dst.nets) + SetOf(r.dst.notNets))
  }

  const NO_REFS := Refs({}, {}, {}, {})

  predicate Below(a: Refs, b: Refs) {
    a.ipset <= b.ipset && a.ipport <= b.ipport && a.srcport <= b.srcport && a.nets <= b.nets
  }

  ghost predicate RefsIn(r: Rule, refs: Refs) { Below(Visit(NO_REFS, r), refs) }

  lemma RefsInBelow(r: Rule, a: Refs, b: Refs)
    requires RefsIn(r, a) && Below(a, b)
    ensures RefsIn(r, b)
  {
  }

  ghost predicate PolicyIn(p: Policy, refs: Refs) { forall r :: r in p.inbound + p.outbound ==> RefsIn(r, refs) }

  lemma PolicyInBelow(p: Policy, a: Refs, b: Refs)
    requires PolicyIn(p, a) && Below(a, b)
    ensures PolicyIn(p, b)
  {
    forall r | r in p.inbound + p.outbound { RefsInBelow(r, a, b); }
  }

  /** Every reference of the rule is among the probes. */
  ghost predicate Covers(store: Store, pp: PeerProbes, r: Rule) {
    && (forall id :: id in r.src.ipSets || id in r.src.notIpSets || id in r.dst.ipSets || id in r.dst.notIpSets ==>
          id in pp.ipSetIDs)
    && (forall id :: id in r.dstIpPortSets || id in r.dst.namedPorts || id in r.dst.notNamedPorts ==>
        id in pp.ipPortSetIDs)
    && (forall id :: id in r.src.namedPorts || id in r.src.notNamedPorts ==> id in pp.srcPortSetIDs)
    && (forall n :: n in r.src.nets || n in r.src.notNets || n in r.dst.nets || n in r.dst.notNets ==>
          (store.parseCIDR(n).Some? ==> store.parseCIDR(n).value in pp.nets))
  }

  ghost predicate RuleIn(store: Store, r: Rule) {
    || (exists id :: id in store.policies && r in store.policies[id].inbound + store.policies[id].outbound)
    || (exists n :: n in store.profiles && r in store.profiles[n].inbound + store.profiles[n].outbound)
  }

  method VisitRules(refs0: Refs, rules: seq<Rule>) returns (refs: Refs)
    ensures Below(refs0, refs) && forall r :: r in rules ==> RefsIn(r, refs)
  {
    refs := refs0;
    for i := 0 to |rules|
      invariant Below(refs0, refs) && forall k :: 0 <= k < i ==> RefsIn(rules[k], refs)
    {
      refs := Visit(refs, rules[i]);
    }
  }

  /** Visiting every policy of a map, on top of what was collected before. */
  method CollectFrom<K(==)>(refs0: Refs, policies: map<K, Policy>) returns (refs: Refs)
    ensures Below(refs0, refs)
    ensures forall k :: k in policies ==> PolicyIn(policies[k], refs)
  {
    refs := refs0;
    var keys := KeysOf(policies.Keys);
    for i := 0 to |keys|
      invariant Below(refs0, refs)
      invariant forall k :: 0 <= k < i ==> PolicyIn(policies[keys[k]], refs)
    {
      ghost var before := refs;
      refs := VisitRules(refs, policies[keys[i]].inbound + policies[keys[i]].outbound);
      forall k | 0 <= k < i { PolicyInBelow(policies[keys[k]], before, refs); }
    }
  }

  /** The loops of collectPeerProbes over the store's policies and profiles. */
  method CollectRefs(store: Store) returns (refs: Refs)
    ensures forall id :: id in store.policies ==> PolicyIn(store.policies[id], refs)
    ensures forall n :: n in store.profiles ==> PolicyIn(store.profiles[n], refs)
  {
    refs := CollectFrom(NO_REFS, store.policies);
    ghost var policyRefs := refs;
    refs := CollectFrom(refs, store.profiles);
    forall id | id in store.policies ensures PolicyIn(store.policies[id], refs) {
      PolicyInBelow(store.policies[id], policyRefs, refs);
    }
  }

  /** collectPeerProbes. */
  method CollectPeerProbes(store: Store, protocol: nat, srcPort: nat, dstPort: nat) returns (pp: PeerProbes)
    ensures forall r :: RuleIn(store, r) ==> Covers(store, pp, r)
    ensures pp.ipPortSuffix == PortSuffix(protocol, dstPort) && pp.srcPortSuffix == PortSuffix(protocol, srcPort)
  {
    var refs := CollectRefs(store);
    var ipSetIDs := SortedStrKeys(refs.ipset);
    var ipPortSetIDs := SortedStrKeys(refs.ipport);
    var srcPortSetIDs := SortedStrKeys(refs.srcport);
    var nets := ParsedNets(store, refs.nets);
    pp := PeerProbes(ipSetIDs, ipPortSetIDs, PortSuffix(protocol, dstPort),
        srcPortSetIDs, PortSuffix(protocol, srcPort), nets);
    forall r | RuleIn(store, r) ensures Covers(store, pp, r) {
      assert RefsIn(r, refs);
      RefsInCovers(store, refs, pp, r);
    }
  }

  lemma RefsInCovers(store: Store, refs: Refs, pp: PeerProbes, r: Rule)
    requires RefsIn(r, refs)
    requires forall id :: id in refs.ipset ==> id in pp.ipSetIDs
    requires forall id :: id in refs.ipport ==> id in pp.ipPortSetIDs
    requires forall id :: id in refs.srcport ==> id in pp.srcPortSetIDs
    requires forall n :: n in refs.nets && store.parseCIDR(n).Some? ==> store.parseCIDR(n).value in pp.nets
    ensures Covers(store, pp, r)
  {
    var v := Visit(NO_REFS, r);
    assert forall id :: id in v.ipset ==> id in refs.ipset;
    assert forall id :: id in v.ipport ==> id in refs.ipport;
    assert forall id :: id in v.srcport ==> id in refs.srcport;
    assert forall id :: id in v.nets ==> id in refs.nets;
  }

  method SortedStrKeys(keys: set<string>) returns (r: seq<string>)
    ensures forall k :: k in r <==> k in keys
    ensures SortedBy((s: string) => (0, s), r)
  {
    var ks := KeysOf(keys);
    r := SortBy((s: string) => (0, s), ks);
  }

  method ParsedNets(store: Store, keys: set<string>) returns (nets: seq<Net>)
    ensures forall n :: n in nets <==> exists k :: k in keys && store.parseCIDR(k) == Some(n)
  {
    var ks := SortedStrKeys(keys);
    nets := [];
    for i := 0 to |ks|
      invariant forall n :: n in nets <==> exists k :: 0 <= k < i && store.parseCIDR(ks[k]) == Some(n)
    {
      if store.parseCIDR(ks[i]).Some? {
        nets := nets + [store.parseCIDR(ks[i]).value];
      }
    }
  }

  // ----- signatures -----

  function Bit(b: bool): char { if b then '1' else '0' }

  function SetBits(store: Store, ids: seq<string>, value: string): (r: string)
    ensures |r| == |ids|
  {
    seq(|ids|, k requires 0 <= k < |ids| => Bit(Member(store, ids[k], value)))
  }

  function NetBits(nets: seq<Net>, ip: IP): (r: string)
    ensures |r| == |nets|
  {
    seq(|nets|, k requires 0 <= k < |nets| => Bit(Contains(nets[k], ip)))
  }

  /** sig: the answers to every probe, in probe order. */
  function Sig(store: Store, pp: PeerProbes, ip: IP): string {
    SetBits(store, pp.ipSetIDs, ip.text) + SetBits(store, pp.ipPortSetIDs, ip.text + pp.ipPortSuffix)
    + SetBits(store, pp.srcPortSetIDs, ip.text + pp.srcPortSuffix) + NetBits(pp.nets, ip)
  }

  method SetAnswers(store: Store, ids: seq<string>, value: string) returns (b: string)
    ensures b == SetBits(store, ids, value)
  {
    b := "";
    for i := 0 to |ids|
      invariant |b| == i && forall k :: 0 <= k < i ==> b[k] == Bit(Member(store, ids[k], value))
    {
      b := b + [Bit(Member(store, ids[i], value))];
    }
  }

  method NetAnswers(nets: seq<Net>, ip: IP) returns (b: string)
    ensures b == NetBits(nets, ip)
  {
    b := "";
    for i := 0 to |nets|
      invariant |b| == i && forall k :: 0 <= k < i ==> b[k] == Bit(Contains(nets[k], ip))
    {
      b := b + [Bit(Contains(nets[i], ip))];
    }
  }

  method ComputeSig(store: Store, pp: PeerProbes, ip: IP) returns (b: string)
    ensures b == Sig(store, pp, ip)
  {
    if |pp.ipSetIDs| + |pp.ipPortSetIDs| + |pp.srcPortSetIDs| + |pp.nets| == 0 {
      return "";
    }
    var b1 := SetAnswers(store, pp.ipSetIDs, ip.text);
    var b2 := SetAnswers(store, pp.ipPortSetIDs, ip.text + pp.ipPortSuffix);
    var b3 := SetAnswers(store, pp.srcPortSetIDs, ip.text + pp.srcPortSuffix);
    var b4 := NetAnswers(pp.nets, ip);
    b := b1 + b2 + b3 + b4;
  }

  lemma SigIsBits(store: Store, pp: PeerProbes, ip: IP)
    ensures '\0' !in Sig(store, pp, ip)
  {
  }

  /** Two addresses that answer every probe alike. */
  ghost predicate SameAnswers(store: Store, pp: PeerProbes, a: IP, b: IP) {
    && (forall id :: id in pp.ipSetIDs ==> Member(store, id, a.text) == Member(store, id, b.text))
    && (forall id :: id in pp.ipPortSetIDs ==>
          Member(store, id, a.text + pp.ipPortSuffix) == Member(store, id, b.text + pp.ipPortSuffix))
    && (forall id :: id in pp.srcPortSetIDs ==>
          Member(store, id, a.text + pp.srcPortSuffix) == Member(store, id, b.text + pp.srcPortSuffix))
    && (forall n :: n in pp.nets ==> Contains(n, a) == Contains(n, b))
  }

  lemma SetBitsEqual(store: Store, ids: seq<string>, v: string, w: string)
    ensures SetBits(store, ids, v) == SetBits(store, ids, w) <==>
            forall id :: id in ids ==> Member(store, id, v) == Member(store, id, w)
  {
    if SetBits(store, ids, v) == SetBits(store, ids, w) {
      forall id | id in ids ensures Member(store, id, v) == Member(store, id, w) {
        var k :| 0 <= k < |ids| && ids[k] == id;
        assert SetBits(store, ids, v)[k] == SetBits(store, ids, w)[k];
      }
    }
  }

  lemma NetBitsEqual(nets: seq<Net>, a: IP, b: IP)
    ensures NetBits(nets, a) == NetBits(nets, b) <==> forall n :: n in nets ==> Contains(n, a) == Contains(n, b)
  {
    if NetBits(nets, a) == NetBits(nets, b) {
      forall n | n in nets ensures Contains(n, a) == Contains(n, b) {
        var k :| 0 <= k < |nets| && nets[k] == n;
        assert NetBits(nets, a)[k] == NetBits(nets, b)[k];
      }
    }
  }

  lemma FourParts<T>(a: seq<T>, b: seq<T>, c: seq<T>, d: seq<T>, e: seq<T>, f: seq<T>, g: seq<T>, h: seq<T>)
    requires |a| == |e| && |b| == |f| && |c| == |g| && |d| == |h|
    ensures a + b + c + d == e + f + g + h <==> a == e && b == f && c == g && d == h
  {
    var s, t := a + b + c + d, e + f + g + h;
    if s == t {
      assert a == s[..|a|] && e == t[..|a|];
      assert b == s[|a|..|a| + |b|] && f == t[|a|..|a| + |b|];
      assert c == s[|a| + |b|..|a| + |b| + |c|] && g == t[|a| + |b|..|a| + |b| + |c|];
      assert d == s[|a| + |b| + |c|..] && h == t[|a| + |b| + |c|..];
    }
  }

  /** The signature is exactly the table of answers. */
  lemma SigExact(store: Store, pp: PeerProbes, a: IP, b: IP)
    ensures Sig(store, pp, a) == Sig(store, pp, b) <==> SameAnswers(store, pp, a, b)
  {
    SetBitsEqual(store, pp.ipSetIDs, a.text, b.text);
    SetBitsEqual(store, pp.ipPortSetIDs, a.text + pp.ipPortSuffix, b.text + pp.ipPortSuffix);
    SetBitsEqual(store, pp.srcPortSetIDs, a.text + pp.srcPortSuffix, b.text + pp.srcPortSuffix);
    NetBitsEqual(pp.nets, a, b);
    FourParts(SetBits(store, pp.ipSetIDs, a.text), SetBits(store, pp.ipPortSetIDs, a.text + pp.ipPortSuffix),
              SetBits(store, pp.srcPortSetIDs, a.text + pp.srcPortSuffix), NetBits(pp.nets, a),
              SetBits(store, pp.ipSetIDs, b.text), SetBits(store, pp.ipPortSetIDs, b.text + pp.ipPortSuffix),
              SetBits(store, pp.srcPortSetIDs, b.text + pp.srcPortSuffix), NetBits(pp.nets, b));
  }

  // ----- congruence -----

  /** Flows of one probe whose addresses answer alike. */
  ghost predicate AlikeFlows(store: Store, pp: PeerProbes, f: Flow, g: Flow) {
    && g == f.(srcIP := g.srcIP, dstIP := g.dstIP)
    && pp.ipPortSuffix == PortSuffix(f.protocol, f.dstPort) && pp.srcPortSuffix == PortSuffix(f.protocol, f.srcPort)
    && SameAnswers(store, pp, f.srcIP, g.srcIP) && SameAnswers(store, pp, f.dstIP, g.dstIP)
  }

  lemma NetAlike(store: Store, pp: PeerProbes, n: string, a: IP, b: IP)
    requires SameAnswers(store, pp, a, b) && (store.parseCIDR(n).Some? ==> store.parseCIDR(n).value in pp.nets)
    ensures InNet(store, n, a) == InNet(store, n, b)
  {
  }

  lemma SrcAlike(store: Store, pp: PeerProbes, r: Rule, f: Flow, g: Flow)
    requires Covers(store, pp, r) && AlikeFlows(store, pp, f, g)
    ensures SideMatches(store, r.src, f.srcIP, f.srcPort, f.protocol) ==
            SideMatches(store, r.src, g.srcIP, g.srcPort, g.protocol)
  {
    forall n | n in r.src.nets || n in r.src.notNets { NetAlike(store, pp, n, f.srcIP, g.srcIP); }
  }

  lemma DstAlike(store: Store, pp: PeerProbes, r: Rule, f: Flow, g: Flow)
    requires Covers(store, pp, r) && AlikeFlows(store, pp, f, g)
    ensures SideMatches(store, r.dst, f.dstIP, f.dstPort, f.protocol) ==
            SideMatches(store, r.dst, g.dstIP, g.dstPort, g.protocol)
  {
    forall n | n in r.dst.nets || n in r.dst.notNets { NetAlike(store, pp, n, f.dstIP, g.dstIP); }
  }

  /** A covered rule cannot tell alike flows apart. */
  lemma RuleAlike(store: Store, pp: PeerProbes, r: Rule, f: Flow, g: Flow)
    requires Covers(store, pp, r) && AlikeFlows(store, pp, f, g)
    ensures RuleMatches(store, r, f) == RuleMatches(store, r, g)
  {
    SrcAlike(store, pp, r, f, g);
    DstAlike(store, pp, r, f, g);
  }

  ghost predicate CoversAll(store: Store, pp: PeerProbes, rules: seq<Rule>) {
    forall r :: r in rules ==> Covers(store, pp, r)
  }

  lemma {:induction false} RulesAlike(store: Store, pp: PeerProbes, rules: seq<Rule>, f: Flow, g: Flow)
    requires CoversAll(store, pp, rules) && AlikeFlows(store, pp, f, g)
    ensures CheckRules(store, rules, f) == CheckRules(store, rules, g)
  {
    if rules != [] {
      RuleAlike(store, pp, rules[0], f, g);
      RulesAlike(store, pp, rules[1..], f, g);
    }
  }

  ghost predicate CoversPolicies(store: Store, pp: PeerProbes, ids: seq<PolicyID>, dir: Dir) {
    forall id :: id in ids && id in store.policies ==> CoversAll(store, pp, RulesFor(store.policies[id], dir))
  }

  ghost predicate CoversProfiles(store: Store, pp: PeerProbes, names: seq<string>, dir: Dir) {
    forall n :: n in names && n in store.profiles ==> CoversAll(store, pp, RulesFor(store.profiles[n], dir))
  }

  ghost predicate CoversTiers(store: Store, pp: PeerProbes, tiers: seq<Tier>, dir: Dir) {
    forall t :: t in tiers ==> CoversPolicies(store, pp, PoliciesFor(t, dir), dir)
  }

  lemma {:induction false} PoliciesAlike(store: Store, pp: PeerProbes, scope: Scope, ids: seq<PolicyID>, dir: Dir,
      f: Flow, g: Flow)
    requires CoversPolicies(store, pp, ids, dir) && AlikeFlows(store, pp, f, g)
    ensures CheckPolicies(store, scope, ids, dir, f) == CheckPolicies(store, scope, ids, dir, g)
  {
    if ids != [] {
      if Applies(store, scope, ids[0]) {
        RulesAlike(store, pp, RulesFor(store.policies[ids[0]], dir), f, g);
      }
      PoliciesAlike(store, pp, scope, ids[1..], dir, f, g);
    }
  }

  lemma {:induction false} ProfilesAlike(store: Store, pp: PeerProbes, names: seq<string>, dir: Dir, f: Flow, g: Flow)
    requires CoversProfiles(store, pp, names, dir) && AlikeFlows(store, pp, f, g)
    ensures CheckProfiles(store, names, dir, f) == CheckProfiles(store, names, dir, g)
  {
    if names != [] {
      if names[0] in store.profiles {
        RulesAlike(store, pp, RulesFor(store.profiles[names[0]], dir), f, g);
      }
      ProfilesAlike(store, pp, names[1..], dir, f, g);
    }
  }

  /** Probes that cover the rules an owner can reach make the whole trace a function of the answers. */
  lemma {:induction false} TraceAlike(store: Store, pp: PeerProbes, scope: Scope, dir: Dir, tiers: seq<Tier>,
                                      names: seq<string>, f: Flow, g: Flow)
    requires CoversTiers(store, pp, tiers, dir) && CoversProfiles(store, pp, names, dir) && AlikeFlows(store, pp, f, g)
    ensures Trace(store, scope, dir, tiers, names, f) == Trace(store, scope, dir, tiers, names, g)
  {
    if tiers == [] {
      ProfilesAlike(store, pp, names, dir, f, g);
    } else {
      PoliciesAlike(store, pp, scope, PoliciesFor(tiers[0], dir), dir, f, g);
      TraceAlike(store, pp, scope, dir, tiers[1..], names, f, g);
    }
  }

  /** Swapping addresses with equal store-wide signatures, on either side or both, changes no verdict of
      any owner. */
  lemma EqualSigsInterchange(store: Store, pp: PeerProbes, scope: Scope, dir: Dir, wep: WEP, f: Flow, srcIP: IP,
      dstIP: IP)
    requires forall r :: RuleIn(store, r) ==> Covers(store, pp, r)
    requires pp.ipPortSuffix == PortSuffix(f.protocol, f.dstPort)
    requires pp.srcPortSuffix == PortSuffix(f.protocol, f.srcPort)
    requires Sig(store, pp, f.srcIP) == Sig(store, pp, srcIP) && Sig(store, pp, f.dstIP) == Sig(store, pp, dstIP)
    ensures Allowed(store, scope, dir, wep, f) == Allowed(store, scope, dir, wep, f.(srcIP := srcIP, dstIP := dstIP))
  {
    SigExact(store, pp, f.srcIP, srcIP);
    SigExact(store, pp, f.dstIP, dstIP);
    forall id, r | id in store.policies && r in RulesFor(store.policies[id], dir) ensures Covers(store, pp, r) {
      assert r in store.policies[id].inbound + store.policies[id].outbound;
    }
    forall n, r | n in store.profiles && r in RulesFor(store.profiles[n], dir) ensures Covers(store, pp, r) {
      assert r in store.profiles[n].inbound + store.profiles[n].outbound;
    }
    TraceAlike(store, pp, scope, dir, wep.tiers, wep.profileIds, f, f.(srcIP := srcIP, dstIP := dstIP));
  }
}
