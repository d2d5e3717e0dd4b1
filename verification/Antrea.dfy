/** The Antrea policy evaluator: its direct two-sided semantics and the per-probe policy index. */
module Antrea {
  import opened Text
  import opened Addr = Addresses
  import opened Logs
  import opened EndpointPairs

  datatype NamedPort = NamedPort(name: string, port: int, protocol: string)

  datatype Endpoint = Endpoint(id: string, ns: string, name: string, ip: string, ports: seq<NamedPort>)

  datatype IPBlock = IPBlock(cidr: Option<Net>, excepted: seq<Net>)

  /** A port range, a named port, or (port -1, no name) every port of the protocol. */
  datatype PortSpec = PortSpec(proto: string, port: int, endPort: int, named: string)

  datatype Rule = Rule(matchAllPeers: bool, peerPods: map<string, bool>, ipBlocks: seq<IPBlock>, ports: seq<PortSpec>)

  datatype Policy = Policy(ingressIsolate: bool, egressIsolate: bool, appliedTo: map<string, bool>,
                           ingress: seq<Rule>, egress: seq<Rule>)

  datatype Direction = Ingress | Egress

  /** What is asked about: a protocol and port; net.ParseIP, None for text it rejects. */
  datatype Probe = Probe(proto: string, port: int, parseIP: string -> Option<IP>)

  // ----- matching -----

  function EndpointNamespace(ep: Endpoint): string {
    if ep.ns != "" then ep.ns
    else if IndexOf(ep.id, '/') < |ep.id| then ep.id[..IndexOf(ep.id, '/')] else ""
  }

  function EndpointName(ep: Endpoint): string {
    if ep.name != "" then ep.name
    else if IndexOf(ep.id, '/') < |ep.id| then ep.id[IndexOf(ep.id, '/') + 1..] else ep.id
  }

  function PodKey(ep: Endpoint): string { EndpointNamespace(ep) + "/" + EndpointName(ep) }

  function ProtocolOf(p: NamedPort): string { if p.protocol == "" then "tcp" else p.protocol }

  /** resolveNamed: the first declared port of that name and protocol, or -1. */
  function ResolveNamed(ports: seq<NamedPort>, name: string, proto: string): int {
    if ports == [] then -1
    else if ports[0].name == name && ToLower(ProtocolOf(ports[0])) == ToLower(proto) then ports[0].port
    else ResolveNamed(ports[1..], name, proto)
  }

  predicate SpecMatches(ps: PortSpec, probe: Probe, owner: Endpoint) {
    && ps.proto == ToLower(probe.proto)
    && (if ps.named != "" then ResolveNamed(owner.ports, ps.named, probe.proto) == probe.port
        else ps.port == -1 || ps.port <= probe.port <= ps.endPort)
  }

  predicate PortMatches(r: Rule, probe: Probe, owner: Endpoint) {
    r.ports == [] || exists ps :: ps in r.ports && SpecMatches(ps, probe, owner)
  }

  predicate BlockContains(b: IPBlock, ip: Option<IP>) {
    ip.Some? && b.cidr.Some? && Contains(b.cidr.value, ip.value) && !AnyContains(b.excepted, ip.value)
  }

  predicate Listed(pods: map<string, bool>, key: string) { key in pods && pods[key] }

  predicate PeerMatches(r: Rule, probe: Probe, peer: Endpoint) {
    || r.matchAllPeers
    || Listed(r.peerPods, PodKey(peer))
    || (peer.ip != "" && exists b :: b in r.ipBlocks && BlockContains(b, probe.parseIP(peer.ip)))
  }

  predicate RuleMatches(r: Rule, probe: Probe, peer: Endpoint, owner: Endpoint) {
    PeerMatches(r, probe, peer) && PortMatches(r, probe, owner)
  }

  // ----- the direct semantics -----

  predicate Isolates(p: Policy, dir: Direction) { if dir.Ingress? then p.ingressIsolate else p.egressIsolate }

  function RulesOf(p: Policy, dir: Direction): seq<Rule> { if dir.Ingress? then p.ingress else p.egress }

  predicate Governs(p: Policy, dir: Direction, key: string) { Isolates(p, dir) && Listed(p.appliedTo, key) }

  predicate Admits(p: Policy, dir: Direction, probe: Probe, peer: Endpoint, owner: Endpoint) {
    exists r :: r in RulesOf(p, dir) && RuleMatches(r, probe, peer, owner)
  }

  /** Kubernetes semantics of one side of a flow: not isolated, or admitted by some governing policy. */
  ghost predicate SideAllows(ps: seq<Policy>, dir: Direction, key: string, probe: Probe, peer: Endpoint,
      owner: Endpoint)
  {
    || (forall p :: p in ps ==> !Governs(p, dir, key))
    || (exists p :: p in ps && Governs(p, dir, key) && Admits(p, dir, probe, peer, owner))
  }

  /** A flow must clear the destination's ingress and the source's egress. */
  ghost predicate FlowAllowed(ps: seq<Policy>, probe: Probe, src: Endpoint, dst: Endpoint) {
    && SideAllows(ps, Ingress, PodKey(dst), probe, src, dst)
    && SideAllows(ps, Egress, PodKey(src), probe, dst, dst)
  }

  method AnyRuleMatches(rules: seq<Rule>, probe: Probe, peer: Endpoint, owner: Endpoint, matched0: bool)
    returns (matched: bool)
    ensures matched <==> matched0 || exists r :: r in rules && RuleMatches(r, probe, peer, owner)
  {
    matched := matched0;
    for i := 0 to |rules|
      invariant matched <==> matched0 || exists r :: r in rules[..i] && RuleMatches(r, probe, peer, owner)
    {
      assert rules[..i + 1] == rules[..i] + [rules[i]];
      if RuleMatches(rules[i], probe, peer, owner) {
        matched := true;
      }
    }
    assert rules[..|rules|] == rules;
  }

  /** ingressAllows and egressAllows, which differ in the direction alone. */
  method DirectionAllows(ps: seq<Policy>, dir: Direction, key: string, probe: Probe, peer: Endpoint, owner: Endpoint)
    returns (allowed: bool)
    ensures allowed <==> SideAllows(ps, dir, key, probe, peer, owner)
  {
    var isolated, matched := false, false;
    for i := 0 to |ps|
      invariant isolated <==> exists p :: p in ps[..i] && Governs(p, dir, key)
      invariant matched <==> exists p :: p in ps[..i] && Governs(p, dir, key) && Admits(p, dir, probe, peer, owner)
    {
      assert ps[..i + 1] == ps[..i] + [ps[i]];
      assert Governs(ps[i], dir, key) <==> Isolates(ps[i], dir) && Listed(ps[i].appliedTo, key);
      if !Isolates(ps[i], dir) || !Listed(ps[i].appliedTo, key) {
        continue;
      }
      isolated := true;
      matched := AnyRuleMatches(RulesOf(ps[i], dir), probe, peer, owner, matched);
    }
    assert ps[..|ps|] == ps;
    allowed := !isolated || matched;
  }

  method IngressAllows(ps: seq<Policy>, dst: Endpoint, src: Endpoint, probe: Probe) returns (allowed: bool)
    ensures allowed <==> SideAllows(ps, Ingress, PodKey(dst), probe, src, dst)
  {
    allowed := DirectionAllows(ps, Ingress, PodKey(dst), probe, src, dst);
  }

  method EgressAllows(ps: seq<Policy>, src: Endpoint, dst: Endpoint, probe: Probe) returns (allowed: bool)
    ensures allowed <==> SideAllows(ps, Egress, PodKey(src), probe, dst, dst)
  {
    allowed := DirectionAllows(ps, Egress, PodKey(src), probe, dst, dst);
  }

  // ----- the index -----

  datatype DirectionRules = DirectionRules(isolated: bool, rules: seq<Rule>)

  datatype EndpointPolicies = EndpointPolicies(ingress: DirectionRules, egress: DirectionRules)

  const UNSELECTED := EndpointPolicies(DirectionRules(false, []), DirectionRules(false, []))

  predicate Allows(d: DirectionRules, probe: Probe, peer: Endpoint, owner: Endpoint) {
    !d.isolated || exists r :: r in d.rules && RuleMatches(r, probe, peer, owner)
  }

  function Side(ep: EndpointPolicies, dir: Direction): DirectionRules { if dir.Ingress? then ep.ingress else ep.egress }

  /** What one policy adds to the rules of a pod it selects. */
  function Extend(d: DirectionRules, p: Policy, dir: Direction): DirectionRules {
    if Isolates(p, dir) then DirectionRules(true, d.rules + RulesOf(p, dir)) else d
  }

  function Collected(ps: seq<Policy>, key: string, dir: Direction): DirectionRules {
    if ps == [] then DirectionRules(false, [])
    else
      var p, before := ps[|ps| - 1], Collected(ps[..|ps| - 1], key, dir);
      if Listed(p.appliedTo, key) then Extend(before, p, dir) else before
  }

  lemma {:induction false} CollectedMeaning(ps: seq<Policy>, key: string, dir: Direction, probe: Probe,
      peer: Endpoint, owner: Endpoint)
    ensures Collected(ps, key, dir).isolated <==> exists p :: p in ps && Governs(p, dir, key)
    ensures (exists r :: r in Collected(ps, key, dir).rules && RuleMatches(r, probe, peer, owner))
            <==> exists p :: p in ps && Governs(p, dir, key) && Admits(p, dir, probe, peer, owner)
  {
    if ps != [] {
      var n := |ps| - 1;
      CollectedMeaning(ps[..n], key, dir, probe, peer, owner);
      assert forall p :: p in ps <==> p in ps[..n] || p == ps[n];
      assert Governs(ps[n], dir, key) <==> Isolates(ps[n], dir) && Listed(ps[n].appliedTo, key);
      if Governs(ps[n], dir, key) {
        var before, added := Collected(ps[..n], key, dir).rules, RulesOf(ps[n], dir);
        assert forall r :: r in before + added <==> r in before || r in added;
      }
    }
  }

  /** Indexed rules, not yet specialised, mean the same as the direct scan of every policy. */
  lemma CollectedIsDirect(ps: seq<Policy>, key: string, dir: Direction, probe: Probe, peer: Endpoint, owner: Endpoint)
    ensures Allows(Collected(ps, key, dir), probe, peer, owner) <==> SideAllows(ps, dir, key, probe, peer, owner)
  {
    CollectedMeaning(ps, key, dir, probe, peer, owner);
  }

  function Get(byPod: map<string, EndpointPolicies>, key: string): EndpointPolicies {
    if key in byPod then byPod[key] else UNSELECTED
  }

  /** The index holds exactly what was collected for every key. */
  ghost predicate Indexes(byPod: map<string, EndpointPolicies>, ps: seq<Policy>) {
    forall key: string :: Get(byPod, key) == EndpointPolicies(Collected(ps, key, Ingress), Collected(ps, key, Egress))
  }

  ghost predicate Extended(byPod: map<string, EndpointPolicies>, before: map<string, EndpointPolicies>, p: Policy,
      done: set<string>)
  {
    forall key: string :: Get(byPod, key) ==
        if key in done && Listed(p.appliedTo, key) then With(Get(before, key), p) else Get(before, key)
  }

  function With(ep: EndpointPolicies, p: Policy): EndpointPolicies {
    EndpointPolicies(Extend(ep.ingress, p, Ingress), Extend(ep.egress, p, Egress))
  }

  /** One policy, over the pods of its map in whatever order ranging yields them. */
  method IndexPolicy(byPod0: map<string, EndpointPolicies>, p: Policy) returns (byPod: map<string, EndpointPolicies>)
    ensures Extended(byPod, byPod0, p, p.appliedTo.Keys)
  {
    byPod := byPod0;
    var keys := KeysOf(p.appliedTo.Keys);
    ghost var done: set<string> := {};
    for i := 0 to |keys|
      invariant Extended(byPod, byPod0, p, done)
      invariant forall k :: k in done <==> k in keys[..i]
    {
      var key := keys[i];
      assert keys[..i + 1] == keys[..i] + [key] && key !in keys[..i];
      done := done + {key};
      if !p.appliedTo[key] {
        continue;
      }
      var ep := Get(byPod, key);
      if p.ingressIsolate {
        ep := ep.(ingress := DirectionRules(true, ep.ingress.rules + p.ingress));
      }
      if p.egressIsolate {
        ep := ep.(egress := DirectionRules(true, ep.egress.rules + p.egress));
      }
      byPod := byPod[key := ep];
    }
    assert keys[..|keys|] == keys;
    assert done == p.appliedTo.Keys;
  }

  lemma IndexStep(byPod: map<string, EndpointPolicies>, before: map<string, EndpointPolicies>, ps: seq<Policy>, i: nat)
    requires i < |ps| && Indexes(before, ps[..i]) && Extended(byPod, before, ps[i], ps[i].appliedTo.Keys)
    ensures Indexes(byPod, ps[..i + 1])
  {
    assert ps[..i + 1][..i] == ps[..i];
    forall key: string
      ensures Get(byPod, key) ==
              EndpointPolicies(Collected(ps[..i + 1], key, Ingress), Collected(ps[..i + 1], key, Egress))
    {
      assert Get(before, key) == EndpointPolicies(Collected(ps[..i], key, Ingress), Collected(ps[..i], key, Egress));
    }
  }

  method BuildIndex(ps: seq<Policy>) returns (byPod: map<string, EndpointPolicies>)
    ensures Indexes(byPod, ps)
  {
    byPod := map[];
    for i := 0 to |ps|
      invariant Indexes(byPod, ps[..i])
    {
      ghost var before := byPod;
      byPod := IndexPolicy(byPod, ps[i]);
      IndexStep(byPod, before, ps, i);
    }
    assert ps[..|ps|] == ps;
  }

  // ----- specialising the rules to a probe -----

  predicate HasNamed(r: Rule) { exists ps :: ps in r.ports && ps.named != "" }

  const NOBODY := Endpoint("", "", "", "", [])

  /** Whose port a probe may be aimed at: the fixed owner of an ingress list, anybody's for egress. */
  ghost predicate MayOwn(owner: Option<Endpoint>, e: Endpoint) { owner.None? || owner.value == e }

  predicate AnyMatch(rules: seq<Rule>, probe: Probe, peer: Endpoint, owner: Endpoint) {
    exists r :: r in rules && RuleMatches(r, probe, peer, owner)
  }

  ghost predicate SameMatches(a: seq<Rule>, b: seq<Rule>, probe: Probe, owner: Option<Endpoint>) {
    forall peer, e :: MayOwn(owner, e) ==> (AnyMatch(a, probe, peer, e) <==> AnyMatch(b, probe, peer, e))
  }

  lemma AnyMatchAppend(rules: seq<Rule>, r: Rule, probe: Probe, peer: Endpoint, e: Endpoint)
    ensures AnyMatch(rules + [r], probe, peer, e) <==> AnyMatch(rules, probe, peer, e) || RuleMatches(r, probe, peer, e)
  {
    assert forall x :: x in rules + [r] <==> x in rules || x == r;
  }

  /** Without named ports the owner of the port does not matter. */
  lemma UnnamedIgnoresOwner(r: Rule, probe: Probe, e: Endpoint, f: Endpoint)
    requires !HasNamed(r)
    ensures PortMatches(r, probe, e) == PortMatches(r, probe, f)
  {
    forall ps | ps in r.ports ensures SpecMatches(ps, probe, e) == SpecMatches(ps, probe, f) {
      assert ps.named == "";
    }
  }

  /** What forProbe does with one rule: None drops it. */
  function Specialised(r: Rule, probe: Probe, owner: Option<Endpoint>): Option<Rule> {
    if owner.None? && HasNamed(r) then Some(r)
    else if !PortMatches(r, probe, if owner.Some? then owner.value else NOBODY) then None
    else Some(r.(ports := []))
  }

  lemma SpecialisedMatches(r: Rule, probe: Probe, owner: Option<Endpoint>, peer: Endpoint, e: Endpoint)
    requires MayOwn(owner, e)
    ensures RuleMatches(r, probe, peer, e) <==>
            Specialised(r, probe, owner).Some? && RuleMatches(Specialised(r, probe, owner).value, probe, peer, e)
  {
    if owner.None? && !HasNamed(r) {
      UnnamedIgnoresOwner(r, probe, e, NOBODY);
    }
  }

  /** Dropping or specialising the next rule keeps the meaning of the list. */
  lemma SpecialiseNext(kept: seq<Rule>, rules: seq<Rule>, i: nat, probe: Probe, owner: Option<Endpoint>)
    requires i < |rules| && SameMatches(kept, rules[..i], probe, owner)
    ensures var s := Specialised(rules[i], probe, owner);
            SameMatches(if s.Some? then kept + [s.value] else kept, rules[..i + 1], probe, owner)
  {
    var s := Specialised(rules[i], probe, owner);
    var after := if s.Some? then kept + [s.value] else kept;
    assert rules[..i + 1] == rules[..i] + [rules[i]];
    forall peer, e | MayOwn(owner, e)
      ensures AnyMatch(after, probe, peer, e) <==> AnyMatch(rules[..i + 1], probe, peer, e)
    {
      AnyMatchAppend(rules[..i], rules[i], probe, peer, e);
      SpecialisedMatches(rules[i], probe, owner, peer, e);
      if s.Some? { AnyMatchAppend(kept, s.value, probe, peer, e); }
      assert AnyMatch(kept, probe, peer, e) <==> AnyMatch(rules[..i], probe, peer, e);
    }
  }

  /** Specialised rules answer every question about this probe as the original rules do. */
  ghost predicate SameAnswers(a: DirectionRules, b: DirectionRules, probe: Probe, owner: Option<Endpoint>) {
    forall peer, e :: MayOwn(owner, e) ==> (Allows(a, probe, peer, e) <==> Allows(b, probe, peer, e))
  }

  lemma AllowAllAnswers(d: DirectionRules, i: nat, probe: Probe, owner: Option<Endpoint>)
    requires i < |d.rules| && d.rules[i].matchAllPeers
    requires Specialised(d.rules[i], probe, owner).Some? && !(owner.None? && HasNamed(d.rules[i]))
    ensures SameAnswers(DirectionRules(false, []), d, probe, owner)
  {
    forall peer: Endpoint, e | MayOwn(owner, e) ensures Allows(d, probe, peer, e) {
      SpecialisedMatches(d.rules[i], probe, owner, peer, e);
    }
  }

  /** forProbe. The isolation of a direction goes only when a rule allows every peer. */
  method ForProbe(d: DirectionRules, probe: Probe, owner: Option<Endpoint>) returns (filtered: DirectionRules)
    ensures SameAnswers(filtered, d, probe, owner)
    ensures filtered.isolated == d.isolated || exists r :: r in d.rules && r.matchAllPeers
  {
    filtered := DirectionRules(d.isolated, []);
    for i := 0 to |d.rules|
      invariant filtered.isolated == d.isolated
      invariant SameMatches(filtered.rules, d.rules[..i], probe, owner)
    {
      SpecialiseNext(filtered.rules, d.rules, i, probe, owner);
      var rule := d.rules[i];
      var dynamic := false;
      if owner.None? {
        dynamic := HasNamed(rule);
      }
      if !dynamic {
        var endpoint := NOBODY;
        if owner.Some? {
          endpoint := owner.value;
        }
        if !PortMatches(rule, probe, endpoint) {
          continue;
        }
        if rule.matchAllPeers {
          AllowAllAnswers(d, i, probe, owner);
          return DirectionRules(false, []);
        }
        rule := rule.(ports := []);
      }
      filtered := filtered.(rules := filtered.rules + [rule]);
    }
    assert d.rules[..|d.rules|] == d.rules;
    forall peer, e | MayOwn(owner, e) ensures Allows(filtered, probe, peer, e) <==> Allows(d, probe, peer, e) {
      assert AnyMatch(filtered.rules, probe, peer, e) <==> AnyMatch(d.rules, probe, peer, e);
    }
  }

  /** The index of one endpoint answers as the direct semantics do, for every peer and port owner. */
  ghost predicate Answers(ep: EndpointPolicies, ps: seq<Policy>, probe: Probe, self: Endpoint) {
    && (forall peer: Endpoint :: Allows(ep.ingress, probe, peer, self)
                                 <==> SideAllows(ps, Ingress, PodKey(self), probe, peer, self))
    && (forall peer: Endpoint, owner: Endpoint :: Allows(ep.egress, probe, peer, owner)
                                                  <==> SideAllows(ps, Egress, PodKey(self), probe, peer, owner))
  }

  lemma SpecialisedAnswers(ep: EndpointPolicies, ps: seq<Policy>, probe: Probe, self: Endpoint)
    requires SameAnswers(ep.ingress, Collected(ps, PodKey(self), Ingress), probe, Some(self))
    requires SameAnswers(ep.egress, Collected(ps, PodKey(self), Egress), probe, None)
    ensures Answers(ep, ps, probe, self)
  {
    var key := PodKey(self);
    forall peer: Endpoint
      ensures Allows(ep.ingress, probe, peer, self) <==> SideAllows(ps, Ingress, key, probe, peer, self)
    {
      assert MayOwn(Some(self), self);
      CollectedIsDirect(ps, key, Ingress, probe, peer, self);
    }
    forall peer: Endpoint, owner: Endpoint
      ensures Allows(ep.egress, probe, peer, owner) <==> SideAllows(ps, Egress, key, probe, peer, owner)
    {
      assert MayOwn(None, owner);
      CollectedIsDirect(ps, key, Egress, probe, peer, owner);
    }
  }

  method IndexEndpointPolicies(ps: seq<Policy>, endpoints: seq<Endpoint>, probe: Probe)
    returns (out: seq<EndpointPolicies>)
    ensures |out| == |endpoints|
    ensures forall i :: 0 <= i < |out| ==> Answers(out[i], ps, probe, endpoints[i])
  {
    var byPod := BuildIndex(ps);
    out := [];
    for i := 0 to |endpoints|
      invariant |out| == i && forall k :: 0 <= k < i ==> Answers(out[k], ps, probe, endpoints[k])
    {
      var self := endpoints[i];
      var policies := Get(byPod, PodKey(self));
      var ingress := ForProbe(policies.ingress, probe, Some(self));
      var egress := ForProbe(policies.egress, probe, None);
      SpecialisedAnswers(EndpointPolicies(ingress, egress), ps, probe, self);
      out := out + [EndpointPolicies(ingress, egress)];
    }
  }

  // ----- the matrix -----

  function Ids(endpoints: seq<Endpoint>): (ids: seq<string>)
    ensures |ids| == |endpoints|
  {
    seq(|endpoints|, k requires 0 <= k < |endpoints| => endpoints[k].id)
  }

  /** The puts of an evaluation over a list of index pairs, by the direct semantics. */
  ghost function FlowLog(ps: seq<Policy>, endpoints: seq<Endpoint>, probe: Probe, pairs: seq<IndexPair>): seq<Entry>
    requires InRange(|endpoints|, pairs)
  {
    if pairs == [] then []
    else
      var n := |pairs| - 1;
      var src, dst := endpoints[pairs[n].0], endpoints[pairs[n].1];
      FlowLog(ps, endpoints, probe, pairs[..n]) + [Entry(src.id, dst.id, VerdictText(FlowAllowed(ps, probe, src, dst)))]
  }

  const ALL_RESIDENT := Mode(false, None)

  function ProbeOf(protocol: string, port: int, parseIP: string -> Option<IP>): Probe {
    Probe(if protocol == "" then "tcp" else protocol, if port == 0 then 8080 else port, parseIP)
  }

  method Verdict(ps: seq<Policy>, endpoints: seq<Endpoint>, probe: Probe, applicable: seq<EndpointPolicies>,
                 optimize: bool, i: nat, j: nat) returns (allow: bool)
    requires i < |endpoints| && j < |endpoints|
    requires optimize ==> |applicable| == |endpoints|
    requires optimize ==> forall k :: 0 <= k < |endpoints| ==> Answers(applicable[k], ps, probe, endpoints[k])
    ensures allow <==> FlowAllowed(ps, probe, endpoints[i], endpoints[j])
  {
    var src, dst := endpoints[i], endpoints[j];
    if optimize {
      assert Answers(applicable[i], ps, probe, src) && Answers(applicable[j], ps, probe, dst);
      allow := Allows(applicable[j].ingress, probe, src, dst) && Allows(applicable[i].egress, probe, dst, dst);
    } else {
      allow := IngressAllows(ps, dst, src, probe);
      if allow {
        allow := EgressAllows(ps, src, dst, probe);
      }
    }
  }

  /** evaluateWithDefaults: indexed or direct, the matrix is that of the direct semantics. */
  method EvaluateWithDefaults(ps: seq<Policy>, endpoints: seq<Endpoint>, pairs: seq<MatrixPair>, protocol: string,
                              port: int, parseIP: string -> Option<IP>, optimize: bool)
    returns (matrix: map<string, string>)
    ensures InRange(|endpoints|, AllPairs(Ids(endpoints), pairs))
    ensures matrix == Resident(FlowLog(ps, endpoints, ProbeOf(protocol, port, parseIP),
            AllPairs(Ids(endpoints), pairs)), ALL_RESIDENT)
  {
    var probe := ProbeOf(protocol, port, parseIP);
    var applicable := [];
    if optimize {
      applicable := IndexEndpointPolicies(ps, endpoints, probe);
    }
    var visited, stopped := EndpointPairs.EndpointPairs(Ids(endpoints), pairs, _ => true);
    AllPairsInRange(Ids(endpoints), pairs);
    matrix := map[];
    for k := 0 to |visited|
      invariant InRange(|endpoints|, visited[..k])
      invariant matrix == Resident(FlowLog(ps, endpoints, probe, visited[..k]), ALL_RESIDENT)
    {
      var i, j := visited[k].0, visited[k].1;
      var allow := Verdict(ps, endpoints, probe, applicable, optimize, i, j);
      matrix := matrix[FlowKey(endpoints[i].id, endpoints[j].id) := VerdictText(allow)];
      FlowLogStep(ps, endpoints, probe, visited, k);
    }
    assert visited[..|visited|] == visited;
  }

  lemma FlowLogStep(ps: seq<Policy>, endpoints: seq<Endpoint>, probe: Probe, pairs: seq<IndexPair>, k: nat)
    requires k < |pairs| && InRange(|endpoints|, pairs)
    ensures InRange(|endpoints|, pairs[..k]) && InRange(|endpoints|, pairs[..k + 1])
    ensures var src, dst := endpoints[pairs[k].0], endpoints[pairs[k].1];
            Resident(FlowLog(ps, endpoints, probe, pairs[..k + 1]), ALL_RESIDENT)
            == Resident(FlowLog(ps, endpoints, probe, pairs[..k]), ALL_RESIDENT)
               [FlowKey(src.id, dst.id) := VerdictText(FlowAllowed(ps, probe, src, dst))]
  {
    assert pairs[..k + 1][..k] == pairs[..k];
    var before := FlowLog(ps, endpoints, probe, pairs[..k]);
    var log := FlowLog(ps, endpoints, probe, pairs[..k + 1]);
    assert log[..|log| - 1] == before;
  }

  // ----- what the matrix says -----

  lemma {:induction false} FlowLogLast(ps: seq<Policy>, endpoints: seq<Endpoint>, probe: Probe,
      pairs: seq<IndexPair>, s: string, d: string)
    requires InRange(|endpoints|, pairs)
    ensures var p := LastPair(Ids(endpoints), pairs, s, d);
            Last(FlowLog(ps, endpoints, probe, pairs), s, d) ==
            if p.Some? && p.value.0 < |endpoints| && p.value.1 < |endpoints|
            then Some(VerdictText(FlowAllowed(ps, probe, endpoints[p.value.0], endpoints[p.value.1]))) else None
  {
    if pairs != [] {
      var n := |pairs| - 1;
      FlowLogLast(ps, endpoints, probe, pairs[..n], s, d);
      var log := FlowLog(ps, endpoints, probe, pairs);
      assert log[..|log| - 1] == FlowLog(ps, endpoints, probe, pairs[..n]);
    }
  }

  ghost predicate PlainIds(endpoints: seq<Endpoint>) { forall i :: 0 <= i < |endpoints| ==> !HasArrow(endpoints[i].id) }

  ghost function Matrix(ps: seq<Policy>, endpoints: seq<Endpoint>, probe: Probe,
      pairs: seq<MatrixPair>): map<string, string>
  {
    AllPairsInRange(Ids(endpoints), pairs);
    Resident(FlowLog(ps, endpoints, probe, AllPairs(Ids(endpoints), pairs)), ALL_RESIDENT)
  }

  /** A matrix holds, for each visited pair of ids, the verdict of the endpoints last visited under them. */
  lemma MatrixAt(ps: seq<Policy>, endpoints: seq<Endpoint>, probe: Probe, pairs: seq<MatrixPair>, s: string, d: string)
    requires PlainIds(endpoints) && !HasArrow(s)
    ensures var m, p := Matrix(ps, endpoints, probe, pairs),
            LastPair(Ids(endpoints), AllPairs(Ids(endpoints), pairs), s, d);
            && (FlowKey(s, d) in m <==> p.Some?)
            && (p.Some? ==> p.value.0 < |endpoints| && p.value.1 < |endpoints|)
            && (p.Some? ==>
                m[FlowKey(s, d)] == VerdictText(FlowAllowed(ps, probe, endpoints[p.value.0], endpoints[p.value.1])))
  {
    var all := AllPairs(Ids(endpoints), pairs);
    AllPairsInRange(Ids(endpoints), pairs);
    FlowLogLast(ps, endpoints, probe, all, s, d);
    FlowLogPlain(ps, endpoints, probe, all);
    PlainLookupIsLast(FlowLog(ps, endpoints, probe, all), ALL_RESIDENT, s, d);
    LastPairInRange(Ids(endpoints), all, s, d);
  }

  /** A partial matrix is the full one restricted to the requested pairs: nothing more, nothing less,
      nothing different. */
  lemma PartialMatrixIsRestriction(ps: seq<Policy>, endpoints: seq<Endpoint>, probe: Probe, pairs: seq<MatrixPair>,
      s: string, d: string)
    requires PlainIds(endpoints) && pairs != []
    ensures var part, full := Matrix(ps, endpoints, probe, pairs), Matrix(ps, endpoints, probe, []);
            && (FlowKey(s, d) in part <==> MatrixPair(s, d) in pairs && FlowKey(s, d) in full)
            && (FlowKey(s, d) in part ==> part[FlowKey(s, d)] == full[FlowKey(s, d)])
  {
    if HasArrow(s) {
      MatrixAvoidsArrows(ps, endpoints, probe, pairs, s, d);
      MatrixAvoidsArrows(ps, endpoints, probe, [], s, d);
    } else {
      MatrixAt(ps, endpoints, probe, pairs, s, d);
      MatrixAt(ps, endpoints, probe, [], s, d);
      PartialVisitsAreRestriction(Ids(endpoints), pairs, s, d);
    }
  }

  /** With distinct ids the full matrix decides exactly the pairs of different endpoints, each by the
      two-sided semantics. */
  lemma FullMatrixIsTwoSided(ps: seq<Policy>, endpoints: seq<Endpoint>, probe: Probe, i: nat, j: nat)
    requires PlainIds(endpoints) && Distinct(Ids(endpoints)) && i < |endpoints| && j < |endpoints|
    ensures var m, key := Matrix(ps, endpoints, probe, []), FlowKey(endpoints[i].id, endpoints[j].id);
            && (key in m <==> i != j)
            && (i != j ==> m[key] == VerdictText(FlowAllowed(ps, probe, endpoints[i], endpoints[j])))
  {
    var ids := Ids(endpoints);
    MatrixAt(ps, endpoints, probe, [], ids[i], ids[j]);
    FullLast(ids, |ids|, ids[i], ids[j]);
    LastIndexUnique(ids, i, |ids|);
    LastIndexUnique(ids, j, |ids|);
  }

  lemma {:induction false} LastIndexUnique(ids: seq<string>, i: nat, n: nat)
    requires Distinct(ids) && i < n <= |ids|
    ensures LastIndex(ids, ids[i], n) == Some(i)
  {
    if i != n - 1 { LastIndexUnique(ids, i, n - 1); }
  }

  lemma {:induction false} FlowLogPlain(ps: seq<Policy>, endpoints: seq<Endpoint>, probe: Probe, pairs: seq<IndexPair>)
    requires InRange(|endpoints|, pairs) && PlainIds(endpoints)
    ensures PlainLog(FlowLog(ps, endpoints, probe, pairs))
  {
    if pairs != [] { FlowLogPlain(ps, endpoints, probe, pairs[..|pairs| - 1]); }
  }

  /** A requested name that holds an arrow never hits a cell of other endpoints. */
  lemma MatrixAvoidsArrows(ps: seq<Policy>, endpoints: seq<Endpoint>, probe: Probe, pairs: seq<MatrixPair>,
      s: string, d: string)
    requires PlainIds(endpoints) && HasArrow(s)
    ensures FlowKey(s, d) !in Matrix(ps, endpoints, probe, pairs)
  {
    var all := AllPairs(Ids(endpoints), pairs);
    AllPairsInRange(Ids(endpoints), pairs);
    FlowLogPlain(ps, endpoints, probe, all);
    ArrowedKeyAbsent(FlowLog(ps, endpoints, probe, all), ALL_RESIDENT, s, d);
  }

  // ----- why egress named ports must stay dynamic -----

  /** Specialising an egress rule's named port against anyone but the destination changes a verdict. */
  lemma NamedEgressNeedsDestination()
    ensures exists r: Rule, probe: Probe, dst: Endpoint ::
              RuleMatches(r, probe, dst, dst) && HasNamed(r) && !PortMatches(r, probe, NOBODY)
  {
    var probe := Probe("tcp", 80, _ => None);
    var dst := Endpoint("n/d", "n", "d", "", [NamedPort("http", 80, "")]);
    var ps := PortSpec("tcp", 0, 0, "http");
    var r := Rule(true, map[], [], [ps]);
    assert ps in r.ports;
    assert ToLower("tcp") == "tcp";
    assert ResolveNamed(dst.ports, "http", "tcp") == 80;
    assert SpecMatches(ps, probe, dst) && !SpecMatches(ps, probe, NOBODY);
    assert RuleMatches(r, probe, dst, dst) && HasNamed(r) && !PortMatches(r, probe, NOBODY);
  }

  // ----- what a cell means, in addresses and port numbers -----

  /** An address block admits an address that starts with its prefix and with none of its exceptions'. */
  predicate InBlock(b: IPBlock, bits: seq<bool>) {
    && b.cidr.Some? && Within(bits, b.cidr.value.width, b.cidr.value.prefix)
    && forall e :: e in b.excepted ==> !Within(bits, e.width, e.prefix)
  }

  lemma BlockMeaning(b: IPBlock, ip: IP)
    ensures BlockContains(b, Some(ip)) <==> InBlock(b, ip.bits)
  {
    forall n: Net ensures Contains(n, ip) <==> Within(ip.bits, n.width, n.prefix) { ContainsMeaning(n, ip); }
  }

  /** The parts of an id before and after its first slash; without one the whole id is the second part. */
  ghost predicate Parts(id: string, head: string, tail: string) {
    if '/' in id then id == head + "/" + tail && '/' !in head else head == "" && tail == id
  }

  /** A pod is keyed by its namespace and name, each taken from the id where it is not set. */
  ghost predicate IsPodKey(ep: Endpoint, key: string) {
    exists head, tail :: Parts(ep.id, head, tail)
      && key == (if ep.ns != "" then ep.ns else head) + "/" + (if ep.name != "" then ep.name else tail)
  }

  lemma PartsUnique(id: string, head: string, tail: string)
    requires Parts(id, head, tail)
    ensures var i := IndexOf(id, '/');
            if i < |id| then head == id[..i] && tail == id[i + 1..] else head == "" && tail == id
  {
    if '/' in id {
      IndexOfAt(head, '/', tail);
      assert id == head + ['/'] + tail;
    } else {
      IndexOfAbsent(id, '/');
    }
  }

  lemma PodKeyIff(ep: Endpoint, key: string)
    ensures PodKey(ep) == key <==> IsPodKey(ep, key)
  {
    var i := IndexOf(ep.id, '/');
    var head, tail := if i < |ep.id| then ep.id[..i] else "", if i < |ep.id| then ep.id[i + 1..] else ep.id;
    assert i < |ep.id| ==> ep.id == ep.id[..i] + "/" + ep.id[i + 1..];
    assert Parts(ep.id, head, tail);
    if IsPodKey(ep, key) {
      var h, t :| Parts(ep.id, h, t)
        && key == (if ep.ns != "" then ep.ns else h) + "/" + (if ep.name != "" then ep.name else t);
      PartsUnique(ep.id, h, t);
    }
  }

  /** The declared number of a named port: that of the first port of the name and protocol, tcp by default, in
      any case; -1 without one. */
  predicate Declares(ports: seq<NamedPort>, name: string, proto: string, number: int) {
    || (exists k :: 0 <= k < |ports| && IsNamed(ports[k], name, proto) && ports[k].port == number
          && forall j :: 0 <= j < k ==> !IsNamed(ports[j], name, proto))
    || (number == -1 && forall j :: 0 <= j < |ports| ==> !IsNamed(ports[j], name, proto))
  }

  predicate IsNamed(p: NamedPort, name: string, proto: string) {
    p.name == name && ToLower(proto) == if p.protocol == "" then "tcp" else ToLower(p.protocol)
  }

  lemma {:induction false} ResolveNamedMeaning(ports: seq<NamedPort>, name: string, proto: string, number: int)
    ensures ResolveNamed(ports, name, proto) == number <==> Declares(ports, name, proto, number)
  {
    assert ToLower("tcp") == "tcp";
    if ports != [] {
      var rest := ports[1..];
      ResolveNamedMeaning(rest, name, proto, number);
      forall k | 0 <= k < |rest| ensures rest[k] == ports[k + 1] {
      }
      if IsNamed(ports[0], name, proto) {
        assert Declares(ports, name, proto, number) <==> ports[0].port == number;
      } else {
        assert Declares(ports, name, proto, number) <==> Declares(rest, name, proto, number);
      }
    }
  }

  /** The peers a rule admits: all, its pods by key, or those with an address in one of its blocks. */
  ghost predicate IsPeer(r: Rule, peer: Endpoint, parseIP: string -> Option<IP>) {
    || r.matchAllPeers
    || (exists key :: IsPodKey(peer, key) && key in r.peerPods && r.peerPods[key])
    || (&& peer.ip != "" && parseIP(peer.ip).Some?
        && exists b :: b in r.ipBlocks && InBlock(b, parseIP(peer.ip).value.bits))
  }

  /** The ports a spec admits on the destination: of its protocol, the named one, any for -1, or a range. */
  predicate IsPort(s: PortSpec, proto: string, port: int, dst: Endpoint) {
    && s.proto == ToLower(proto)
    && (s.named != "" ==> Declares(dst.ports, s.named, proto, port))
    && (s.named == "" && s.port != -1 ==> s.port <= port && port <= s.endPort)
  }

  ghost predicate AdmitsFlow(r: Rule, peer: Endpoint, dst: Endpoint, probe: Probe) {
    && IsPeer(r, peer, probe.parseIP)
    && (r.ports == [] || exists s :: s in r.ports && IsPort(s, probe.proto, probe.port, dst))
  }

  lemma RuleMeaning(r: Rule, peer: Endpoint, dst: Endpoint, probe: Probe)
    ensures RuleMatches(r, probe, peer, dst) <==> AdmitsFlow(r, peer, dst, probe)
  {
    PodKeyIff(peer, PodKey(peer));
    forall key | IsPodKey(peer, key) ensures key == PodKey(peer) { PodKeyIff(peer, key); }
    if probe.parseIP(peer.ip).Some? {
      forall b ensures BlockContains(b, probe.parseIP(peer.ip)) <==> InBlock(b, probe.parseIP(peer.ip).value.bits) {
        BlockMeaning(b, probe.parseIP(peer.ip).value);
      }
    }
    forall s: PortSpec ensures SpecMatches(s, probe, dst) <==> IsPort(s, probe.proto, probe.port, dst) {
      ResolveNamedMeaning(dst.ports, s.named, probe.proto, probe.port);
    }
  }

  ghost predicate AppliesTo(p: Policy, ep: Endpoint) {
    exists key :: IsPodKey(ep, key) && key in p.appliedTo && p.appliedTo[key]
  }

  /** The destination takes the flow in: no policy isolates its ingress, or one that does admits the source. */
  ghost predicate TakesIn(ps: seq<Policy>, probe: Probe, src: Endpoint, dst: Endpoint) {
    || (forall p :: p in ps && p.ingressIsolate ==> !AppliesTo(p, dst))
    || exists p, r ::
         p in ps && p.ingressIsolate && AppliesTo(p, dst) && r in p.ingress && AdmitsFlow(r, src, dst, probe)
  }

  /** The source lets the flow out, by its egress and the destination's ports. */
  ghost predicate LetsOut(ps: seq<Policy>, probe: Probe, src: Endpoint, dst: Endpoint) {
    || (forall p :: p in ps && p.egressIsolate ==> !AppliesTo(p, src))
    || exists p, r ::
         p in ps && p.egressIsolate && AppliesTo(p, src) && r in p.egress && AdmitsFlow(r, dst, dst, probe)
  }

  lemma AppliesToMeaning(p: Policy, ep: Endpoint)
    ensures Listed(p.appliedTo, PodKey(ep)) <==> AppliesTo(p, ep)
  {
    PodKeyIff(ep, PodKey(ep));
    forall key | IsPodKey(ep, key) ensures key == PodKey(ep) { PodKeyIff(ep, key); }
  }

  lemma FlowMeaning(ps: seq<Policy>, probe: Probe, src: Endpoint, dst: Endpoint)
    ensures FlowAllowed(ps, probe, src, dst) <==> TakesIn(ps, probe, src, dst) && LetsOut(ps, probe, src, dst)
  {
    forall p: Policy, e: Endpoint ensures Listed(p.appliedTo, PodKey(e)) <==> AppliesTo(p, e) {
      AppliesToMeaning(p, e);
    }
    forall r: Rule, e: Endpoint ensures RuleMatches(r, probe, e, dst) <==> AdmitsFlow(r, e, dst, probe) {
      RuleMeaning(r, e, dst, probe);
    }
    assert SideAllows(ps, Ingress, PodKey(dst), probe, src, dst) <==> TakesIn(ps, probe, src, dst);
    assert SideAllows(ps, Egress, PodKey(src), probe, dst, dst) <==> LetsOut(ps, probe, src, dst);
  }

  /** A cell of the full matrix of a request, protocol and port defaulting to tcp and 8080. */
  lemma CellMeaning(ps: seq<Policy>, endpoints: seq<Endpoint>, protocol: string, port: int,
                    parseIP: string -> Option<IP>, i: nat, j: nat)
    requires PlainIds(endpoints) && Distinct(Ids(endpoints)) && i < |endpoints| && j < |endpoints| && i != j
    ensures var m, key := Matrix(ps, endpoints, ProbeOf(protocol, port, parseIP), []),
              endpoints[i].id + "->" + endpoints[j].id;
            var probe := Probe(if protocol != "" then protocol else "tcp", if port != 0 then port else 8080, parseIP);
            && key in m && (m[key] == "allow" || m[key] == "deny")
            && (m[key] == "allow" <==>
                TakesIn(ps, probe, endpoints[i], endpoints[j]) && LetsOut(ps, probe, endpoints[i], endpoints[j]))
  {
    FullMatrixIsTwoSided(ps, endpoints, ProbeOf(protocol, port, parseIP), i, j);
    FlowMeaning(ps, ProbeOf(protocol, port, parseIP), endpoints[i], endpoints[j]);
  }

  /** A policy that isolates the ingress of one endpoint and has one rule. */
  ghost predicate OneRulePolicy(p: Policy, dst: Endpoint, r: Rule) {
    p.ingressIsolate && !p.egressIsolate && AppliesTo(p, dst) && p.ingress == [r]
  }

  lemma OneRuleCell(p: Policy, r: Rule, endpoints: seq<Endpoint>, protocol: string, port: int,
                    parseIP: string -> Option<IP>, i: nat, j: nat)
    requires PlainIds(endpoints) && Distinct(Ids(endpoints)) && i < |endpoints| && j < |endpoints| && i != j
    requires OneRulePolicy(p, endpoints[j], r)
    ensures var m, key := Matrix([p], endpoints, ProbeOf(protocol, port, parseIP), []),
              endpoints[i].id + "->" + endpoints[j].id;
            var probe := Probe(if protocol != "" then protocol else "tcp", if port != 0 then port else 8080, parseIP);
            key in m && (m[key] == "allow" <==> AdmitsFlow(r, endpoints[i], endpoints[j], probe))
  {
    CellMeaning([p], endpoints, protocol, port, parseIP, i, j);
    assert p in [p] && r in p.ingress;
  }

  /** With one address block as its rule, such a policy lets in exactly the addresses of the block outside of its
      exceptions. */
  lemma OneBlockCell(p: Policy, b: IPBlock, endpoints: seq<Endpoint>, protocol: string, port: int,
                     parseIP: string -> Option<IP>, i: nat, j: nat)
    requires PlainIds(endpoints) && Distinct(Ids(endpoints)) && i < |endpoints| && j < |endpoints| && i != j
    requires OneRulePolicy(p, endpoints[j], Rule(false, map[], [b], []))
    requires endpoints[i].ip != "" && parseIP(endpoints[i].ip).Some?
    ensures var m, key := Matrix([p], endpoints, ProbeOf(protocol, port, parseIP), []),
              endpoints[i].id + "->" + endpoints[j].id;
            key in m && (m[key] == "allow" <==> InBlock(b, parseIP(endpoints[i].ip).value.bits))
  {
    OneRuleCell(p, Rule(false, map[], [b], []), endpoints, protocol, port, parseIP, i, j);
    assert b in [b];
  }

  /** With one port as its rule, exactly the probes for that port. */
  lemma OnePortCell(p: Policy, s: PortSpec, endpoints: seq<Endpoint>, protocol: string, port: int,
                    parseIP: string -> Option<IP>, i: nat, j: nat)
    requires PlainIds(endpoints) && Distinct(Ids(endpoints)) && i < |endpoints| && j < |endpoints| && i != j
    requires OneRulePolicy(p, endpoints[j], Rule(true, map[], [], [s]))
    ensures var m, key := Matrix([p], endpoints, ProbeOf(protocol, port, parseIP), []),
              endpoints[i].id + "->" + endpoints[j].id;
            key in m
            && (m[key] == "allow" <==>
                IsPort(s, if protocol != "" then protocol else "tcp", if port != 0 then port else 8080, endpoints[j]))
  {
    OneRuleCell(p, Rule(true, map[], [], [s]), endpoints, protocol, port, parseIP, i, j);
    assert s in [s];
  }
}
