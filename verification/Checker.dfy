/** A policy checker after the contract of the collapse: tiers, policies, profiles, sets and CIDRs. */
module Checker {
  // The upstream checker is not in the repository. This one follows what the collapse relies on: a walk over
  // the owner's tiers, policies and profiles whose rules consult IP sets, ip-port sets and CIDRs, everything
  // else being constant for the probe.

  import opened Text
  import opened Addresses

  datatype RuleAction = Allow | Deny | Pass | Log

  datatype PortRange = PortRange(first: nat, last: nat)

  /** What a rule asks of the source or of the destination. */
  datatype Side = Side(ipSets: seq<string>, notIpSets: seq<string>,
                       namedPorts: seq<string>, notNamedPorts: seq<string>,
                       nets: seq<string>, notNets: seq<string>,
                       ports: seq<PortRange>, notPorts: seq<PortRange>)

  datatype Icmp = Icmp(typ: Option<int>, code: Option<int>)

  datatype Rule = Rule(action: RuleAction, protocol: Option<nat>, notProtocol: Option<nat>,
                       src: Side, dst: Side, dstIpPortSets: seq<string>, httpMethods: seq<string>,
                       icmp: Option<Icmp>, notIcmp: Option<Icmp>)

  /** A policy or a profile. */
  datatype Policy = Policy(inbound: seq<Rule>, outbound: seq<Rule>)

  datatype PolicyID = PolicyID(kind: string, ns: string, name: string)

  /** The policy store; parseCIDR stands for net.ParseCIDR. */
  datatype Store = Store(policies: map<PolicyID, Policy>, profiles: map<string, Policy>,
                         ipSets: map<string, set<string>>, parseCIDR: string -> Option<Net>)

  datatype Tier = Tier(name: string, defaultAction: string, ingress: seq<PolicyID>, egress: seq<PolicyID>)

  datatype WEP = WEP(tiers: seq<Tier>, profileIds: seq<string>)

  datatype Flow = Flow(srcIP: IP, dstIP: IP, srcPort: nat, dstPort: nat, protocol: nat, httpMethod: Option<string>)

  datatype Dir = Ingress | Egress

  datatype Scope = EnforcedOnly | StagedAsEnforced

  const ANY_SIDE := Side([], [], [], [], [], [], [], [])
  const ALLOW_ALL := Rule(Allow, None, None, ANY_SIDE, ANY_SIDE, [], [], None, None)

  // ----- one rule -----

  function ProtoName(protocol: nat): string {
    if protocol == 1 then "icmp" else if protocol == 6 then "tcp" else if protocol == 17 then "udp"
    else if protocol == 132 then "sctp" else ""
  }

  function PortSuffix(protocol: nat, port: nat): string { "," + ProtoName(protocol) + ":" + Itoa(port) }

  predicate Member(store: Store, id: string, value: string) {
    id in store.ipSets && value in store.ipSets[id]
  }

  predicate InNet(store: Store, cidr: string, ip: IP) {
    store.parseCIDR(cidr).Some? && Contains(store.parseCIDR(cidr).value, ip)
  }

  predicate InRanges(ranges: seq<PortRange>, port: nat) { exists r :: r in ranges && r.first <= port <= r.last }

  predicate SideMatches(store: Store, s: Side, ip: IP, port: nat, protocol: nat) {
    var v := ip.text + PortSuffix(protocol, port);
    && (forall id :: id in s.ipSets ==> Member(store, id, ip.text))
    && (forall id :: id in s.notIpSets ==> !Member(store, id, ip.text))
    && ((s.ports == [] && s.namedPorts == [])
        || InRanges(s.ports, port) || (exists id :: id in s.namedPorts && Member(store, id, v)))
    && !InRanges(s.notPorts, port)
    && (forall id :: id in s.notNamedPorts ==> !Member(store, id, v))
    && (s.nets == [] || (exists n :: n in s.nets && InNet(store, n, ip)))
    && (forall n :: n in s.notNets ==> !InNet(store, n, ip))
  }

  /** The part of a rule that is constant for the probe; icmp and notIcmp are not read at all. */
  predicate ProbeMatches(r: Rule, f: Flow) {
    && (r.protocol.Some? ==> r.protocol.value == f.protocol)
    && (r.notProtocol.Some? ==> r.notProtocol.value != f.protocol)
    && (r.httpMethods == [] || f.httpMethod.None? || f.httpMethod.value in r.httpMethods)
  }

  predicate RuleMatches(store: Store, r: Rule, f: Flow) {
    && ProbeMatches(r, f)
    && SideMatches(store, r.src, f.srcIP, f.srcPort, f.protocol)
    && SideMatches(store, r.dst, f.dstIP, f.dstPort, f.protocol)
    && forall id :: id in r.dstIpPortSets ==> Member(store, id, f.dstIP.text + PortSuffix(f.protocol, f.dstPort))
  }

  // ----- the walk -----

  function RulesFor(p: Policy, dir: Dir): seq<Rule> { if dir == Ingress then p.inbound else p.outbound }

  function PoliciesFor(t: Tier, dir: Dir): seq<PolicyID> { if dir == Ingress then t.ingress else t.egress }

  /** The first matching rule's action; a Log rule does not decide. */
  function CheckRules(store: Store, rules: seq<Rule>, f: Flow): Option<RuleAction> {
    if rules == [] then None
    else if rules[0].action != Log && RuleMatches(store, rules[0], f) then Some(rules[0].action)
    else CheckRules(store, rules[1..], f)
  }

  predicate KindIsStaged(kind: string) { "Staged" <= kind }

  /** Whether a policy takes part: it must be known, and staged ones count only when promoted. */
  predicate Applies(store: Store, scope: Scope, id: PolicyID) {
    id in store.policies && (scope == StagedAsEnforced || !KindIsStaged(id.kind))
  }

  function CheckPolicies(store: Store, scope: Scope, ids: seq<PolicyID>, dir: Dir, f: Flow): Option<RuleAction> {
    if ids == [] then None
    else
      var a := if Applies(store, scope, ids[0]) then CheckRules(store, RulesFor(store.policies[ids[0]], dir), f)
               else None;
      if a.Some? then a else CheckPolicies(store, scope, ids[1..], dir, f)
  }

  predicate AnyApplies(store: Store, scope: Scope, ids: seq<PolicyID>) {
    exists id :: id in ids && Applies(store, scope, id)
  }

  /** One entry of a checker trace. */
  datatype RuleID = RuleID(profile: bool, tier: string, action: RuleAction, tierDefault: bool)

  /** What a tier contributes: nothing when no policy of it takes part, else the matched rule or the
      end-of-tier action. */
  function CheckTier(store: Store, scope: Scope, t: Tier, dir: Dir, f: Flow): Option<RuleID> {
    var ids := PoliciesFor(t, dir);
    if !AnyApplies(store, scope, ids) then None
    else
      var a := CheckPolicies(store, scope, ids, dir, f);
      if a.Some? then Some(RuleID(false, t.name, a.value, false))
      else Some(RuleID(false, t.name, if t.defaultAction == "Pass" then Pass else Deny, true))
  }

  function CheckProfiles(store: Store, names: seq<string>, dir: Dir, f: Flow): Option<RuleAction> {
    if names == [] then None
    else
      var a := if names[0] in store.profiles then CheckRules(store, RulesFor(store.profiles[names[0]], dir), f)
               else None;
      if a.Some? then a else CheckProfiles(store, names[1..], dir, f)
  }

  function ProfileTrace(store: Store, names: seq<string>, dir: Dir, f: Flow): seq<RuleID> {
    var a := CheckProfiles(store, names, dir, f);
    if a.Some? then [RuleID(true, "__PROFILE__", a.value, false)]
    else [RuleID(true, "__PROFILE__", Deny, true)]
  }

  /** checker.Evaluate: Pass goes on, to the next tier and in the end to the profiles. */
  function Trace(store: Store, scope: Scope, dir: Dir, tiers: seq<Tier>, profileIds: seq<string>,
      f: Flow): seq<RuleID>
  {
    if tiers == [] then ProfileTrace(store, profileIds, dir, f)
    else
      var e := CheckTier(store, scope, tiers[0], dir, f);
      var rest := Trace(store, scope, dir, tiers[1..], profileIds, f);
      if e.None? then rest
      else if e.value.action == Pass then [e.value] + rest
      else [e.value]
  }

  function Evaluate(store: Store, scope: Scope, dir: Dir, wep: WEP, f: Flow): seq<RuleID> {
    Trace(store, scope, dir, wep.tiers, wep.profileIds, f)
  }

  /** verdict: the last entry of the trace decides; no trace is a deny. */
  predicate Verdict(trace: seq<RuleID>) { trace != [] && trace[|trace| - 1].action == Allow }

  predicate Allowed(store: Store, scope: Scope, dir: Dir, wep: WEP, f: Flow) {
    Verdict(Evaluate(store, scope, dir, wep, f))
  }

  lemma VerdictCons(e: RuleID, rest: seq<RuleID>)
    requires rest != []
    ensures Verdict([e] + rest) == Verdict(rest)
  {
  }

  lemma {:induction false} TraceNonEmpty(store: Store, scope: Scope, dir: Dir, tiers: seq<Tier>,
      profileIds: seq<string>, f: Flow)
    ensures Trace(store, scope, dir, tiers, profileIds, f) != []
  {
    if tiers != [] {
      TraceNonEmpty(store, scope, dir, tiers[1..], profileIds, f);
    }
  }

  /** The verdict without the trace. */
  lemma {:induction false} VerdictSteps(store: Store, scope: Scope, dir: Dir, tiers: seq<Tier>,
      profileIds: seq<string>, f: Flow)
    requires tiers != []
    ensures var e := CheckTier(store, scope, tiers[0], dir, f);
            Verdict(Trace(store, scope, dir, tiers, profileIds, f)) ==
            if e.None? || e.value.action == Pass then Verdict(Trace(store, scope, dir, tiers[1..], profileIds, f))
            else e.value.action == Allow
  {
    var e := CheckTier(store, scope, tiers[0], dir, f);
    TraceNonEmpty(store, scope, dir, tiers[1..], profileIds, f);
    if e.Some? && e.value.action == Pass {
      VerdictCons(e.value, Trace(store, scope, dir, tiers[1..], profileIds, f));
    }
  }

  // ----- what a rule and a tier say, field by field -----

  /** The member of an ip-port set that stands for an address and port; protocols without a name leave it blank. */
  predicate IsSocket(text: string, ip: IP, port: nat, protocol: nat) {
    exists name :: name in ["", "icmp", "tcp", "udp", "sctp"] && text == ip.text + "," + name + ":" + Itoa(port)
      && (name == "icmp" <==> protocol == 1) && (name == "tcp" <==> protocol == 6)
      && (name == "udp" <==> protocol == 17) && (name == "sctp" <==> protocol == 132)
  }

  predicate InSet(store: Store, id: string, text: string) { id in store.ipSets && text in store.ipSets[id] }

  predicate Covered(store: Store, cidr: string, ip: IP) {
    var block := store.parseCIDR(cidr);
    block.Some? && Within(ip.bits, block.value.width, block.value.prefix)
  }

  /** Some field of a side speaks against the address and port; socket is its text in ip-port sets. */
  predicate Objects(store: Store, s: Side, ip: IP, port: nat, socket: string) {
    || (exists id :: id in s.ipSets && !InSet(store, id, ip.text))
    || (exists id :: id in s.notIpSets && InSet(store, id, ip.text))
    || ((s.ports != [] || s.namedPorts != [])
        && (forall r :: r in s.ports ==> port < r.first || r.last < port)
        && (forall id :: id in s.namedPorts ==> !InSet(store, id, socket)))
    || (exists r :: r in s.notPorts && r.first <= port && port <= r.last)
    || (exists id :: id in s.notNamedPorts && InSet(store, id, socket))
    || (s.nets != [] && forall n :: n in s.nets ==> !Covered(store, n, ip))
    || (exists n :: n in s.notNets && Covered(store, n, ip))
  }

  lemma SideMeaning(store: Store, s: Side, ip: IP, port: nat, protocol: nat, socket: string)
    requires IsSocket(socket, ip, port, protocol)
    ensures SideMatches(store, s, ip, port, protocol) <==> !Objects(store, s, ip, port, socket)
  {
    SocketText(socket, ip, port, protocol);
    forall n ensures InNet(store, n, ip) <==> Covered(store, n, ip) {
      if store.parseCIDR(n).Some? { ContainsMeaning(store.parseCIDR(n).value, ip); }
    }
  }

  lemma SocketText(text: string, ip: IP, port: nat, protocol: nat)
    ensures IsSocket(text, ip, port, protocol) <==> text == ip.text + PortSuffix(protocol, port)
  {
    var name := ProtoName(protocol);
    assert ip.text + PortSuffix(protocol, port) == ip.text + "," + name + ":" + Itoa(port);
    assert |"icmp"| == 4 && |"tcp"| == 3 && |"udp"| == 3 && "tcp"[0] != "udp"[0] && "icmp"[0] != "sctp"[0];
  }

  /** A rule matches a flow when neither its protocols nor its methods nor a field of either side speaks against it,
      and the destination is in all of its ip-port sets. */
  lemma RuleMeaning(store: Store, r: Rule, f: Flow, from: string, to: string)
    requires IsSocket(from, f.srcIP, f.srcPort, f.protocol) && IsSocket(to, f.dstIP, f.dstPort, f.protocol)
    ensures RuleMatches(store, r, f) <==>
            && r.protocol in {None, Some(f.protocol)} && r.notProtocol != Some(f.protocol)
            && (|| r.httpMethods == [] || f.httpMethod == None
                || exists m :: m in r.httpMethods && f.httpMethod == Some(m))
            && !Objects(store, r.src, f.srcIP, f.srcPort, from) && !Objects(store, r.dst, f.dstIP, f.dstPort, to)
            && forall id :: id in r.dstIpPortSets ==> InSet(store, id, to)
  {
    SideMeaning(store, r.src, f.srcIP, f.srcPort, f.protocol, from);
    SideMeaning(store, r.dst, f.dstIP, f.dstPort, f.protocol, to);
    SocketText(to, f.dstIP, f.dstPort, f.protocol);
  }

  /** What a tier adds to a trace: nothing when none of its policies for the direction is known and enforced, or staged
      and promoted; else an entry under its name, marked when no policy decides and its default action does. */
  lemma TierMeaning(store: Store, scope: Scope, t: Tier, dir: Dir, f: Flow)
    ensures var e, ids := CheckTier(store, scope, t, dir, f), if dir == Egress then t.egress else t.ingress;
            && (e.None? <==>
                forall id :: id in ids && id in store.policies ==> scope == EnforcedOnly && "Staged" <= id.kind)
            && (e.Some? ==> !e.value.profile && e.value.tier == t.name)
            && (e.Some? ==> (e.value.tierDefault <==> CheckPolicies(store, scope, ids, dir, f) == None))
            && (e.Some? && !e.value.tierDefault ==> CheckPolicies(store, scope, ids, dir, f) == Some(e.value.action))
            && (e.Some? && e.value.tierDefault ==> e.value.action == if t.defaultAction == "Pass" then Pass else Deny)
  {
  }

  /** One policy for a direction is read through that direction's rules. */
  lemma OnePolicyMeaning(store: Store, scope: Scope, id: PolicyID, f: Flow)
    requires Applies(store, scope, id)
    ensures CheckPolicies(store, scope, [id], Ingress, f) == CheckRules(store, store.policies[id].inbound, f)
    ensures CheckPolicies(store, scope, [id], Egress, f) == CheckRules(store, store.policies[id].outbound, f)
  {
    assert [id][1..] == [];
    assert CheckPolicies(store, scope, [], Ingress, f) == None && CheckPolicies(store, scope, [], Egress, f) == None;
  }

  lemma OneProfileMeaning(store: Store, name: string, f: Flow)
    requires name in store.profiles
    ensures CheckProfiles(store, [name], Ingress, f) == CheckRules(store, store.profiles[name].inbound, f)
    ensures CheckProfiles(store, [name], Egress, f) == CheckRules(store, store.profiles[name].outbound, f)
  {
    assert [name][1..] == [];
    assert CheckProfiles(store, [], Ingress, f) == None && CheckProfiles(store, [], Egress, f) == None;
  }
}
