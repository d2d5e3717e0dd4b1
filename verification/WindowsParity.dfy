/** Windows against Linux: with a silent Pass lint the ACL list gives the Linux walk's verdicts. */
module WindowsParity {
  import opened Text
  import opened Flattening
  import opened Renumbering
  import opened HnsFlattener
  import C = Checker
  import Polprog

  datatype SetID = PolicySet(id: C.PolicyID) | ProfileSet(name: string)

  /** The ACLs a policy set was rendered to, per direction. */
  datatype AclSet = AclSet(inbound: seq<Acl>, outbound: seq<Acl>)

  type PolicySets = map<SetID, AclSet>

  /** The ACL renderer of the policysets package, which is not part of this model. */
  type Renderer = (C.Rule, C.Dir) -> seq<Acl>

  function RenderRules(render: Renderer, rules: seq<C.Rule>, dir: C.Dir): seq<Acl> {
    if rules == [] then [] else render(rules[0], dir) + RenderRules(render, rules[1..], dir)
  }

  function RenderPolicy(render: Renderer, p: C.Policy): AclSet {
    AclSet(RenderRules(render, p.inbound, C.Ingress), RenderRules(render, p.outbound, C.Egress))
  }

  function AclsFor(s: AclSet, dir: C.Dir): seq<Acl> { if dir == C.Ingress then s.inbound else s.outbound }

  function CatchAll(action: Action): Acl { AnyRule("end", action) }

  function JoinSets(ps: PolicySets, ids: seq<SetID>, dir: C.Dir): seq<Acl> {
    if ids == [] then []
    else (if ids[0] in ps then AclsFor(ps[ids[0]], dir) else []) + JoinSets(ps, ids[1..], dir)
  }

  /** GetPolicySetRules: the registered sets in order, closed by a catch-all. */
  function PolicySetRules(ps: PolicySets, ids: seq<SetID>, dir: C.Dir, endOfTierDrop: bool): seq<Acl> {
    JoinSets(ps, ids, dir) + [CatchAll(if endOfTierDrop then Block else Pass)]
  }

  function PolicySetIDs(ids: seq<C.PolicyID>): (r: seq<SetID>)
    ensures |r| == |ids|
  {
    seq(|ids|, k requires 0 <= k < |ids| => PolicySet(ids[k]))
  }

  function ProfileSetIDs(names: seq<string>): (r: seq<SetID>)
    ensures |r| == |names|
  {
    seq(|names|, k requires 0 <= k < |names| => ProfileSet(names[k]))
  }

  predicate Contributes(t: C.Tier, dir: C.Dir) { C.PoliciesFor(t, dir) != [] }

  predicate DefaultApplies(tiers: seq<C.Tier>, dir: C.Dir) {
    exists t :: t in tiers && Contributes(t, dir) && t.name == "default"
  }

  function TierAcls(ps: PolicySets, t: C.Tier, dir: C.Dir): seq<Acl> {
    PolicySetRules(ps, PolicySetIDs(C.PoliciesFor(t, dir)), dir, t.defaultAction != "Pass")
  }

  function PolicyTiers(ps: PolicySets, tiers: seq<C.Tier>, dir: C.Dir): Tiers {
    if tiers == [] then []
    else (if Contributes(tiers[0], dir) then [TierAcls(ps, tiers[0], dir)] else []) + PolicyTiers(ps, tiers[1..], dir)
  }

  function ProfileTier(ps: PolicySets, wep: C.WEP, dir: C.Dir): seq<Acl> {
    PolicySetRules(ps, ProfileSetIDs(wep.profileIds), dir, true)
  }

  /** The tiers with policies, then the profiles if they follow. */
  function Assembled(ps: PolicySets, tiers: seq<C.Tier>, dir: C.Dir, follow: bool, profiles: seq<Acl>): Tiers {
    PolicyTiers(ps, tiers, dir) + if follow then [profiles] else []
  }

  /** The tiers handed to flattenTiers: the profiles follow unless a default tier has policies. */
  function EndpointTiers(ps: PolicySets, wep: C.WEP, dir: C.Dir): Tiers {
    Assembled(ps, wep.tiers, dir, !DefaultApplies(wep.tiers, dir), ProfileTier(ps, wep, dir))
  }

  // ----- the assembly as the Go code runs it -----

  method GetPolicySetRules(ps: PolicySets, ids: seq<SetID>, dir: C.Dir, endOfTierDrop: bool) returns (rules: Rules)
    ensures Rep(rules, PolicySetRules(ps, ids, dir, endOfTierDrop))
    ensures Distinct(rules) && forall k :: 0 <= k < |rules| ==> fresh(rules[k])
  {
    var acls := PolicySetRules(ps, ids, dir, endOfTierDrop);
    rules := [];
    for i := 0 to |acls|
      invariant |rules| == i && forall k :: 0 <= k < i ==> fresh(rules[k]) && rules[k].fields == acls[k]
      invariant Distinct(rules)
    {
      var r := new AclPolicy(acls[i]);
      rules := rules + [r];
    }
  }

  lemma RepAppendTier(ts: seq<Rules>, vs: Tiers, t: Rules, v: seq<Acl>)
    requires TiersRep(ts, vs) && Rep(t, v)
    ensures TiersRep(ts + [t], vs + [v])
  {
  }

  lemma UnsharedAppend(ts: seq<Rules>, t: Rules)
    requires Unshared(ts) && Distinct(t) && forall k, r :: 0 <= k < |ts| && r in ts[k] ==> r !in t
    ensures Unshared(ts + [t])
  {
  }

  /** What the first n tiers contribute. */
  ghost predicate Gathered(ps: PolicySets, tiers: seq<C.Tier>, dir: C.Dir, n: nat, acc: Tiers)
    requires n <= |tiers|
  {
    acc + PolicyTiers(ps, tiers[n..], dir) == PolicyTiers(ps, tiers, dir)
  }

  lemma GatheredNone(ps: PolicySets, tiers: seq<C.Tier>, dir: C.Dir)
    ensures Gathered(ps, tiers, dir, 0, [])
  {
    assert tiers[0..] == tiers;
  }

  lemma GatheredNext(ps: PolicySets, tiers: seq<C.Tier>, dir: C.Dir, i: nat, acc: Tiers)
    requires i < |tiers| && Gathered(ps, tiers, dir, i, acc)
    ensures Gathered(ps, tiers, dir, i + 1,
                     if Contributes(tiers[i], dir) then acc + [TierAcls(ps, tiers[i], dir)] else acc)
  {
    assert tiers[i..][1..] == tiers[i + 1..];
  }

  lemma GatheredAll(ps: PolicySets, tiers: seq<C.Tier>, dir: C.Dir, acc: Tiers)
    requires Gathered(ps, tiers, dir, |tiers|, acc)
    ensures acc == PolicyTiers(ps, tiers, dir)
  {
    assert tiers[|tiers|..] == [] && acc + [] == acc;
  }

  method AppendSet(tierRules: seq<Rules>, ps: PolicySets, ids: seq<SetID>, dir: C.Dir, drop: bool, ghost acc: Tiers,
                   ghost objects: set<AclPolicy>)
    returns (out: seq<Rules>, ghost all: set<AclPolicy>)
    requires Unshared(tierRules) && TiersRep(tierRules, acc) && AllIn(tierRules, objects)
    ensures Unshared(out) && TiersRep(out, acc + [PolicySetRules(ps, ids, dir, drop)]) && |out| == |tierRules| + 1
    ensures AllIn(out, all) && forall r :: r in all ==> r in objects || fresh(r)
  {
    var rules := GetPolicySetRules(ps, ids, dir, drop);
    UnsharedAppend(tierRules, rules);
    RepAppendTier(tierRules, acc, rules, PolicySetRules(ps, ids, dir, drop));
    out := tierRules + [rules];
    all := objects + set r | r in rules;
  }

  method AppendTier(tierRules: seq<Rules>, ps: PolicySets, t: C.Tier, dir: C.Dir, ghost acc: Tiers,
                    ghost objects: set<AclPolicy>)
    returns (out: seq<Rules>, ghost all: set<AclPolicy>, ghost next: Tiers)
    requires Unshared(tierRules) && TiersRep(tierRules, acc) && AllIn(tierRules, objects)
    ensures next == acc + [TierAcls(ps, t, dir)] && Unshared(out) && TiersRep(out, next)
    ensures AllIn(out, all) && forall r :: r in all ==> r in objects || fresh(r)
  {
    var ids := PolicySetIDs(C.PoliciesFor(t, dir));
    out, all := AppendSet(tierRules, ps, ids, dir, t.defaultAction != "Pass", acc, objects);
    next := acc + [TierAcls(ps, t, dir)];
  }

  /** The loop of renderHNSEndpoint over the endpoint's tiers. */
  method GatherPolicyTiers(ps: PolicySets, wep: C.WEP, dir: C.Dir)
    returns (tierRules: seq<Rules>, defaultTierApplies: bool, ghost objects: set<AclPolicy>)
    ensures Unshared(tierRules) && TiersRep(tierRules, PolicyTiers(ps, wep.tiers, dir))
    ensures defaultTierApplies <==> DefaultApplies(wep.tiers, dir)
    ensures AllIn(tierRules, objects) && forall r :: r in objects ==> fresh(r)
  {
    tierRules, defaultTierApplies, objects := [], false, {};
    ghost var acc: Tiers := [];
    GatheredNone(ps, wep.tiers, dir);
    for i := 0 to |wep.tiers|
      invariant Gathered(ps, wep.tiers, dir, i, acc)
      invariant defaultTierApplies <==> DefaultBefore(wep.tiers, dir, i)
      invariant TiersRep(tierRules, acc) && Unshared(tierRules)
      invariant AllIn(tierRules, objects) && forall r :: r in objects ==> fresh(r)
    {
      GatheredNext(ps, wep.tiers, dir, i, acc);
      DefaultNext(wep.tiers, dir, i);
      if C.PoliciesFor(wep.tiers[i], dir) != [] {
        if wep.tiers[i].name == "default" {
          defaultTierApplies := true;
        }
        tierRules, objects, acc := AppendTier(tierRules, ps, wep.tiers[i], dir, acc, objects);
      }
    }
    GatheredAll(ps, wep.tiers, dir, acc);
    DefaultOfAll(wep.tiers, dir);
  }

  predicate DefaultBefore(tiers: seq<C.Tier>, dir: C.Dir, n: nat)
    requires n <= |tiers|
  {
    exists k :: 0 <= k < n && Contributes(tiers[k], dir) && tiers[k].name == "default"
  }

  lemma DefaultNext(tiers: seq<C.Tier>, dir: C.Dir, i: nat)
    requires i < |tiers|
    ensures DefaultBefore(tiers, dir, i + 1) <==>
            DefaultBefore(tiers, dir, i) || (Contributes(tiers[i], dir) && tiers[i].name == "default")
  {
  }

  lemma DefaultOfAll(tiers: seq<C.Tier>, dir: C.Dir)
    ensures DefaultBefore(tiers, dir, |tiers|) <==> DefaultApplies(tiers, dir)
  {
  }

  lemma {:induction false} DefaultContributes(ps: PolicySets, tiers: seq<C.Tier>, dir: C.Dir)
    requires DefaultApplies(tiers, dir)
    ensures PolicyTiers(ps, tiers, dir) != []
  {
    if !Contributes(tiers[0], dir) {
      assert forall t :: t in tiers <==> t == tiers[0] || t in tiers[1..];
      DefaultContributes(ps, tiers[1..], dir);
    }
  }

  /** renderHNSEndpoint: gather, flatten, renumber. */
  method RenderHNSEndpoint(ps: PolicySets, wep: C.WEP, dir: C.Dir, base: nat, limit: nat) returns (out: seq<Acl>)
    requires base < PRIORITY_SPACE
    ensures out == Rewritten(Flatten(EndpointTiers(ps, wep, dir)), base, limit)
  {
    var tierRules, defaultTierApplies, objects := GatherPolicyTiers(ps, wep, dir);
    if defaultTierApplies { DefaultContributes(ps, wep.tiers, dir); }
    if tierRules == [] || !defaultTierApplies {
      tierRules, objects := AppendSet(tierRules, ps, ProfileSetIDs(wep.profileIds), dir, true,
                                      PolicyTiers(ps, wep.tiers, dir), objects);
    }
    out := FlattenAndNumber(tierRules, EndpointTiers(ps, wep, dir), objects, base, limit);
  }

  method FlattenAndNumber(tierRules: seq<Rules>, ghost vs: Tiers, ghost objects: set<AclPolicy>, base: nat, limit: nat)
    returns (out: seq<Acl>)
    requires Unshared(tierRules) && TiersRep(tierRules, vs) && AllIn(tierRules, objects) && base < PRIORITY_SPACE
    modifies objects
    ensures out == Rewritten(Flatten(vs), base, limit)
  {
    var tiers := new Rules[|tierRules|](k requires 0 <= k < |tierRules| => tierRules[k]);
    assert tiers[..] == tierRules;
    var flat := FlattenTiers(tiers, vs, objects);
    out := Numbered(flat, base, limit, Flatten(vs));
  }

  method Numbered(flat: Rules, base: nat, limit: nat, ghost v: seq<Acl>) returns (out: seq<Acl>)
    requires Distinct(flat) && base < PRIORITY_SPACE && Rep(flat, v)
    modifies flat
    ensures out == Rewritten(v, base, limit)
  {
    RewritePriorities(flat, base, limit, v);
    out := [];
    for i := 0 to |flat|
      invariant |out| == i && forall k :: 0 <= k < i ==> out[k] == flat[k].fields
    {
      out := out + [flat[i].fields];
    }
  }

  // ----- the Pass lint -----

  predicate HasPassRule(p: C.Policy) { exists r :: r in p.inbound + p.outbound && r.action == C.Pass }

  predicate Flagged(store: C.Store, id: C.PolicyID) {
    !C.KindIsStaged(id.kind) && id in store.policies && HasPassRule(store.policies[id])
  }

  predicate TierSilent(store: C.Store, t: C.Tier) {
    t.name == "default" ==> forall id :: id in t.ingress + t.egress ==> !Flagged(store, id)
  }

  /** No policy of a default tier of these endpoints, in either direction, has a Pass rule. */
  predicate LintSilent(store: C.Store, weps: seq<C.WEP>) {
    forall w, t :: w in weps && t in w.tiers ==> TierSilent(store, t)
  }

  /** What the lint warns of: an enforced, known policy of a tier called default, in either direction, with a rule that
      passes, in either direction. */
  lemma LintMeaning(store: C.Store, weps: seq<C.WEP>)
    ensures !LintSilent(store, weps) <==>
            exists w, t, id :: w in weps && t in w.tiers && Warns(store, t, id)
  {
    if w, t, id :| w in weps && t in w.tiers && Warns(store, t, id) {
      WarnsMeaning(store, t, id);
      assert !TierSilent(store, t);
    }
    if w, t :| w in weps && t in w.tiers && !TierSilent(store, t) {
      var id :| id in t.ingress + t.egress && Flagged(store, id);
      WarnsMeaning(store, t, id);
    }
  }

  lemma WarnsMeaning(store: C.Store, t: C.Tier, id: C.PolicyID)
    ensures Warns(store, t, id) <==> t.name == "default" && id in t.ingress + t.egress && Flagged(store, id)
  {
    if id in store.policies {
      var p := store.policies[id];
      assert forall r :: r in p.inbound + p.outbound <==> r in p.inbound || r in p.outbound;
    }
  }

  predicate Warns(store: C.Store, t: C.Tier, id: C.PolicyID) {
    && t.name == "default" && (id in t.ingress || id in t.egress)
    && !("Staged" <= id.kind) && id in store.policies && SomePass(store.policies[id])
  }

  predicate SomePass(p: C.Policy) {
    (exists r :: r in p.inbound && r.action == C.Pass) || (exists r :: r in p.outbound && r.action == C.Pass)
  }

  /** One of these tiers has the lint warn of a policy of this name. */
  ghost predicate NamedByTiers(store: C.Store, tiers: seq<C.Tier>, name: string) {
    exists t, id :: t in tiers && Warns(store, t, id) && id.name == name
  }

  ghost predicate NamedByLint(store: C.Store, weps: seq<C.WEP>, name: string) {
    exists w :: w in weps && NamedByTiers(store, w.tiers, name)
  }

  method LintTier(store: C.Store, ids: seq<C.PolicyID>, seen0: set<string>) returns (seen: set<string>)
    ensures forall name :: name in seen <==>
              name in seen0 || exists id :: id in ids && Flagged(store, id) && id.name == name
  {
    seen := seen0;
    for i := 0 to |ids|
      invariant forall name :: name in seen <==>
                  name in seen0 || exists id :: id in ids[..i] && Flagged(store, id) && id.name == name
    {
      assert ids[..i + 1] == ids[..i] + [ids[i]];
      if C.KindIsStaged(ids[i].kind) || ids[i].name in seen {
        continue;
      }
      if ids[i] in store.policies && HasPassRule(store.policies[ids[i]]) {
        seen := seen + {ids[i].name};
      }
    }
    assert ids[..|ids|] == ids;
  }

  /** The tier-pass-block part of lintWindowsHNS: the names warned of, empty exactly when silent. */
  method LintPass(store: C.Store, weps: seq<C.WEP>) returns (seen: set<string>)
    ensures forall name :: name in seen <==> NamedByLint(store, weps, name)
    ensures seen == {} <==> LintSilent(store, weps)
  {
    seen := {};
    for i := 0 to |weps|
      invariant forall name :: name in seen <==> NamedByLint(store, weps[..i], name)
    {
      assert weps[..i + 1] == weps[..i] + [weps[i]];
      seen := LintEndpoint(store, weps[i].tiers, seen);
    }
    assert weps[..|weps|] == weps;
    SilentNamesNone(store, weps);
  }

  /** The loop over the tiers of one endpoint. */
  method LintEndpoint(store: C.Store, tiers: seq<C.Tier>, seen0: set<string>) returns (seen: set<string>)
    ensures forall name :: name in seen <==> name in seen0 || NamedByTiers(store, tiers, name)
  {
    seen := seen0;
    for j := 0 to |tiers|
      invariant forall name :: name in seen <==> name in seen0 || NamedByTiers(store, tiers[..j], name)
    {
      assert tiers[..j + 1] == tiers[..j] + [tiers[j]];
      ghost var before := seen;
      if tiers[j].name == "default" {
        seen := LintTier(store, tiers[j].ingress + tiers[j].egress, seen);
      }
      forall name
        ensures name in seen <==> name in before || exists id :: Warns(store, tiers[j], id) && id.name == name
      {
        forall id {
          WarnsMeaning(store, tiers[j], id);
        }
      }
    }
    assert tiers[..|tiers|] == tiers;
  }

  lemma SilentNamesNone(store: C.Store, weps: seq<C.WEP>)
    ensures LintSilent(store, weps) <==> forall name :: !NamedByLint(store, weps, name)
  {
    LintMeaning(store, weps);
    if w, t, id :| w in weps && t in w.tiers && Warns(store, t, id) {
      assert NamedByTiers(store, w.tiers, id.name) && NamedByLint(store, weps, id.name);
    }
  }

  // ----- parity -----

  /** A packet as the endpoint sees it: ingress traffic is addressed to its local side. */
  function PacketOf(f: C.Flow, dir: C.Dir): Packet {
    if dir == C.Ingress then Packet(f.protocol, f.dstIP, f.srcIP, f.dstPort, f.srcPort)
    else Packet(f.protocol, f.srcIP, f.dstIP, f.srcPort, f.dstPort)
  }

  /** The endpoint is the destination of ingress and the source of egress. */
  lemma PacketMeaning(f: C.Flow)
    ensures PacketOf(f, C.Ingress).local == f.dstIP && PacketOf(f, C.Ingress).localPort == f.dstPort
    ensures PacketOf(f, C.Ingress).remote == f.srcIP && PacketOf(f, C.Ingress).remotePort == f.srcPort
    ensures PacketOf(f, C.Egress).local == f.srcIP && PacketOf(f, C.Egress).localPort == f.srcPort
    ensures PacketOf(f, C.Egress).remote == f.dstIP && PacketOf(f, C.Egress).remotePort == f.dstPort
    ensures PacketOf(f, C.Ingress).protocol == PacketOf(f, C.Egress).protocol == f.protocol
  {
  }

  function ToAcl(a: C.RuleAction): Action {
    match a case Allow => Allow case Pass => Pass case _ => Block
  }

  /** The rule's ACLs match exactly the flows the rule decides, with its action. */
  ghost predicate Exact(store: C.Store, render: Renderer, r: C.Rule, dir: C.Dir, f: C.Flow) {
    FirstMatch(render(r, dir), PacketOf(f, dir)) ==
      if r.action != C.Log && C.RuleMatches(store, r, f) then Some(ToAcl(r.action)) else None
  }

  ghost predicate ExactRules(store: C.Store, render: Renderer, rules: seq<C.Rule>, dir: C.Dir, f: C.Flow) {
    forall r :: r in rules ==> Exact(store, render, r, dir, f)
  }

  ghost predicate ExactPolicy(store: C.Store, render: Renderer, id: C.PolicyID, dir: C.Dir, f: C.Flow) {
    C.Applies(store, C.EnforcedOnly, id) ==> ExactRules(store, render, C.RulesFor(store.policies[id], dir), dir, f)
  }

  ghost predicate ExactProfile(store: C.Store, render: Renderer, n: string, dir: C.Dir, f: C.Flow) {
    n in store.profiles ==> ExactRules(store, render, C.RulesFor(store.profiles[n], dir), dir, f)
  }

  /** The enforced policies of the endpoint in this direction render exactly, and its profiles if they follow. */
  ghost predicate ExactRendering(store: C.Store, render: Renderer, wep: C.WEP, follow: bool, dir: C.Dir, f: C.Flow) {
    && (forall t, id :: t in wep.tiers && id in C.PoliciesFor(t, dir) ==> ExactPolicy(store, render, id, dir, f))
    && (follow ==> forall n :: n in wep.profileIds ==> ExactProfile(store, render, n, dir, f))
  }

  predicate Known(ps: PolicySets, store: C.Store, render: Renderer, id: C.PolicyID) {
    if C.Applies(store, C.EnforcedOnly, id)
    then PolicySet(id) in ps && ps[PolicySet(id)] == RenderPolicy(render, store.policies[id])
    else PolicySet(id) !in ps
  }

  predicate KnownProfile(ps: PolicySets, store: C.Store, render: Renderer, n: string) {
    if n in store.profiles then ProfileSet(n) in ps && ps[ProfileSet(n)] == RenderPolicy(render, store.profiles[n])
    else ProfileSet(n) !in ps
  }

  /** registerEndpointPolicySets has run: a referenced policy is registered iff it is known and not staged. */
  predicate Registered(ps: PolicySets, store: C.Store, render: Renderer, wep: C.WEP) {
    && (forall t, id :: t in wep.tiers && id in t.ingress + t.egress ==> Known(ps, store, render, id))
    && (forall n :: n in wep.profileIds ==> KnownProfile(ps, store, render, n))
  }

  /** hnsPolicyIDToString without its constant prefix. */
  function SetKey(id: C.PolicyID): string { Join(KeyParts(id), '/') }

  function KeyParts(id: C.PolicyID): seq<string> {
    if id.ns != "" then [id.kind, id.ns, id.name] else [id.kind, id.name]
  }

  /** The text a policy is registered under: kind, namespace where there is one, and name, between slashes. */
  lemma SetKeyMeaning(id: C.PolicyID)
    ensures id.ns != "" ==> SetKey(id) == id.kind + "/" + id.ns + "/" + id.name
    ensures id.ns == "" ==> SetKey(id) == id.kind + "/" + id.name
  {
    assert Join([id.name], '/') == id.name;
    assert [id.kind, id.ns, id.name][1..] == [id.ns, id.name] && [id.ns, id.name][1..] == [id.name];
    assert [id.kind, id.name][1..] == [id.name];
    assert Join([id.ns, id.name], '/') == id.ns + ['/'] + id.name;
  }

  predicate SlashFree(id: C.PolicyID) { '/' !in id.kind && '/' !in id.ns && '/' !in id.name }

  /** Policies are registered under a string; as Kubernetes names hold no slash, it stands for the policy. */
  lemma SetKeyInjective(a: C.PolicyID, b: C.PolicyID)
    requires SlashFree(a) && SlashFree(b) && SetKey(a) == SetKey(b)
    ensures a == b
  {
    KeySplits(a);
    KeySplits(b);
    PartsDetermine(a, b);
  }

  lemma KeySplits(id: C.PolicyID)
    requires SlashFree(id)
    ensures Split(SetKey(id), '/') == KeyParts(id)
  {
    SplitJoin(KeyParts(id), '/');
  }

  lemma PartsDetermine(a: C.PolicyID, b: C.PolicyID)
    requires KeyParts(a) == KeyParts(b)
    ensures a == b
  {
    var pa, pb := KeyParts(a), KeyParts(b);
    assert |pa| == |pb| && pa[0] == pb[0] && pa[|pa| - 1] == pb[|pb| - 1];
    assert |pa| == 3 ==> pa[1] == pb[1];
  }

  /** Every set of the plane was rendered from this store, none from a staged policy. */
  ghost predicate FromStore(ps: PolicySets, store: C.Store, render: Renderer) {
    forall s :: s in ps ==>
      match s
      case PolicySet(id) => C.Applies(store, C.EnforcedOnly, id) && ps[s] == RenderPolicy(render, store.policies[id])
      case ProfileSet(n) => n in store.profiles && ps[s] == RenderPolicy(render, store.profiles[n])
  }

  ghost predicate Loaded(ps: PolicySets, store: C.Store, ids: seq<C.PolicyID>) {
    forall id :: id in ids && C.Applies(store, C.EnforcedOnly, id) ==> PolicySet(id) in ps
  }

  method RegisterPolicies(ps0: PolicySets, store: C.Store, render: Renderer, ids: seq<C.PolicyID>)
    returns (ps: PolicySets)
    requires FromStore(ps0, store, render)
    ensures FromStore(ps, store, render) && ps0.Keys <= ps.Keys && Loaded(ps, store, ids)
  {
    ps := ps0;
    for i := 0 to |ids|
      invariant FromStore(ps, store, render) && ps0.Keys <= ps.Keys && Loaded(ps, store, ids[..i])
    {
      assert ids[..i + 1] == ids[..i] + [ids[i]];
      if C.KindIsStaged(ids[i].kind) {
        continue;
      }
      if ids[i] in store.policies {
        ps := ps[PolicySet(ids[i]) := RenderPolicy(render, store.policies[ids[i]])];
      }
    }
    assert ids[..|ids|] == ids;
  }

  method RegisterProfiles(ps0: PolicySets, store: C.Store, render: Renderer, names: seq<string>)
    returns (ps: PolicySets)
    requires FromStore(ps0, store, render)
    ensures FromStore(ps, store, render) && ps0.Keys <= ps.Keys
    ensures forall n :: n in names && n in store.profiles ==> ProfileSet(n) in ps
  {
    ps := ps0;
    for i := 0 to |names|
      invariant FromStore(ps, store, render) && ps0.Keys <= ps.Keys
      invariant forall k :: 0 <= k < i && names[k] in store.profiles ==> ProfileSet(names[k]) in ps
    {
      if names[i] in store.profiles {
        ps := ps[ProfileSet(names[i]) := RenderPolicy(render, store.profiles[names[i]])];
      }
    }
  }

  /** registerEndpointPolicySets: whatever endpoints came before, this one's sets are now as the lookup
      expects, and the endpoints registered before stay so. */
  method RegisterEndpointPolicySets(ps0: PolicySets, store: C.Store, render: Renderer, wep: C.WEP)
    returns (ps: PolicySets)
    requires FromStore(ps0, store, render)
    ensures FromStore(ps, store, render) && Registered(ps, store, render, wep)
    ensures forall w :: Registered(ps0, store, render, w) ==> Registered(ps, store, render, w)
  {
    ps := ps0;
    for i := 0 to |wep.tiers|
      invariant FromStore(ps, store, render) && ps0.Keys <= ps.Keys
      invariant forall k :: 0 <= k < i ==> Loaded(ps, store, wep.tiers[k].ingress + wep.tiers[k].egress)
    {
      ps := RegisterPolicies(ps, store, render, wep.tiers[i].ingress + wep.tiers[i].egress);
    }
    ps := RegisterProfiles(ps, store, render, wep.profileIds);
    forall t | t in wep.tiers ensures Loaded(ps, store, t.ingress + t.egress) {
    }
    forall w | Registered(ps0, store, render, w) ensures Registered(ps, store, render, w) {
      StaysRegistered(ps0, ps, store, render, w);
    }
  }

  lemma StaysRegistered(ps0: PolicySets, ps: PolicySets, store: C.Store, render: Renderer, w: C.WEP)
    requires FromStore(ps, store, render) && ps0.Keys <= ps.Keys && Registered(ps0, store, render, w)
    ensures Registered(ps, store, render, w)
  {
    forall t, id | t in w.tiers && id in t.ingress + t.egress ensures Known(ps, store, render, id) {
      assert Known(ps0, store, render, id);
    }
    forall n | n in w.profileIds ensures KnownProfile(ps, store, render, n) {
      assert KnownProfile(ps0, store, render, n);
    }
  }

  lemma {:induction false} RenderedRules(store: C.Store, render: Renderer, rules: seq<C.Rule>, dir: C.Dir, f: C.Flow)
    requires ExactRules(store, render, rules, dir, f)
    ensures FirstMatch(RenderRules(render, rules, dir), PacketOf(f, dir)) ==
            var a := C.CheckRules(store, rules, f); if a.Some? then Some(ToAcl(a.value)) else None
  {
    if rules != [] {
      assert Exact(store, render, rules[0], dir, f);
      RenderedRules(store, render, rules[1..], dir, f);
      FirstMatchAppend(render(rules[0], dir), RenderRules(render, rules[1..], dir), PacketOf(f, dir));
    }
  }

  lemma {:induction false} JoinedPolicies(store: C.Store, render: Renderer, ps: PolicySets, ids: seq<C.PolicyID>,
      dir: C.Dir, f: C.Flow)
    requires forall id :: id in ids ==> Known(ps, store, render, id) && ExactPolicy(store, render, id, dir, f)
    ensures FirstMatch(JoinSets(ps, PolicySetIDs(ids), dir), PacketOf(f, dir)) ==
            var a := C.CheckPolicies(store, C.EnforcedOnly, ids, dir, f); if a.Some? then Some(ToAcl(a.value)) else None
  {
    if ids != [] {
      assert Known(ps, store, render, ids[0]) && ExactPolicy(store, render, ids[0], dir, f);
      assert PolicySetIDs(ids)[1..] == PolicySetIDs(ids[1..]);
      JoinedPolicies(store, render, ps, ids[1..], dir, f);
      if C.Applies(store, C.EnforcedOnly, ids[0]) {
        RenderedRules(store, render, C.RulesFor(store.policies[ids[0]], dir), dir, f);
        FirstMatchAppend(AclsFor(ps[PolicySet(ids[0])], dir),
            JoinSets(ps, PolicySetIDs(ids[1..]), dir), PacketOf(f, dir));
      } else {
        assert JoinSets(ps, PolicySetIDs(ids), dir) == JoinSets(ps, PolicySetIDs(ids[1..]), dir);
      }
    }
  }

  lemma {:induction false} JoinedProfiles(store: C.Store, render: Renderer, ps: PolicySets, names: seq<string>,
      dir: C.Dir, f: C.Flow)
    requires forall n :: n in names ==> KnownProfile(ps, store, render, n) && ExactProfile(store, render, n, dir, f)
    ensures FirstMatch(JoinSets(ps, ProfileSetIDs(names), dir), PacketOf(f, dir)) ==
            var a := C.CheckProfiles(store, names, dir, f); if a.Some? then Some(ToAcl(a.value)) else None
  {
    if names != [] {
      assert KnownProfile(ps, store, render, names[0]) && ExactProfile(store, render, names[0], dir, f);
      assert ProfileSetIDs(names)[1..] == ProfileSetIDs(names[1..]);
      JoinedProfiles(store, render, ps, names[1..], dir, f);
      if names[0] in store.profiles {
        RenderedRules(store, render, C.RulesFor(store.profiles[names[0]], dir), dir, f);
        FirstMatchAppend(AclsFor(ps[ProfileSet(names[0])], dir),
            JoinSets(ps, ProfileSetIDs(names[1..]), dir), PacketOf(f, dir));
      } else {
        assert JoinSets(ps, ProfileSetIDs(names), dir) == JoinSets(ps, ProfileSetIDs(names[1..]), dir);
      }
    }
  }

  lemma CatchAllCloses(acls: seq<Acl>, action: Action, p: Packet)
    ensures FirstMatch(acls + [CatchAll(action)], p) ==
            if FirstMatch(acls, p).Some? then FirstMatch(acls, p) else Some(action)
    ensures AnyMatch(acls + [CatchAll(action)], p)
  {
    FirstMatchAppend(acls, [CatchAll(action)], p);
    assert (acls + [CatchAll(action)])[|acls|] == CatchAll(action);
  }

  lemma {:induction false} NothingJoined(ps: PolicySets, ids: seq<C.PolicyID>, dir: C.Dir)
    requires forall id :: id in ids ==> PolicySet(id) !in ps
    ensures JoinSets(ps, PolicySetIDs(ids), dir) == []
  {
    if ids != [] {
      assert ids[0] in ids && PolicySetIDs(ids)[1..] == PolicySetIDs(ids[1..]);
      NothingJoined(ps, ids[1..], dir);
    }
  }

  lemma {:induction false} NeverLogRules(store: C.Store, rules: seq<C.Rule>, f: C.Flow)
    ensures C.CheckRules(store, rules, f) != Some(C.Log)
  {
    if rules != [] { NeverLogRules(store, rules[1..], f); }
  }

  lemma {:induction false} NeverLog(store: C.Store, ids: seq<C.PolicyID>, dir: C.Dir, f: C.Flow)
    ensures C.CheckPolicies(store, C.EnforcedOnly, ids, dir, f) != Some(C.Log)
  {
    if ids != [] {
      NeverLog(store, ids[1..], dir, f);
      if C.Applies(store, C.EnforcedOnly, ids[0]) {
        NeverLogRules(store, C.RulesFor(store.policies[ids[0]], dir), f);
      }
    }
  }

  lemma {:induction false} PolicyTiersCatch(ps: PolicySets, tiers: seq<C.Tier>, dir: C.Dir, p: Packet)
    ensures forall k :: 0 <= k < |PolicyTiers(ps, tiers, dir)| ==> AnyMatch(PolicyTiers(ps, tiers, dir)[k], p)
  {
    if tiers != [] {
      PolicyTiersCatch(ps, tiers[1..], dir, p);
      var t := tiers[0];
      CatchAllCloses(JoinSets(ps, PolicySetIDs(C.PoliciesFor(t, dir)), dir),
          if t.defaultAction != "Pass" then Block else Pass, p);
    }
  }

  /** Every list handed to flattenTiers ends in a catch-all, so none of the packets that need the backtracking
      walk occurs. */
  lemma EndpointTiersCatch(ps: PolicySets, wep: C.WEP, dir: C.Dir, p: Packet)
    ensures CatchesAfterFirst(EndpointTiers(ps, wep, dir), p)
  {
    PolicyTiersCatch(ps, wep.tiers, dir, p);
    CatchAllCloses(JoinSets(ps, ProfileSetIDs(wep.profileIds), dir), Block, p);
  }

  lemma WalkCons(a: seq<Acl>, next: Tiers, p: Packet)
    requires next != []
    ensures Walk([a] + next, p) == if FirstMatch(a, p) == Some(Pass) then Walk(next, p) else FirstMatch(a, p)
  {
    assert ([a] + next)[1..] == next;
  }

  // ----- one tier -----

  /** A tier whose policies are all staged or unknown, and whose default action is to drop. */
  predicate StagedDrop(store: C.Store, t: C.Tier, dir: C.Dir, f: C.Flow) {
    C.CheckTier(store, C.EnforcedOnly, t, dir, f).None? && t.defaultAction != "Pass"
  }

  /** The tier leaves the flow to what comes after it, by a rule or at its end. */
  predicate PassesOn(store: C.Store, t: C.Tier, dir: C.Dir, f: C.Flow) {
    var e := C.CheckTier(store, C.EnforcedOnly, t, dir, f);
    if e.None? then t.defaultAction == "Pass" else e.value.action == C.Pass
  }

  /** What a tier with policies does on Windows: as the checker where a policy is enforced, else the tier's end. */
  function TierAction(store: C.Store, t: C.Tier, dir: C.Dir, f: C.Flow): Action {
    var e := C.CheckTier(store, C.EnforcedOnly, t, dir, f);
    if e.Some? then ToAcl(e.value.action) else if t.defaultAction != "Pass" then Block else Pass
  }

  lemma TierParity(store: C.Store, render: Renderer, ps: PolicySets, wep: C.WEP, follow: bool, t: C.Tier,
                   dir: C.Dir, f: C.Flow)
    requires ExactRendering(store, render, wep, follow, dir, f) && Registered(ps, store, render, wep)
    requires t in wep.tiers && Contributes(t, dir)
    ensures FirstMatch(TierAcls(ps, t, dir), PacketOf(f, dir)) == Some(TierAction(store, t, dir, f))
  {
    var ids := C.PoliciesFor(t, dir);
    assert forall id :: id in ids ==> id in t.ingress + t.egress;
    JoinedPolicies(store, render, ps, ids, dir, f);
    NeverLog(store, ids, dir, f);
    if !C.AnyApplies(store, C.EnforcedOnly, ids) {
      Polprog.NoneApplies(store, ids, dir, f);
    }
    CatchAllCloses(JoinSets(ps, PolicySetIDs(ids), dir),
        if t.defaultAction != "Pass" then Block else Pass, PacketOf(f, dir));
  }

  // ----- where Windows and Linux part -----

  predicate AnyContributes(tiers: seq<C.Tier>, dir: C.Dir) { exists t :: t in tiers && Contributes(t, dir) }

  /** The walk ends where Linux goes on: at a staged-only tier that drops, or at a pass out of the last tier with
      policies when no profiles follow. */
  predicate DeadEnd(store: C.Store, tiers: seq<C.Tier>, follow: bool, dir: C.Dir, f: C.Flow) {
    if tiers == [] then false
    else if !Contributes(tiers[0], dir) then DeadEnd(store, tiers[1..], follow, dir, f)
    else
      || StagedDrop(store, tiers[0], dir, f)
      || (PassesOn(store, tiers[0], dir, f)
          && ((!follow && !AnyContributes(tiers[1..], dir)) || DeadEnd(store, tiers[1..], follow, dir, f)))
  }

  /** A walk result against a verdict. */
  predicate Decided(w: Option<Action>, allow: bool) {
    (w == Some(Allow) || w == Some(Block)) && (w == Some(Allow) <==> allow)
  }

  lemma ProfileParity(store: C.Store, render: Renderer, ps: PolicySets, wep: C.WEP, dir: C.Dir, f: C.Flow)
    requires ExactRendering(store, render, wep, true, dir, f) && Registered(ps, store, render, wep)
    ensures Decided(Walk([ProfileTier(ps, wep, dir)], PacketOf(f, dir)),
                    C.Verdict(C.ProfileTrace(store, wep.profileIds, dir, f)))
  {
    JoinedProfiles(store, render, ps, wep.profileIds, dir, f);
    NeverLogProfiles(store, wep.profileIds, dir, f);
    CatchAllCloses(JoinSets(ps, ProfileSetIDs(wep.profileIds), dir), Block, PacketOf(f, dir));
  }

  /** How the assembled tiers of a suffix start, and when there are any. */
  lemma AssembledSteps(ps: PolicySets, tiers: seq<C.Tier>, dir: C.Dir, follow: bool, prof: seq<Acl>)
    requires tiers != []
    ensures var next := Assembled(ps, tiers[1..], dir, follow, prof);
            Assembled(ps, tiers, dir, follow, prof) ==
            if Contributes(tiers[0], dir) then [TierAcls(ps, tiers[0], dir)] + next else next
    ensures AnyContributes(tiers, dir) <==> Contributes(tiers[0], dir) || AnyContributes(tiers[1..], dir)
  {
    assert forall t :: t in tiers <==> t == tiers[0] || t in tiers[1..];
  }

  lemma {:induction false} AssembledNothing(ps: PolicySets, tiers: seq<C.Tier>, dir: C.Dir, follow: bool,
      prof: seq<Acl>)
    ensures Assembled(ps, tiers, dir, follow, prof) == [] <==> !follow && !AnyContributes(tiers, dir)
  {
    if tiers != [] {
      AssembledSteps(ps, tiers, dir, follow, prof);
      AssembledNothing(ps, tiers[1..], dir, follow, prof);
    }
  }

  /** One tier in front of a tail whose walk is known. */
  lemma FrontTier(tier: seq<Acl>, next: Tiers, p: Packet, action: Action, tail: bool)
    requires FirstMatch(tier, p) == Some(action) && (next != [] ==> Decided(Walk(next, p), tail))
    ensures Decided(Walk([tier] + next, p), if action == Pass then next != [] && tail else action == Allow)
  {
    if next == [] {
      assert [tier] + next == [tier];
    } else {
      WalkCons(tier, next, p);
    }
  }

  /** What Linux allows from some tier on and no dead end stops. */
  predicate AllowsFrom(store: C.Store, tiers: seq<C.Tier>, profileIds: seq<string>, follow: bool, dir: C.Dir,
                       f: C.Flow)
  {
    C.Verdict(C.Trace(store, C.EnforcedOnly, dir, tiers, profileIds, f)) && !DeadEnd(store, tiers, follow, dir, f)
  }

  /** What the first tier does to that. */
  lemma FirstTierDecides(store: C.Store, tiers: seq<C.Tier>, profileIds: seq<string>, follow: bool, dir: C.Dir,
                         f: C.Flow)
    requires tiers != []
    ensures var action, tail := TierAction(store, tiers[0], dir, f),
              AllowsFrom(store, tiers[1..], profileIds, follow, dir, f);
            AllowsFrom(store, tiers, profileIds, follow, dir, f) <==>
            if !Contributes(tiers[0], dir) then tail
            else if action == Pass then (follow || AnyContributes(tiers[1..], dir)) && tail
            else action == Allow
  {
    C.VerdictSteps(store, C.EnforcedOnly, dir, tiers, profileIds, f);
  }

  /** One tier more in front of a tail for which the parity is known. */
  lemma StepParity(store: C.Store, ps: PolicySets, tiers: seq<C.Tier>, profileIds: seq<string>, follow: bool,
                   prof: seq<Acl>, dir: C.Dir, f: C.Flow, p: Packet)
    requires tiers != [] && (follow || AnyContributes(tiers, dir))
    requires Contributes(tiers[0], dir) ==>
               FirstMatch(TierAcls(ps, tiers[0], dir), p) == Some(TierAction(store, tiers[0], dir, f))
    requires follow || AnyContributes(tiers[1..], dir) ==>
               Decided(Walk(Assembled(ps, tiers[1..], dir, follow, prof), p),
                       AllowsFrom(store, tiers[1..], profileIds, follow, dir, f))
    ensures Decided(Walk(Assembled(ps, tiers, dir, follow, prof), p),
                    AllowsFrom(store, tiers, profileIds, follow, dir, f))
  {
    var next, tail := Assembled(ps, tiers[1..], dir, follow, prof),
      AllowsFrom(store, tiers[1..], profileIds, follow, dir, f);
    FirstTierDecides(store, tiers, profileIds, follow, dir, f);
    AssembledSteps(ps, tiers, dir, follow, prof);
    AssembledNothing(ps, tiers[1..], dir, follow, prof);
    if Contributes(tiers[0], dir) {
      FrontTier(TierAcls(ps, tiers[0], dir), next, p, TierAction(store, tiers[0], dir, f), tail);
    }
  }

  /** The walk of the assembled tiers, from every tier on, allows exactly what Linux allows and no dead end stops. */
  lemma {:induction false} WalkParity(store: C.Store, render: Renderer, ps: PolicySets, wep: C.WEP,
                                      tiers: seq<C.Tier>, follow: bool, dir: C.Dir, f: C.Flow)
    requires ExactRendering(store, render, wep, follow, dir, f) && Registered(ps, store, render, wep)
    requires (forall t :: t in tiers ==> t in wep.tiers) && (follow || AnyContributes(tiers, dir))
    ensures Decided(Walk(Assembled(ps, tiers, dir, follow, ProfileTier(ps, wep, dir)), PacketOf(f, dir)),
                    AllowsFrom(store, tiers, wep.profileIds, follow, dir, f))
    decreases tiers
  {
    var prof := ProfileTier(ps, wep, dir);
    if tiers == [] {
      ProfileParity(store, render, ps, wep, dir, f);
      assert Assembled(ps, tiers, dir, follow, prof) == [prof];
    } else {
      if follow || AnyContributes(tiers[1..], dir) {
        WalkParity(store, render, ps, wep, tiers[1..], follow, dir, f);
      }
      if Contributes(tiers[0], dir) {
        TierParity(store, render, ps, wep, follow, tiers[0], dir, f);
      }
      StepParity(store, ps, tiers, wep.profileIds, follow, prof, dir, f, PacketOf(f, dir));
    }
  }

  lemma {:induction false} NeverLogProfiles(store: C.Store, names: seq<string>, dir: C.Dir, f: C.Flow)
    ensures C.CheckProfiles(store, names, dir, f) != Some(C.Log)
  {
    if names != [] {
      NeverLogProfiles(store, names[1..], dir, f);
      if names[0] in store.profiles {
        NeverLogRules(store, C.RulesFor(store.profiles[names[0]], dir), f);
      }
    }
  }

  // ----- the rendered list -----

  /** What the list must satisfy for the flattener and the renumbering to be faithful to a packet. */
  predicate Compilable(tiers: Tiers, base: nat, limit: nat, p: Packet) {
    PassesFaithful(tiers, p) && NoWrap(Flatten(tiers), base, limit)
  }

  /** An endpoint rendered as renderHNSEndpoint does, each rule exactly. */
  ghost predicate Renderable(store: C.Store, render: Renderer, ps: PolicySets, wep: C.WEP, dir: C.Dir,
                             base: nat, limit: nat, f: C.Flow)
  {
    && ExactRendering(store, render, wep, !DefaultApplies(wep.tiers, dir), dir, f)
    && Registered(ps, store, render, wep)
    && Compilable(EndpointTiers(ps, wep, dir), base, limit, PacketOf(f, dir))
  }

  function Rendered(ps: PolicySets, wep: C.WEP, dir: C.Dir, base: nat, limit: nat): seq<Acl> {
    Rewritten(Flatten(EndpointTiers(ps, wep, dir)), base, limit)
  }

  /** Each rule of the rendered list carries the id of an input rule, and its action or a Block for a pass of the last
      tier. */
  lemma RenderedOrigins(ps: PolicySets, wep: C.WEP, dir: C.Dir, base: nat, limit: nat, k: nat)
    requires k < |Rendered(ps, wep, dir, base, limit)|
    ensures exists i, r: Acl :: 0 <= i < |EndpointTiers(ps, wep, dir)| && r in EndpointTiers(ps, wep, dir)[i]
              && Rendered(ps, wep, dir, base, limit)[k].id == r.id
              && (Rendered(ps, wep, dir, base, limit)[k].action == r.action != Pass
                  || (i == |EndpointTiers(ps, wep, dir)| - 1 && r.action == Pass
                      && Rendered(ps, wep, dir, base, limit)[k].action == Block))
  {
    var tiers := EndpointTiers(ps, wep, dir);
    var c, out := Flatten(tiers)[k], Rendered(ps, wep, dir, base, limit)[k];
    FlattenOrigins(tiers, c);
    var i, r: Acl :| 0 <= i < |tiers| && r in tiers[i] && c.id == r.id && c.priority == r.priority
      && (c.action == r.action != Pass || (i == |tiers| - 1 && r.action == Pass && c.action == Block));
    assert out.id == c.id && out.action == c.action;
  }

  /** The verdict of the program polprogRules builds. */
  predicate LinuxAllows(store: C.Store, wep: C.WEP, dir: C.Dir, f: C.Flow) {
    Polprog.Allows(store, Polprog.BuiltTiers(store, wep.tiers, dir),
        Polprog.BuiltProfiles(store, wep.profileIds, dir), f)
  }

  /** The endpoint's walk runs into a dead end. */
  predicate Stops(store: C.Store, wep: C.WEP, dir: C.Dir, f: C.Flow) {
    DeadEnd(store, wep.tiers, !DefaultApplies(wep.tiers, dir), dir, f)
  }

  /** For every endpoint and flow, whichever matching ACL of least priority Windows picks, it allows exactly what
      Linux allows and no dead end stops, and blocks the rest. */
  lemma WindowsExact(store: C.Store, render: Renderer, ps: PolicySets, wep: C.WEP, dir: C.Dir,
                     base: nat, limit: nat, f: C.Flow)
    requires Renderable(store, render, ps, wep, dir, base, limit, f)
    ensures Decides(Rendered(ps, wep, dir, base, limit), PacketOf(f, dir),
                    if LinuxAllows(store, wep, dir, f) && !Stops(store, wep, dir, f) then Allow else Block)
  {
    var follow := !DefaultApplies(wep.tiers, dir);
    assert !follow ==> AnyContributes(wep.tiers, dir);
    WalkParity(store, render, ps, wep, wep.tiers, follow, dir, f);
    Polprog.PolprogAgreesWithChecker(store, dir, wep.tiers, wep.profileIds, f);
    FlattenedRenumberedCorrect(EndpointTiers(ps, wep, dir), base, limit, PacketOf(f, dir));
  }

  /** Windows and Linux agree on a flow exactly unless Linux allows it past a dead end. */
  lemma WindowsAgreesIff(store: C.Store, render: Renderer, ps: PolicySets, wep: C.WEP, dir: C.Dir,
                         base: nat, limit: nat, f: C.Flow)
    requires Renderable(store, render, ps, wep, dir, base, limit, f)
    ensures Decides(Rendered(ps, wep, dir, base, limit), PacketOf(f, dir),
                if LinuxAllows(store, wep, dir, f) then Allow else Block)
            <==> !(LinuxAllows(store, wep, dir, f) && Stops(store, wep, dir, f))
  {
    WindowsExact(store, render, ps, wep, dir, base, limit, f);
  }

  // ----- when the lint is silent -----

  /** No default tier passes at its end. */
  predicate DefaultsDrop(tiers: seq<C.Tier>) {
    forall t :: t in tiers && t.name == "default" ==> t.defaultAction != "Pass"
  }

  /** In each tier with policies that drops at its end, some policy is enforced. */
  predicate DropsEnforced(store: C.Store, tiers: seq<C.Tier>, dir: C.Dir) {
    forall t :: t in tiers && Contributes(t, dir) && t.defaultAction != "Pass" ==>
      C.AnyApplies(store, C.EnforcedOnly, C.PoliciesFor(t, dir))
  }

  lemma {:induction false} NoPassMatched(store: C.Store, rules: seq<C.Rule>, f: C.Flow)
    requires forall r :: r in rules ==> r.action != C.Pass
    ensures C.CheckRules(store, rules, f) != Some(C.Pass)
  {
    if rules != [] { NoPassMatched(store, rules[1..], f); }
  }

  lemma {:induction false} NoPassInPolicies(store: C.Store, ids: seq<C.PolicyID>, dir: C.Dir, f: C.Flow)
    requires forall id :: id in ids ==> !Flagged(store, id)
    ensures C.CheckPolicies(store, C.EnforcedOnly, ids, dir, f) != Some(C.Pass)
  {
    if ids != [] {
      NoPassInPolicies(store, ids[1..], dir, f);
      if C.Applies(store, C.EnforcedOnly, ids[0]) {
        assert !Flagged(store, ids[0]);
        var p := store.policies[ids[0]];
        assert forall r :: r in C.RulesFor(p, dir) ==> r in p.inbound + p.outbound;
        NoPassMatched(store, C.RulesFor(p, dir), f);
      }
    }
  }

  lemma DefaultDecides(store: C.Store, t: C.Tier, dir: C.Dir, f: C.Flow)
    requires t.name == "default" && TierSilent(store, t) && t.defaultAction != "Pass"
    ensures !PassesOn(store, t, dir, f)
  {
    assert forall id :: id in C.PoliciesFor(t, dir) ==> id in t.ingress + t.egress;
    NoPassInPolicies(store, C.PoliciesFor(t, dir), dir, f);
  }

  lemma {:induction false} NoDeadEnd(store: C.Store, tiers: seq<C.Tier>, follow: bool, dir: C.Dir, f: C.Flow)
    requires forall t :: t in tiers ==> TierSilent(store, t)
    requires DefaultsDrop(tiers) && DropsEnforced(store, tiers, dir)
    requires follow || DefaultApplies(tiers, dir)
    ensures !DeadEnd(store, tiers, follow, dir, f)
  {
    if tiers != [] {
      var t := tiers[0];
      assert forall x :: x in tiers <==> x == t || x in tiers[1..];
      if Contributes(t, dir) && t.name == "default" {
        DefaultDecides(store, t, dir, f);
      } else {
        NoDeadEnd(store, tiers[1..], follow, dir, f);
      }
    }
  }

  /** Windows agrees with Linux when the Pass lint is silent, default tiers do not pass at their end, and tiers that
      drop at theirs have an enforced policy. */
  lemma WindowsAgreesWithLinux(store: C.Store, render: Renderer, ps: PolicySets, wep: C.WEP, dir: C.Dir,
                               base: nat, limit: nat, f: C.Flow)
    requires Renderable(store, render, ps, wep, dir, base, limit, f)
    requires LintSilent(store, [wep]) && DefaultsDrop(wep.tiers) && DropsEnforced(store, wep.tiers, dir)
    ensures Decides(Rendered(ps, wep, dir, base, limit), PacketOf(f, dir),
                if LinuxAllows(store, wep, dir, f) then Allow else Block)
  {
    assert wep in [wep];
    NoDeadEnd(store, wep.tiers, !DefaultApplies(wep.tiers, dir), dir, f);
    WindowsExact(store, render, ps, wep, dir, base, limit, f);
  }

  // ----- and when it is not enough -----

  /** The flow is passed on by every tier before i. */
  predicate PassedTo(store: C.Store, tiers: seq<C.Tier>, i: nat, dir: C.Dir, f: C.Flow) {
    i <= |tiers| && forall j :: 0 <= j < i && Contributes(tiers[j], dir) ==> PassesOn(store, tiers[j], dir, f)
  }

  lemma PassedTail(store: C.Store, tiers: seq<C.Tier>, i: nat, dir: C.Dir, f: C.Flow)
    requires i > 0 && PassedTo(store, tiers, i, dir, f)
    ensures Contributes(tiers[0], dir) ==> PassesOn(store, tiers[0], dir, f)
    ensures PassedTo(store, tiers[1..], i - 1, dir, f) && tiers[1..][i - 1..] == tiers[i..]
  {
    assert forall j :: 0 <= j < i - 1 ==> tiers[1..][j] == tiers[j + 1];
  }

  /** A dead end that is reached stops the walk. */
  lemma {:induction false} ReachedDeadEnd(store: C.Store, tiers: seq<C.Tier>, i: nat, follow: bool, dir: C.Dir,
      f: C.Flow)
    requires PassedTo(store, tiers, i, dir, f)
    requires DeadEnd(store, tiers[i..], follow, dir, f)
    ensures DeadEnd(store, tiers, follow, dir, f)
  {
    if i > 0 {
      PassedTail(store, tiers, i, dir, f);
      ReachedDeadEnd(store, tiers[1..], i - 1, follow, dir, f);
    } else {
      assert tiers[0..] == tiers;
    }
  }

  /** Linux leaves the flow to the tiers from i on. */
  predicate SkippedTo(store: C.Store, tiers: seq<C.Tier>, i: nat, dir: C.Dir, f: C.Flow) {
    i <= |tiers| && forall j :: 0 <= j < i && Contributes(tiers[j], dir) ==>
      PassesOn(store, tiers[j], dir, f) || StagedDrop(store, tiers[j], dir, f)
  }

  /** Tiers that Linux skips or passes leave the verdict to the rest. */
  lemma {:induction false} SkippedVerdict(store: C.Store, tiers: seq<C.Tier>, profileIds: seq<string>, i: nat,
      dir: C.Dir, f: C.Flow)
    requires SkippedTo(store, tiers, i, dir, f)
    ensures C.Verdict(C.Trace(store, C.EnforcedOnly, dir, tiers, profileIds, f))
            == C.Verdict(C.Trace(store, C.EnforcedOnly, dir, tiers[i..], profileIds, f))
  {
    if i > 0 {
      C.VerdictSteps(store, C.EnforcedOnly, dir, tiers, profileIds, f);
      assert tiers[1..][i - 1..] == tiers[i..];
      assert forall j :: 0 <= j < i - 1 ==> tiers[1..][j] == tiers[j + 1];
      SkippedVerdict(store, tiers[1..], profileIds, i - 1, dir, f);
    } else {
      assert tiers[0..] == tiers;
    }
  }

  /** A dead end is a block, whatever Linux says. */
  lemma DeadEndBlocks(store: C.Store, render: Renderer, ps: PolicySets, wep: C.WEP, dir: C.Dir,
                      base: nat, limit: nat, f: C.Flow)
    requires Renderable(store, render, ps, wep, dir, base, limit, f) && Stops(store, wep, dir, f)
    ensures Decides(Rendered(ps, wep, dir, base, limit), PacketOf(f, dir), Block)
  {
    WindowsExact(store, render, ps, wep, dir, base, limit, f);
  }

  lemma LinuxSkips(store: C.Store, wep: C.WEP, i: nat, dir: C.Dir, f: C.Flow)
    requires SkippedTo(store, wep.tiers, i, dir, f)
    ensures LinuxAllows(store, wep, dir, f) <==>
            C.Verdict(C.Trace(store, C.EnforcedOnly, dir, wep.tiers[i..], wep.profileIds, f))
  {
    Polprog.PolprogAgreesWithChecker(store, dir, wep.tiers, wep.profileIds, f);
    SkippedVerdict(store, wep.tiers, wep.profileIds, i, dir, f);
  }

  /** The last tier with policies passes the flow on and no profiles follow. */
  predicate TerminalPass(store: C.Store, wep: C.WEP, i: nat, dir: C.Dir, f: C.Flow) {
    && DefaultApplies(wep.tiers, dir) && i < |wep.tiers| && PassedTo(store, wep.tiers, i + 1, dir, f)
    && Contributes(wep.tiers[i], dir) && !AnyContributes(wep.tiers[i + 1..], dir)
  }

  lemma TerminalPassStops(store: C.Store, wep: C.WEP, i: nat, dir: C.Dir, f: C.Flow)
    requires TerminalPass(store, wep, i, dir, f)
    ensures Stops(store, wep, dir, f) && SkippedTo(store, wep.tiers, |wep.tiers|, dir, f)
  {
    forall j | i < j < |wep.tiers| ensures !Contributes(wep.tiers[j], dir) {
      assert wep.tiers[j] == wep.tiers[i + 1..][j - i - 1];
    }
    assert wep.tiers[i..][0] == wep.tiers[i] && wep.tiers[i..][1..] == wep.tiers[i + 1..];
    ReachedDeadEnd(store, wep.tiers, i, false, dir, f);
  }

  /** What the lint warns of, and one case it does not look at: a pass out of the last tier with policies, by a
      Pass rule or by the tier's default action, is a block on Windows, while Linux asks the profiles. */
  lemma TerminalPassDiverges(store: C.Store, render: Renderer, ps: PolicySets, wep: C.WEP, dir: C.Dir,
                             base: nat, limit: nat, f: C.Flow, i: nat)
    requires Renderable(store, render, ps, wep, dir, base, limit, f) && TerminalPass(store, wep, i, dir, f)
    ensures Decides(Rendered(ps, wep, dir, base, limit), PacketOf(f, dir), Block)
    ensures LinuxAllows(store, wep, dir, f) <==> C.CheckProfiles(store, wep.profileIds, dir, f) == Some(C.Allow)
  {
    TerminalPassStops(store, wep, i, dir, f);
    DeadEndBlocks(store, render, ps, wep, dir, base, limit, f);
    LinuxSkips(store, wep, |wep.tiers|, dir, f);
  }

  /** A tier that is reached, whose policies are all staged, and that drops at its end. */
  predicate StagedOnly(store: C.Store, wep: C.WEP, i: nat, dir: C.Dir, f: C.Flow) {
    && i < |wep.tiers| && PassedTo(store, wep.tiers, i, dir, f)
    && Contributes(wep.tiers[i], dir) && StagedDrop(store, wep.tiers[i], dir, f)
  }

  lemma StagedOnlyStops(store: C.Store, wep: C.WEP, i: nat, dir: C.Dir, f: C.Flow)
    requires StagedOnly(store, wep, i, dir, f)
    ensures Stops(store, wep, dir, f) && SkippedTo(store, wep.tiers, i + 1, dir, f)
  {
    assert wep.tiers[i..][0] == wep.tiers[i];
    ReachedDeadEnd(store, wep.tiers, i, !DefaultApplies(wep.tiers, dir), dir, f);
  }

  /** A second divergence: such a tier drops on Windows, while Linux skips it. */
  lemma StagedOnlyTierDiverges(store: C.Store, render: Renderer, ps: PolicySets, wep: C.WEP, dir: C.Dir,
                               base: nat, limit: nat, f: C.Flow, i: nat)
    requires Renderable(store, render, ps, wep, dir, base, limit, f) && StagedOnly(store, wep, i, dir, f)
    ensures Decides(Rendered(ps, wep, dir, base, limit), PacketOf(f, dir), Block)
    ensures LinuxAllows(store, wep, dir, f) <==>
            C.Verdict(C.Trace(store, C.EnforcedOnly, dir, wep.tiers[i + 1..], wep.profileIds, f))
  {
    StagedOnlyStops(store, wep, i, dir, f);
    DeadEndBlocks(store, render, ps, wep, dir, base, limit, f);
    LinuxSkips(store, wep, i + 1, dir, f);
  }

  // ----- an endpoint on which the lint is silent and the two differ -----

  const NO_RULES := C.Policy([], [])
  const OPEN := C.Policy([C.ALLOW_ALL], [C.ALLOW_ALL])
  const EMPTY_POLICY := C.PolicyID("GlobalNetworkPolicy", "", "empty")

  /** One default tier that passes at its end, holding a policy without rules, and a profile that allows. */
  const PASSING_END := C.WEP([C.Tier("default", "Pass", [EMPTY_POLICY], [EMPTY_POLICY])], ["open"])

  /** One default tier with a staged policy, and a profile that allows. */
  const STAGED_POLICY := C.PolicyID("StagedGlobalNetworkPolicy", "", "staged")
  const STAGED_TIER := C.WEP([C.Tier("default", "Deny", [STAGED_POLICY], [STAGED_POLICY])], ["open"])

  const SMALL_STORE := C.Store(map[EMPTY_POLICY := NO_RULES, STAGED_POLICY := NO_RULES], map["open" := OPEN],
    map[], _ => None)

  function OneAcl(r: C.Rule, dir: C.Dir): seq<Acl> { [AnyRule("r", ToAcl(r.action))] }

  function SmallSets(): PolicySets {
    map[PolicySet(EMPTY_POLICY) := RenderPolicy(OneAcl, NO_RULES), ProfileSet("open") := RenderPolicy(OneAcl, OPEN)]
  }

  lemma OpenProfileAllows(dir: C.Dir, f: C.Flow)
    ensures C.CheckProfiles(SMALL_STORE, ["open"], dir, f) == Some(C.Allow)
  {
    assert C.RuleMatches(SMALL_STORE, C.ALLOW_ALL, f);
    assert C.RulesFor(SMALL_STORE.profiles["open"], dir)[0] == C.ALLOW_ALL;
    assert C.CheckRules(SMALL_STORE, [C.ALLOW_ALL], f) == Some(C.Allow);
  }

  /** A list of one tier that is one catch-all compiles to itself. */
  lemma OneCatchAll(ps: PolicySets, wep: C.WEP, dir: C.Dir, base: nat, limit: nat, action: Action, p: Packet)
    requires EndpointTiers(ps, wep, dir) == [[CatchAll(action)]]
    ensures Compilable(EndpointTiers(ps, wep, dir), base, limit, p)
  {
    var tiers := [[CatchAll(action)]];
    assert tiers[1..] == [];
    assert Flatten(tiers) == BlockPasses([CatchAll(action)]);
  }

  lemma SmallKinds()
    ensures C.KindIsStaged(STAGED_POLICY.kind) && !C.KindIsStaged(EMPTY_POLICY.kind)
  {
    var staged, other := STAGED_POLICY.kind, EMPTY_POLICY.kind;
    assert staged == "Staged" + "GlobalNetworkPolicy";
    assert "Staged"[0] == 'S' && other[0] == 'G';
  }

  /** The one tier of a small endpoint renders to the catch-all of its end. */
  lemma SmallTier(wep: C.WEP, dir: C.Dir)
    requires wep == PASSING_END || wep == STAGED_TIER
    ensures wep.tiers[0] in wep.tiers && Contributes(wep.tiers[0], dir) && DefaultApplies(wep.tiers, dir)
    ensures EndpointTiers(SmallSets(), wep, dir) == [[CatchAll(if wep == PASSING_END then Pass else Block)]]
  {
    var ps, t := SmallSets(), wep.tiers[0];
    var id := C.PoliciesFor(t, dir)[0];
    assert t in wep.tiers && Contributes(t, dir);
    assert PolicySetIDs([id]) == [PolicySet(id)] && PolicySetIDs([id])[1..] == [];
    var joined := JoinSets(ps, PolicySetIDs([id]), dir);
    assert joined == [] by {
      assert RenderRules(OneAcl, [], dir) == [];
      assert JoinSets(ps, [], dir) == [];
    }
    var end := if wep == PASSING_END then Pass else Block;
    assert TierAcls(ps, t, dir) == joined + [CatchAll(end)] == [CatchAll(end)];
    assert PolicyTiers(ps, wep.tiers[1..], dir) == [];
    assert PolicyTiers(ps, wep.tiers, dir) == [TierAcls(ps, t, dir)];
    assert PolicyTiers(ps, wep.tiers, dir) + [] == [[CatchAll(end)]];
  }

  lemma SmallRegistered(wep: C.WEP)
    requires wep == PASSING_END || wep == STAGED_TIER
    ensures Registered(SmallSets(), SMALL_STORE, OneAcl, wep) && LintSilent(SMALL_STORE, [wep])
  {
    SmallKinds();
  }

  lemma SmallRenderable(wep: C.WEP, dir: C.Dir, base: nat, limit: nat, f: C.Flow)
    requires wep == PASSING_END || wep == STAGED_TIER
    ensures Renderable(SMALL_STORE, OneAcl, SmallSets(), wep, dir, base, limit, f)
  {
    SmallRegistered(wep);
    SmallTier(wep, dir);
    assert C.RulesFor(NO_RULES, dir) == [];
    OneCatchAll(SmallSets(), wep, dir, base, limit, if wep == PASSING_END then Pass else Block, PacketOf(f, dir));
  }

  /** The tier passes at its end, or is staged and drops. */
  lemma SmallEnds(dir: C.Dir, f: C.Flow)
    ensures TerminalPass(SMALL_STORE, PASSING_END, 0, dir, f) && StagedOnly(SMALL_STORE, STAGED_TIER, 0, dir, f)
  {
    SmallKinds();
    SmallTier(PASSING_END, dir);
    SmallTier(STAGED_TIER, dir);
    assert C.CheckRules(SMALL_STORE, C.RulesFor(NO_RULES, dir), f) == None;
    assert C.CheckPolicies(SMALL_STORE, C.EnforcedOnly, [EMPTY_POLICY], dir, f) == None by {
      assert C.CheckPolicies(SMALL_STORE, C.EnforcedOnly, [EMPTY_POLICY][1..], dir, f) == None;
    }
  }

  lemma SmallStops(wep: C.WEP, dir: C.Dir, f: C.Flow)
    requires wep == PASSING_END || wep == STAGED_TIER
    ensures Stops(SMALL_STORE, wep, dir, f) && SkippedTo(SMALL_STORE, wep.tiers, 1, dir, f)
  {
    SmallEnds(dir, f);
    if wep == PASSING_END {
      TerminalPassStops(SMALL_STORE, wep, 0, dir, f);
    } else {
      StagedOnlyStops(SMALL_STORE, wep, 0, dir, f);
    }
  }

  lemma SmallLinuxAllows(wep: C.WEP, dir: C.Dir, f: C.Flow)
    requires wep == PASSING_END || wep == STAGED_TIER
    ensures LinuxAllows(SMALL_STORE, wep, dir, f)
  {
    SmallStops(wep, dir, f);
    OpenProfileAllows(dir, f);
    LinuxSkips(SMALL_STORE, wep, 1, dir, f);
    assert wep.tiers[1..] == [] && wep.profileIds == ["open"];
  }

  /** With a silent lint Windows blocks, and Linux allows, every flow of either endpoint, in both directions. */
  lemma SilentLintDiverges(wep: C.WEP, dir: C.Dir, base: nat, limit: nat, f: C.Flow)
    requires wep == PASSING_END || wep == STAGED_TIER
    ensures LintSilent(SMALL_STORE, [wep])
    ensures Renderable(SMALL_STORE, OneAcl, SmallSets(), wep, dir, base, limit, f)
    ensures LinuxAllows(SMALL_STORE, wep, dir, f)
    ensures Decides(Rendered(SmallSets(), wep, dir, base, limit), PacketOf(f, dir), Block)
  {
    SmallRegistered(wep);
    SmallRenderable(wep, dir, base, limit, f);
    SmallStops(wep, dir, f);
    DeadEndBlocks(SMALL_STORE, OneAcl, SmallSets(), wep, dir, base, limit, f);
    SmallLinuxAllows(wep, dir, f);
  }
}
