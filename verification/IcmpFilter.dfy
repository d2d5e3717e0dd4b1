/** Feed-time ICMP filtering: rules whose icmp matchers contradict the probe are dropped before a checker
    that never reads those matchers sees the policy. */
module IcmpFilter {
  import opened Text
  import opened Checker

  /** The type and code a request commits to; at least one is set. */
  datatype IcmpProbe = IcmpProbe(typ: Option<int>, code: Option<int>)

  /** newICMPProbe: inactive unless the request sets one of them. */
  function NewICMPProbe(typ: Option<int>, code: Option<int>): (p: Option<IcmpProbe>)
    ensures p.None? <==> typ.None? && code.None?
    ensures p.Some? ==> p.value.typ == typ && p.value.code == code
  {
    if typ.None? && code.None? then None else Some(IcmpProbe(typ, code))
  }

  // ----- one rule -----

  /** ruleICMPMatchesProbe, branch by branch. */
  method RuleICMPMatchesProbe(r: Rule, p: IcmpProbe) returns (ok: bool)
    ensures ok <==> Admits(r, p)
  {
    AdmitsByFields(r, p);
    if r.icmp.Some? {
      if r.icmp.value.typ.Some? {
        if p.typ.None? || r.icmp.value.typ.value != p.typ.value {
          return false;
        }
      }
      if r.icmp.value.code.Some? {
        if p.code.None? || r.icmp.value.code.value != p.code.value {
          return false;
        }
      }
    }
    if r.notIcmp.Some? {
      var excludes := true;
      if r.notIcmp.value.typ.Some? {
        if p.typ.None? || r.notIcmp.value.typ.value != p.typ.value {
          excludes := false;
        }
      }
      if excludes && r.notIcmp.value.code.Some? {
        if p.code.None? || r.notIcmp.value.code.value != p.code.value {
          excludes := false;
        }
      }
      if r.notIcmp.value.typ.None? && r.notIcmp.value.code.None? {
        excludes := false;
      }
      if excludes {
        return false;
      }
    }
    return true;
  }

  /** A packet of this type and code carries every field the matcher sets. */
  predicate Fits(m: Icmp, typ: int, code: int) {
    (m.typ.Some? ==> m.typ.value == typ) && (m.code.Some? ==> m.code.value == code)
  }

  predicate Blank(m: Icmp) { m.typ.None? && m.code.None? }

  /** A packet the request may stand for. */
  predicate Possible(p: IcmpProbe, typ: int, code: int) {
    (p.typ.Some? ==> p.typ.value == typ) && (p.code.Some? ==> p.code.value == code)
  }

  ghost predicate AllFit(m: Icmp, p: IcmpProbe) { forall typ, code :: Possible(p, typ, code) ==> Fits(m, typ, code) }

  /** What a rule asks of a packet, over all packets the request may stand for: all of them must carry the
      icmp fields, and not all of them those of a notIcmp that sets any. */
  ghost predicate Admits(r: Rule, p: IcmpProbe) {
    && (r.icmp.Some? ==> AllFit(r.icmp.value, p))
    && (r.notIcmp.Some? && !Blank(r.notIcmp.value) ==> !AllFit(r.notIcmp.value, p))
  }

  predicate FieldsEqual(m: Icmp, p: IcmpProbe) {
    (m.typ.Some? ==> m.typ == p.typ) && (m.code.Some? ==> m.code == p.code)
  }

  /** Every packet the request may stand for carries the fields exactly when the request pins them so. */
  lemma AllFitByFields(m: Icmp, p: IcmpProbe)
    ensures AllFit(m, p) <==> FieldsEqual(m, p)
  {
    var t := if p.typ.Some? then p.typ.value else if m.typ.Some? then m.typ.value + 1 else 0;
    var c := if p.code.Some? then p.code.value else if m.code.Some? then m.code.value + 1 else 0;
    assert Possible(p, t, c);
    assert Fits(m, t, c) <==> FieldsEqual(m, p);
  }

  lemma AdmitsByFields(r: Rule, p: IcmpProbe)
    ensures r.icmp.Some? ==> (AllFit(r.icmp.value, p) <==> FieldsEqual(r.icmp.value, p))
    ensures r.notIcmp.Some? ==> (AllFit(r.notIcmp.value, p) <==> FieldsEqual(r.notIcmp.value, p))
  {
    if r.icmp.Some? { AllFitByFields(r.icmp.value, p); }
    if r.notIcmp.Some? { AllFitByFields(r.notIcmp.value, p); }
  }

  /** For a request that pins both fields a rule admits the probe exactly when the one packet it stands for
      fits icmp and does not fit notIcmp as a pair. */
  lemma PinnedProbe(r: Rule, typ: int, code: int)
    ensures Admits(r, IcmpProbe(Some(typ), Some(code))) <==>
            (r.icmp.Some? ==> Fits(r.icmp.value, typ, code))
            && (r.notIcmp.Some? && !Blank(r.notIcmp.value) ==> !Fits(r.notIcmp.value, typ, code))
  {
    AdmitsByFields(r, IcmpProbe(Some(typ), Some(code)));
  }

  // ----- a rule list -----

  ghost predicate Passes(r: Rule, p: Option<IcmpProbe>) { p.None? || Admits(r, p.value) }

  ghost function Filtered(rules: seq<Rule>, p: Option<IcmpProbe>): seq<Rule> {
    if rules == [] then [] else (if Passes(rules[0], p) then [rules[0]] else []) + Filtered(rules[1..], p)
  }

  lemma {:induction false} InactiveFilter(rules: seq<Rule>)
    ensures Filtered(rules, None) == rules
  {
    if rules != [] { InactiveFilter(rules[1..]); }
  }

  lemma FilteredStep(rules: seq<Rule>, p: Option<IcmpProbe>, i: nat, out: seq<Rule>)
    requires i < |rules|
    ensures out + Filtered(rules[i..], p)
            == (if Passes(rules[i], p) then out + [rules[i]] else out) + Filtered(rules[i + 1..], p)
  {
    assert rules[i..][1..] == rules[i + 1..];
  }

  /** filterRulesByICMP. */
  method FilterRulesByICMP(rules: seq<Rule>, p: Option<IcmpProbe>) returns (out: seq<Rule>)
    ensures out == Filtered(rules, p)
  {
    if p.None? {
      InactiveFilter(rules);
      return rules;
    }
    out := [];
    for i := 0 to |rules|
      invariant Filtered(rules, p) == out + Filtered(rules[i..], p)
    {
      FilteredStep(rules, p, i, out);
      var ok := RuleICMPMatchesProbe(rules[i], p.value);
      if ok {
        out := out + [rules[i]];
      }
    }
  }

  // ----- the resources -----

  datatype Kind = NetworkPolicy | GlobalNetworkPolicy | StagedNetworkPolicy | StagedGlobalNetworkPolicy | OtherKind

  /** The part of a resource the feed touches. */
  class Resource {
    const kind: Kind
    var types: set<Dir>
    var ingress: seq<Rule>
    var egress: seq<Rule>

    constructor (k: Kind, t: set<Dir>, ins: seq<Rule>, outs: seq<Rule>)
      ensures kind == k && types == t && ingress == ins && egress == outs
    {
      kind, types, ingress, egress := k, t, ins, outs;
    }

    /** defaultPolicyTypes: unset types are inferred from the rule lists present. */
    method DefaultPolicyTypes()
      modifies this`types
      ensures types == Inferred(old(types), ingress, egress)
    {
      if types != {} {
        return;
      }
      if egress == [] {
        types := {Ingress};
      } else if ingress == [] {
        types := {Egress};
      } else {
        types := {Ingress, Egress};
      }
    }

    /** applyICMPFilter. */
    method ApplyICMPFilter(p: Option<IcmpProbe>)
      modifies this`ingress, this`egress
      ensures kind != OtherKind ==> ingress == Filtered(old(ingress), p) && egress == Filtered(old(egress), p)
      ensures kind == OtherKind ==> ingress == old(ingress) && egress == old(egress)
    {
      if p.None? {
        InactiveFilter(ingress);
        InactiveFilter(egress);
        return;
      }
      match kind {
        case NetworkPolicy | GlobalNetworkPolicy | StagedNetworkPolicy | StagedGlobalNetworkPolicy =>
          ingress := FilterRulesByICMP(ingress, p);
          egress := FilterRulesByICMP(egress, p);
        case OtherKind =>
      }
    }

    /** The order of the feed: types first, from the rules as written. */
    method Feed(typ: Option<int>, code: Option<int>)
      requires kind != OtherKind
      modifies this
      ensures types == Inferred(old(types), old(ingress), old(egress))
      ensures ingress == Filtered(old(ingress), NewICMPProbe(typ, code))
      ensures egress == Filtered(old(egress), NewICMPProbe(typ, code))
    {
      DefaultPolicyTypes();
      ApplyICMPFilter(NewICMPProbe(typ, code));
    }
  }

  function Inferred(types: set<Dir>, ingress: seq<Rule>, egress: seq<Rule>): set<Dir> {
    if types != {} then types
    else if egress == [] then {Ingress} else if ingress == [] then {Egress} else {Ingress, Egress}
  }

  /** Types that are set stay. Unset ones cover a direction that has rules, and ingress also when neither has. */
  lemma InferredMeaning(types: set<Dir>, ingress: seq<Rule>, egress: seq<Rule>)
    ensures var t := Inferred(types, ingress, egress);
            && (types != {} ==> t == types)
            && (types == {} ==> (Egress in t <==> egress != []) && (Ingress in t <==> ingress != [] || egress == []))
  {
  }

  /** Filtering first would infer other types exactly when types are unset and the filter empties a rule
      list that mattered: a non-empty egress, or an ingress beside one that survives. */
  lemma TypesBeforeFilter(types: set<Dir>, ingress: seq<Rule>, egress: seq<Rule>, p: Option<IcmpProbe>)
    ensures Inferred(types, Filtered(ingress, p), Filtered(egress, p)) != Inferred(types, ingress, egress) <==>
            types == {} && egress != []
            && (Filtered(egress, p) == [] || (ingress != [] && Filtered(ingress, p) == []))
  {
    assert {Ingress} != {Egress} && {Ingress} != {Ingress, Egress} && {Egress} != {Ingress, Egress} by {
      assert Egress !in {Ingress} && Ingress !in {Egress};
    }
  }

  // ----- the whole walk -----

  ghost function FilteredPolicy(policy: Policy, p: Option<IcmpProbe>): Policy {
    Policy(Filtered(policy.inbound, p), Filtered(policy.outbound, p))
  }

  /** The store the calculation graph builds from filtered policies. Profiles are generated from namespaces
      and service accounts and never pass the filter. */
  ghost function FilteredStore(store: Store, p: Option<IcmpProbe>): Store {
    store.(policies := map id | id in store.policies :: FilteredPolicy(store.policies[id], p))
  }

  ghost predicate IcmpFree(rules: seq<Rule>) { forall r :: r in rules ==> r.icmp.None? && r.notIcmp.None? }

  ghost predicate PlainProfiles(store: Store) {
    forall n :: n in store.profiles ==> IcmpFree(store.profiles[n].inbound) && IcmpFree(store.profiles[n].outbound)
  }

  /** The reference: a checker that reads the icmp matchers of every rule. */
  ghost function AwareRules(store: Store, rules: seq<Rule>, f: Flow, p: Option<IcmpProbe>): Option<RuleAction> {
    if rules == [] then None
    else if rules[0].action != Log && RuleMatches(store, rules[0], f) && Passes(rules[0], p) then Some(rules[0].action)
    else AwareRules(store, rules[1..], f, p)
  }

  ghost function AwarePolicies(store: Store, scope: Scope, ids: seq<PolicyID>, dir: Dir, f: Flow,
      p: Option<IcmpProbe>): Option<RuleAction>
  {
    if ids == [] then None
    else
      var a := if Applies(store, scope, ids[0])
          then AwareRules(store, RulesFor(store.policies[ids[0]], dir), f, p) else None;
      if a.Some? then a else AwarePolicies(store, scope, ids[1..], dir, f, p)
  }

  ghost function AwareTier(store: Store, scope: Scope, t: Tier, dir: Dir, f: Flow,
      p: Option<IcmpProbe>): Option<RuleID>
  {
    var ids := PoliciesFor(t, dir);
    if !AnyApplies(store, scope, ids) then None
    else
      var a := AwarePolicies(store, scope, ids, dir, f, p);
      if a.Some? then Some(RuleID(false, t.name, a.value, false))
      else Some(RuleID(false, t.name, if t.defaultAction == "Pass" then Pass else Deny, true))
  }

  ghost function AwareProfiles(store: Store, names: seq<string>, dir: Dir, f: Flow,
      p: Option<IcmpProbe>): Option<RuleAction>
  {
    if names == [] then None
    else
      var a := if names[0] in store.profiles
          then AwareRules(store, RulesFor(store.profiles[names[0]], dir), f, p) else None;
      if a.Some? then a else AwareProfiles(store, names[1..], dir, f, p)
  }

  ghost function AwareTrace(store: Store, scope: Scope, dir: Dir, tiers: seq<Tier>, profileIds: seq<string>, f: Flow,
                            p: Option<IcmpProbe>): seq<RuleID>
  {
    if tiers == [] then
      var a := AwareProfiles(store, profileIds, dir, f, p);
      if a.Some? then [RuleID(true, "__PROFILE__", a.value, false)] else [RuleID(true, "__PROFILE__", Deny, true)]
    else
      var e := AwareTier(store, scope, tiers[0], dir, f, p);
      var rest := AwareTrace(store, scope, dir, tiers[1..], profileIds, f, p);
      if e.None? then rest else if e.value.action == Pass then [e.value] + rest else [e.value]
  }

  /** Matching reads nothing of the store that the filter touches. */
  lemma MatchesUnfiltered(store: Store, r: Rule, f: Flow, p: Option<IcmpProbe>)
    ensures RuleMatches(FilteredStore(store, p), r, f) == RuleMatches(store, r, f)
  {
    var filtered := FilteredStore(store, p);
    assert forall id, v :: Member(filtered, id, v) == Member(store, id, v);
    assert forall n, ip :: InNet(filtered, n, ip) == InNet(store, n, ip);
  }

  lemma {:induction false} FilteredRulesWalk(store: Store, rules: seq<Rule>, f: Flow, p: Option<IcmpProbe>)
    ensures CheckRules(FilteredStore(store, p), Filtered(rules, p), f) == AwareRules(store, rules, f, p)
  {
    if rules != [] {
      MatchesUnfiltered(store, rules[0], f, p);
      FilteredRulesWalk(store, rules[1..], f, p);
      var rest := Filtered(rules[1..], p);
      assert ([rules[0]] + rest)[1..] == rest;
      assert Filtered(rules, p) == if Passes(rules[0], p) then [rules[0]] + rest else rest;
    }
  }

  lemma {:induction false} IcmpFreeWalk(store: Store, rules: seq<Rule>, f: Flow, p: Option<IcmpProbe>)
    requires IcmpFree(rules)
    ensures CheckRules(FilteredStore(store, p), rules, f) == AwareRules(store, rules, f, p)
  {
    if rules != [] {
      assert rules[0] in rules;
      MatchesUnfiltered(store, rules[0], f, p);
      IcmpFreeWalk(store, rules[1..], f, p);
    }
  }

  lemma {:induction false} FilteredPoliciesWalk(store: Store, scope: Scope, ids: seq<PolicyID>, dir: Dir, f: Flow,
      p: Option<IcmpProbe>)
    ensures CheckPolicies(FilteredStore(store, p), scope, ids, dir, f) == AwarePolicies(store, scope, ids, dir, f, p)
  {
    if ids != [] {
      if ids[0] in store.policies {
        FilteredRulesWalk(store, RulesFor(store.policies[ids[0]], dir), f, p);
      }
      FilteredPoliciesWalk(store, scope, ids[1..], dir, f, p);
    }
  }

  lemma FilteredTierWalk(store: Store, scope: Scope, t: Tier, dir: Dir, f: Flow, p: Option<IcmpProbe>)
    ensures CheckTier(FilteredStore(store, p), scope, t, dir, f) == AwareTier(store, scope, t, dir, f, p)
  {
    FilteredPoliciesWalk(store, scope, PoliciesFor(t, dir), dir, f, p);
    assert forall id :: Applies(FilteredStore(store, p), scope, id) == Applies(store, scope, id);
  }

  lemma {:induction false} FilteredProfilesWalk(store: Store, names: seq<string>, dir: Dir, f: Flow,
      p: Option<IcmpProbe>)
    requires PlainProfiles(store)
    ensures CheckProfiles(FilteredStore(store, p), names, dir, f) == AwareProfiles(store, names, dir, f, p)
  {
    if names != [] {
      if names[0] in store.profiles {
        IcmpFreeWalk(store, RulesFor(store.profiles[names[0]], dir), f, p);
      }
      FilteredProfilesWalk(store, names[1..], dir, f, p);
    }
  }

  /** The icmp-blind checker over filtered policies leaves the trace, end-of-tier marks included, of the
      icmp-aware walk over the policies as written: for every probe, stack of tiers, scope and flow. */
  lemma {:induction false} FilterPreservesMeaning(store: Store, scope: Scope, dir: Dir, tiers: seq<Tier>,
      profileIds: seq<string>, f: Flow, p: Option<IcmpProbe>)
    requires PlainProfiles(store)
    ensures Trace(FilteredStore(store, p), scope, dir, tiers, profileIds, f)
            == AwareTrace(store, scope, dir, tiers, profileIds, f, p)
  {
    if tiers == [] {
      FilteredProfilesWalk(store, profileIds, dir, f, p);
    } else {
      FilteredTierWalk(store, scope, tiers[0], dir, f, p);
      FilterPreservesMeaning(store, scope, dir, tiers[1..], profileIds, f, p);
    }
  }

  /** A policy the filter empties still isolates: a tier whose policies are all emptied ends in its
      default action, and is not skipped. */
  lemma EmptiedPoliciesIsolate(store: Store, scope: Scope, t: Tier, dir: Dir, f: Flow, p: Option<IcmpProbe>)
    requires AnyApplies(store, scope, PoliciesFor(t, dir))
    requires forall id :: id in PoliciesFor(t, dir) && id in store.policies ==>
             Filtered(RulesFor(store.policies[id], dir), p) == []
    ensures CheckTier(FilteredStore(store, p), scope, t, dir, f)
            == Some(RuleID(false, t.name, if t.defaultAction == "Pass" then Pass else Deny, true))
  {
    var ids := PoliciesFor(t, dir);
    assert forall id :: Applies(FilteredStore(store, p), scope, id) == Applies(store, scope, id);
    EmptiedListsDecideNothing(store, scope, ids, dir, f, p);
  }

  lemma {:induction false} EmptiedListsDecideNothing(store: Store, scope: Scope, ids: seq<PolicyID>, dir: Dir,
      f: Flow, p: Option<IcmpProbe>)
    requires forall id :: id in ids && id in store.policies ==> Filtered(RulesFor(store.policies[id], dir), p) == []
    ensures CheckPolicies(FilteredStore(store, p), scope, ids, dir, f) == None
  {
    if ids != [] {
      assert ids[0] in ids;
      EmptiedListsDecideNothing(store, scope, ids[1..], dir, f, p);
    }
  }

  // ----- when the filter changes no decision -----

  predicate Decides(store: Store, r: Rule, f: Flow) { r.action != Log && RuleMatches(store, r, f) }

  /** The rule that decides a flow. */
  function Decider(store: Store, rules: seq<Rule>, f: Flow): Option<Rule> {
    if rules == [] then None
    else if Decides(store, rules[0], f) then Some(rules[0]) else Decider(store, rules[1..], f)
  }

  lemma {:induction false} DeciderActs(store: Store, rules: seq<Rule>, f: Flow)
    ensures CheckRules(store, rules, f) ==
            var d := Decider(store, rules, f); if d.Some? then Some(d.value.action) else None
  {
    if rules != [] { DeciderActs(store, rules[1..], f); }
  }

  lemma {:induction false} FilteredDecider(store: Store, rules: seq<Rule>, f: Flow, p: Option<IcmpProbe>)
    ensures var d := Decider(store, Filtered(rules, p), f); d.Some? ==> Passes(d.value, p)
    ensures var d := Decider(store, rules, f);
            d.None? || Passes(d.value, p) ==> Decider(store, Filtered(rules, p), f) == d
  {
    if rules != [] {
      FilteredDecider(store, rules[1..], f, p);
      var rest := Filtered(rules[1..], p);
      assert ([rules[0]] + rest)[1..] == rest;
      assert Filtered(rules, p) == if Passes(rules[0], p) then [rules[0]] + rest else rest;
    }
  }

  /** Whatever the protocol of the flow: it keeps its deciding rule exactly when that rule passes the filter. */
  lemma DeciderKeptIff(store: Store, rules: seq<Rule>, f: Flow, p: Option<IcmpProbe>)
    ensures var d := Decider(store, rules, f);
            Decider(store, Filtered(rules, p), f) == d <==> d.None? || Passes(d.value, p)
  {
    FilteredDecider(store, rules, f, p);
  }

  /** No policy decides the flow by a rule the filter drops. */
  ghost predicate Undisturbed(store: Store, dir: Dir, f: Flow, p: Option<IcmpProbe>) {
    forall id :: id in store.policies ==> KeepsDecider(store, RulesFor(store.policies[id], dir), f, p)
  }

  ghost predicate KeepsDecider(store: Store, rules: seq<Rule>, f: Flow, p: Option<IcmpProbe>) {
    var d := Decider(store, rules, f); d.None? || Passes(d.value, p)
  }

  /** Then the whole trace is that of the unfiltered store. */
  lemma {:induction false} UndisturbedTrace(store: Store, scope: Scope, dir: Dir, tiers: seq<Tier>,
      profileIds: seq<string>, f: Flow, p: Option<IcmpProbe>)
    requires Undisturbed(store, dir, f, p)
    ensures Trace(FilteredStore(store, p), scope, dir, tiers, profileIds, f)
            == Trace(store, scope, dir, tiers, profileIds, f)
  {
    if tiers == [] {
      UndisturbedProfiles(store, profileIds, dir, f, p);
    } else {
      UndisturbedTier(store, scope, tiers[0], dir, f, p);
      UndisturbedTrace(store, scope, dir, tiers[1..], profileIds, f, p);
    }
  }

  lemma {:induction false} SameStoreSameRules(store: Store, rules: seq<Rule>, f: Flow, p: Option<IcmpProbe>)
    ensures CheckRules(FilteredStore(store, p), rules, f) == CheckRules(store, rules, f)
  {
    if rules != [] {
      MatchesUnfiltered(store, rules[0], f, p);
      SameStoreSameRules(store, rules[1..], f, p);
    }
  }

  lemma {:induction false} UndisturbedPolicies(store: Store, scope: Scope, ids: seq<PolicyID>, dir: Dir, f: Flow,
      p: Option<IcmpProbe>)
    requires Undisturbed(store, dir, f, p)
    ensures CheckPolicies(FilteredStore(store, p), scope, ids, dir, f) == CheckPolicies(store, scope, ids, dir, f)
  {
    if ids != [] {
      if ids[0] in store.policies {
        var rules := RulesFor(store.policies[ids[0]], dir);
        SameStoreSameRules(store, Filtered(rules, p), f, p);
        FilteredDecider(store, rules, f, p);
        DeciderActs(store, rules, f);
        DeciderActs(store, Filtered(rules, p), f);
      }
      UndisturbedPolicies(store, scope, ids[1..], dir, f, p);
    }
  }

  lemma UndisturbedTier(store: Store, scope: Scope, t: Tier, dir: Dir, f: Flow, p: Option<IcmpProbe>)
    requires Undisturbed(store, dir, f, p)
    ensures CheckTier(FilteredStore(store, p), scope, t, dir, f) == CheckTier(store, scope, t, dir, f)
  {
    UndisturbedPolicies(store, scope, PoliciesFor(t, dir), dir, f, p);
    assert forall id :: Applies(FilteredStore(store, p), scope, id) == Applies(store, scope, id);
  }

  lemma {:induction false} UndisturbedProfiles(store: Store, names: seq<string>, dir: Dir, f: Flow,
      p: Option<IcmpProbe>)
    ensures CheckProfiles(FilteredStore(store, p), names, dir, f) == CheckProfiles(store, names, dir, f)
  {
    if names != [] {
      if names[0] in store.profiles {
        SameStoreSameRules(store, RulesFor(store.profiles[names[0]], dir), f, p);
      }
      UndisturbedProfiles(store, names[1..], dir, f, p);
    }
  }

  // ----- probes of other protocols -----

  /** Rules with icmp matchers name an ICMP protocol, as the API server demands. */
  ghost predicate IcmpRulesAreIcmp(rules: seq<Rule>) {
    forall r :: r in rules && (r.icmp.Some? || r.notIcmp.Some?) ==> r.protocol == Some(1) || r.protocol == Some(58)
  }

  /** Of rules such as the API server admits, the filter drops none that decides a flow of another protocol. */
  lemma OtherProtocolsUnaffected(store: Store, rules: seq<Rule>, f: Flow, p: Option<IcmpProbe>)
    requires IcmpRulesAreIcmp(rules) && f.protocol != 1 && f.protocol != 58
    ensures KeepsDecider(store, rules, f, p)
    ensures CheckRules(store, Filtered(rules, p), f) == CheckRules(store, rules, f)
  {
    var d := Decider(store, rules, f);
    DeciderInRules(store, rules, f);
    assert d.Some? ==> d.value.icmp.None? && d.value.notIcmp.None?;
    FilteredDecider(store, rules, f, p);
    DeciderActs(store, rules, f);
    DeciderActs(store, Filtered(rules, p), f);
  }

  lemma {:induction false} DeciderInRules(store: Store, rules: seq<Rule>, f: Flow)
    ensures var d := Decider(store, rules, f); d.Some? ==> d.value in rules && Decides(store, d.value, f)
  {
    if rules != [] { DeciderInRules(store, rules[1..], f); }
  }

  const ECHO := ALLOW_ALL.(icmp := Some(Icmp(Some(8), None)))

  /** A matcher without a protocol beside it, which the feed lets through, is another matter: the rule allows
      every flow of every protocol, and is gone when the request names another type. */
  lemma FilterHitsOtherProtocols(store: Store, f: Flow)
    ensures CheckRules(store, [ECHO], f) == Some(Allow)
    ensures CheckRules(store, Filtered([ECHO], NewICMPProbe(Some(0), None)), f) == None
  {
    var p := IcmpProbe(Some(0), None);
    AdmitsByFields(ECHO, p);
    assert Filtered([ECHO], Some(p)) == [];
    assert [ECHO][0] == ECHO && RuleMatches(store, ECHO, f);
  }
}
