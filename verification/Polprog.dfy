/** What polprogRules builds for one endpoint and direction, and what the compiled program decides. */
module Polprog {
  import opened Text
  import opened Checker

  datatype PolTier = PolTier(name: string, policies: seq<seq<Rule>>, endDeny: bool)

  datatype PolRules = PolRules(tiers: seq<PolTier>, profiles: seq<seq<Rule>>)

  function EnforcedRules(store: Store, ids: seq<PolicyID>, dir: Dir): seq<seq<Rule>> {
    if ids == [] then []
    else (if Applies(store, EnforcedOnly, ids[0]) then [RulesFor(store.policies[ids[0]], dir)] else [])
         + EnforcedRules(store, ids[1..], dir)
  }

  /** A tier without policies is left out; a tier whose policies are all staged or unknown passes at its end. */
  function BuiltTier(store: Store, t: Tier, dir: Dir): seq<PolTier> {
    var ids := PoliciesFor(t, dir);
    if ids == [] then []
    else [PolTier(t.name, EnforcedRules(store, ids, dir),
            AnyApplies(store, EnforcedOnly, ids) && t.defaultAction != "Pass")]
  }

  function BuiltTiers(store: Store, tiers: seq<Tier>, dir: Dir): seq<PolTier> {
    if tiers == [] then [] else BuiltTier(store, tiers[0], dir) + BuiltTiers(store, tiers[1..], dir)
  }

  function BuiltProfiles(store: Store, names: seq<string>, dir: Dir): seq<seq<Rule>> {
    if names == [] then []
    else (if names[0] in store.profiles then [RulesFor(store.profiles[names[0]], dir)] else [])
         + BuiltProfiles(store, names[1..], dir)
  }

  lemma BuiltTiersStep(store: Store, tiers: seq<Tier>, dir: Dir, i: nat, acc: seq<PolTier>)
    requires i < |tiers|
    ensures acc + BuiltTiers(store, tiers[i..], dir)
            == (acc + BuiltTier(store, tiers[i], dir)) + BuiltTiers(store, tiers[i + 1..], dir)
  {
    assert tiers[i..][1..] == tiers[i + 1..];
  }

  lemma BuiltProfilesStep(store: Store, names: seq<string>, dir: Dir, i: nat, acc: seq<seq<Rule>>)
    requires i < |names|
    ensures acc + BuiltProfiles(store, names[i..], dir)
            == (if names[i] in store.profiles then acc + [RulesFor(store.profiles[names[i]], dir)] else acc)
               + BuiltProfiles(store, names[i + 1..], dir)
  {
    assert names[i..][1..] == names[i + 1..];
  }

  /** polprogRules; its two loops over the policies of a tier and over the profiles are methods of their own. */
  method PolprogRules(store: Store, wep: WEP, dir: Dir) returns (r: PolRules)
    ensures r == PolRules(BuiltTiers(store, wep.tiers, dir), BuiltProfiles(store, wep.profileIds, dir))
  {
    var tiers: seq<PolTier> := [];
    for i := 0 to |wep.tiers|
      invariant BuiltTiers(store, wep.tiers, dir) == tiers + BuiltTiers(store, wep.tiers[i..], dir)
    {
      var t := wep.tiers[i];
      BuiltTiersStep(store, wep.tiers, dir, i, tiers);
      var ids := PoliciesFor(t, dir);
      if ids != [] {
        var policies, stagedOnly := TierPolicies(store, ids, dir);
        tiers := tiers + [PolTier(t.name, policies, !stagedOnly && t.defaultAction != "Pass")];
      }
    }
    var profiles := Profiles(store, wep.profileIds, dir);
    r := PolRules(tiers, profiles);
  }

  method Profiles(store: Store, names: seq<string>, dir: Dir) returns (profiles: seq<seq<Rule>>)
    ensures profiles == BuiltProfiles(store, names, dir)
  {
    profiles := [];
    for i := 0 to |names|
      invariant BuiltProfiles(store, names, dir) == profiles + BuiltProfiles(store, names[i..], dir)
    {
      BuiltProfilesStep(store, names, dir, i, profiles);
      if names[i] in store.profiles {
        profiles := profiles + [RulesFor(store.profiles[names[i]], dir)];
      }
    }
  }

  lemma EnforcedStep(store: Store, ids: seq<PolicyID>, dir: Dir, i: nat, acc: seq<seq<Rule>>)
    requires i < |ids|
    ensures acc + EnforcedRules(store, ids[i..], dir) ==
            (if Applies(store, EnforcedOnly, ids[i]) then acc + [RulesFor(store.policies[ids[i]], dir)] else acc)
            + EnforcedRules(store, ids[i + 1..], dir)
  {
    assert ids[i..][1..] == ids[i + 1..];
  }

  /** The inner loop of polprogRules. */
  method TierPolicies(store: Store, ids: seq<PolicyID>, dir: Dir) returns (policies: seq<seq<Rule>>, stagedOnly: bool)
    ensures policies == EnforcedRules(store, ids, dir)
    ensures stagedOnly <==> !AnyApplies(store, EnforcedOnly, ids)
  {
    policies, stagedOnly := [], true;
    for i := 0 to |ids|
      invariant EnforcedRules(store, ids, dir) == policies + EnforcedRules(store, ids[i..], dir)
      invariant stagedOnly <==> forall k :: 0 <= k < i ==> !Applies(store, EnforcedOnly, ids[k])
    {
      EnforcedStep(store, ids, dir, i, policies);
      if KindIsStaged(ids[i].kind) || ids[i] !in store.policies {
        continue;
      }
      stagedOnly := false;
      policies := policies + [RulesFor(store.policies[ids[i]], dir)];
    }
  }

  // ----- what the program decides -----

  function FirstOf(store: Store, lists: seq<seq<Rule>>, f: Flow): Option<RuleAction> {
    if lists == [] then None
    else
      var a := CheckRules(store, lists[0], f);
      if a.Some? then a else FirstOf(store, lists[1..], f)
  }

  /** First match per tier; Pass, and a passing end, go on; after the tiers the profiles must allow. */
  predicate Allows(store: Store, tiers: seq<PolTier>, profiles: seq<seq<Rule>>, f: Flow) {
    if tiers == [] then FirstOf(store, profiles, f) == Some(Allow)
    else
      var a := FirstOf(store, tiers[0].policies, f);
      if a == Some(Pass) || (a.None? && !tiers[0].endDeny) then Allows(store, tiers[1..], profiles, f)
      else a == Some(Allow)
  }

  lemma {:induction false} EnforcedFirst(store: Store, ids: seq<PolicyID>, dir: Dir, f: Flow)
    ensures FirstOf(store, EnforcedRules(store, ids, dir), f) == CheckPolicies(store, EnforcedOnly, ids, dir, f)
  {
    if ids != [] {
      EnforcedFirst(store, ids[1..], dir, f);
      var rest := EnforcedRules(store, ids[1..], dir);
      if Applies(store, EnforcedOnly, ids[0]) {
        assert EnforcedRules(store, ids, dir)[1..] == rest;
      } else {
        assert EnforcedRules(store, ids, dir) == rest;
      }
    }
  }

  lemma {:induction false} ProfilesFirst(store: Store, names: seq<string>, dir: Dir, f: Flow)
    ensures FirstOf(store, BuiltProfiles(store, names, dir), f) == CheckProfiles(store, names, dir, f)
  {
    if names != [] {
      ProfilesFirst(store, names[1..], dir, f);
      var rest := BuiltProfiles(store, names[1..], dir);
      if names[0] in store.profiles {
        assert BuiltProfiles(store, names, dir)[1..] == rest;
      } else {
        assert BuiltProfiles(store, names, dir) == rest;
      }
    }
  }

  lemma {:induction false} NoneApplies(store: Store, ids: seq<PolicyID>, dir: Dir, f: Flow)
    requires !AnyApplies(store, EnforcedOnly, ids)
    ensures CheckPolicies(store, EnforcedOnly, ids, dir, f) == None
  {
    if ids != [] {
      assert !Applies(store, EnforcedOnly, ids[0]);
      NoneApplies(store, ids[1..], dir, f);
    }
  }

  /** The Linux program and the matrix checker agree on every endpoint, direction and flow. */
  lemma {:induction false} PolprogAgreesWithChecker(store: Store, dir: Dir, tiers: seq<Tier>,
      profileIds: seq<string>, f: Flow)
    ensures Allows(store, BuiltTiers(store, tiers, dir), BuiltProfiles(store, profileIds, dir), f)
            == Verdict(Trace(store, EnforcedOnly, dir, tiers, profileIds, f))
  {
    if tiers == [] {
      ProfilesFirst(store, profileIds, dir, f);
    } else {
      var ids := PoliciesFor(tiers[0], dir);
      VerdictSteps(store, EnforcedOnly, dir, tiers, profileIds, f);
      PolprogAgreesWithChecker(store, dir, tiers[1..], profileIds, f);
      var built, rest := BuiltTiers(store, tiers, dir), BuiltTiers(store, tiers[1..], dir);
      if ids == [] {
        assert built == rest;
      } else {
        assert built[1..] == rest;
        EnforcedFirst(store, ids, dir, f);
        if !AnyApplies(store, EnforcedOnly, ids) {
          NoneApplies(store, ids, dir, f);
        }
      }
    }
  }

  /** Tiers keep their names and their order; those without policies for the direction are left out. */
  lemma {:induction false} BuiltTierNames(store: Store, tiers: seq<Tier>, dir: Dir, t: Tier)
    ensures (dir == Egress && t.egress == []) || (dir == Ingress && t.ingress == []) ==>
              BuiltTiers(store, tiers + [t], dir) == BuiltTiers(store, tiers, dir)
    ensures (dir == Egress && t.egress != []) || (dir == Ingress && t.ingress != []) ==>
              exists b :: BuiltTiers(store, tiers + [t], dir) == BuiltTiers(store, tiers, dir) + [b] && b.name == t.name
  {
    if tiers == [] {
      assert [] + [t] == [t] && [t][1..] == [];
      assert BuiltTiers(store, [t], dir) == BuiltTier(store, t, dir);
      if BuiltTier(store, t, dir) != [] {
        assert BuiltTiers(store, [t], dir) == BuiltTiers(store, [], dir) + [BuiltTier(store, t, dir)[0]];
      }
    } else {
      assert (tiers + [t])[0] == tiers[0] && (tiers + [t])[1..] == tiers[1..] + [t];
      BuiltTierNames(store, tiers[1..], dir, t);
      if b :| BuiltTiers(store, tiers[1..] + [t], dir) == BuiltTiers(store, tiers[1..], dir) + [b] && b.name == t.name {
        assert BuiltTiers(store, tiers + [t], dir) == BuiltTiers(store, tiers, dir) + [b];
      }
    }
  }
}
