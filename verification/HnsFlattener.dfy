/** The flattener as the Go code runs it: rules shared by pointer and rewritten in place. */
module HnsFlattener {
  import opened Text
  import opened PortLists
  import opened Flattening
  import opened Renumbering

  /** The object behind a *hns.ACLPolicy pointer: a struct whose fields are written in place. */
  class AclPolicy {
    var fields: Acl

    constructor (fields: Acl)
      ensures this.fields == fields
    {
      this.fields := fields;
    }
  }

  type Rules = seq<AclPolicy>

  ghost predicate Rep(rs: Rules, v: seq<Acl>)
    reads rs
  {
    |rs| == |v| && forall k :: 0 <= k < |rs| ==> rs[k].fields == v[k]
  }

  ghost predicate TiersRep(ts: seq<Rules>, vs: Tiers)
    reads set t, r | t in ts && r in t :: r
  {
    && |ts| == |vs|
    && (forall k :: 0 <= k < |ts| ==> |ts[k]| == |vs[k]|)
    && (forall k, i :: 0 <= k < |ts| && 0 <= i < |ts[k]| ==>
          ts[k] in ts && ts[k][i] in ts[k] && ts[k][i].fields == vs[k][i])
  }

  /** No rule object occurs twice, within a tier or across tiers. */
  ghost predicate Unshared(ts: seq<Rules>) {
    && (forall k :: 0 <= k < |ts| ==> Distinct(ts[k]))
    && (forall j, k, r :: 0 <= j < k < |ts| && r in ts[j] ==> r !in ts[k])
  }

  method CombineRules(r1: AclPolicy, r2: AclPolicy) returns (combined: AclPolicy?)
    ensures combined == null <==> !Overlap(r1.fields, r2.fields)
    ensures combined != null ==> fresh(combined) && combined.fields == Combine(r1.fields, r2.fields)
  {
    var protocol := r2.fields.protocol;
    if r1.fields.protocol != ANY_PROTOCOL {
      if r2.fields.protocol == ANY_PROTOCOL {
        protocol := r1.fields.protocol;
      } else if r1.fields.protocol != r2.fields.protocol {
        return null;
      }
    }
    var locals := CombinedNets(r1.fields.localAddrs, r2.fields.localAddrs);
    if locals.None? {
      return null;
    }
    var remotes := CombinedNets(r1.fields.remoteAddrs, r2.fields.remoteAddrs);
    if remotes.None? {
      return null;
    }
    var localPorts, noLocal := CombinePorts(r1.fields.localPorts, r2.fields.localPorts);
    if noLocal {
      assert false;
      return null;
    }
    var remotePorts, noRemote := CombinePorts(r1.fields.remotePorts, r2.fields.remotePorts);
    if noRemote {
      assert false;
      return null;
    }
    combined := new AclPolicy(Acl(r2.fields.id, r2.fields.action, protocol, locals.value, remotes.value,
                                  localPorts, remotePorts, r2.fields.priority));
  }

  lemma CombineAllStep(r: Acl, second: seq<Acl>, i: nat, acc: seq<Acl>)
    requires i < |second|
    ensures acc + CombineAll(r, second[i..]) ==
            (if Overlap(r, second[i]) then acc + [Combine(r, second[i])] else acc) + CombineAll(r, second[i + 1..])
  {
    assert second[i..][1..] == second[i + 1..];
  }

  method AppendCombinedRules(newRules: Rules, secondTier: Rules, rule: AclPolicy, ghost second: seq<Acl>)
    returns (out: Rules, ghost added: Rules)
    requires Rep(secondTier, second)
    ensures out == newRules + added
    ensures Rep(added, CombineAll(rule.fields, second))
    ensures Distinct(added) && forall k :: 0 <= k < |added| ==> fresh(added[k])
  {
    out, added := newRules, [];
    ghost var acc, r := [], rule.fields;
    for i := 0 to |secondTier|
      invariant out == newRules + added
      invariant Distinct(added) && forall k :: 0 <= k < |added| ==> fresh(added[k])
      invariant Rep(added, acc) && rule.fields == r && Rep(secondTier, second)
      invariant CombineAll(r, second) == acc + CombineAll(r, second[i..])
    {
      CombineAllStep(r, second, i, acc);
      var c := CombineRules(rule, secondTier[i]);
      if c != null {
        out := out + [c];
        added := added + [c];
        acc := acc + [c.fields];
      }
    }
    assert acc + CombineAll(r, second[|second|..]) == acc;
  }

  /** What one rule of the first tier becomes. */
  function ExpandRule(r: Acl, second: seq<Acl>): seq<Acl> {
    if r.action == Pass then CombineAll(r, second) else [r]
  }

  lemma ExpandStep(first: seq<Acl>, second: seq<Acl>, i: nat, acc: seq<Acl>)
    requires i < |first|
    ensures acc + Expand(first[i..], second) == (acc + ExpandRule(first[i], second)) + Expand(first[i + 1..], second)
  {
    assert first[i..][1..] == first[i + 1..];
  }

  lemma RepAppend(a: Rules, va: seq<Acl>, b: Rules, vb: seq<Acl>)
    requires Rep(a, va) && Rep(b, vb)
    ensures Rep(a + b, va + vb)
  {
  }

  /** One rule of the first tier, its replacement appended to the new list. */
  method AppendExpanded(rules: Rules, r: AclPolicy, secondTier: Rules, ghost acc: seq<Acl>, ghost second: seq<Acl>)
    returns (out: Rules, ghost added: Rules)
    requires Rep(rules, acc) && Rep(secondTier, second) && Distinct(rules) && r !in rules
    ensures out == rules + added && Distinct(out)
    ensures Rep(out, acc + ExpandRule(r.fields, second))
    ensures forall k :: 0 <= k < |added| ==> fresh(added[k]) || added[k] == r
  {
    if r.fields.action == Pass {
      out, added := AppendCombinedRules(rules, secondTier, r, second);
    } else {
      out, added := rules + [r], [r];
    }
    RepAppend(rules, acc, added, ExpandRule(r.fields, second));
    DistinctAppend(rules, added);
  }

  /** The loop of flattenTiersRecurse over the first tier. */
  method ExpandFirst(firstTier: Rules, secondTier: Rules, ghost first: seq<Acl>, ghost second: seq<Acl>)
    returns (out: Rules, foundPass: bool)
    requires Distinct(firstTier) && Rep(firstTier, first) && Rep(secondTier, second)
    ensures foundPass <==> HasPass(first)
    ensures Rep(out, Expand(first, second))
    ensures Distinct(out) && forall r :: r in out ==> fresh(r) || r in firstTier
  {
    out, foundPass := [], false;
    ghost var acc: seq<Acl> := [];
    for i := 0 to |firstTier|
      invariant Rep(firstTier, first) && Rep(secondTier, second) && Rep(out, acc) && Distinct(out)
      invariant foundPass <==> HasPass(first[..i])
      invariant Expand(first, second) == acc + Expand(first[i..], second)
      invariant forall j :: 0 <= j < |out| ==> fresh(out[j]) || out[j] in firstTier[..i]
    {
      var r := firstTier[i];
      NextRule(firstTier, i);
      HasPassNext(first, i);
      if r.fields.action == Pass {
        foundPass := true;
      }
      ExpandStep(first, second, i, acc);
      ghost var added;
      out, added := AppendExpanded(out, r, secondTier, acc, second);
      acc := acc + ExpandRule(first[i], second);
    }
    assert acc + Expand(first[|first|..], second) == acc;
    assert first[..|first|] == first && firstTier[..|firstTier|] == firstTier;
  }

  lemma NextRule(rules: Rules, i: nat)
    requires i < |rules| && Distinct(rules)
    ensures rules[..i + 1] == rules[..i] + [rules[i]] && rules[i] !in rules[..i]
  {
  }

  lemma HasPassNext(v: seq<Acl>, i: nat)
    requires i < |v|
    ensures HasPass(v[..i + 1]) <==> HasPass(v[..i]) || v[i].action == Pass
  {
    assert v[..i + 1] == v[..i] + [v[i]];
  }

  lemma UnsharedStep(before: seq<Rules>, newFirst: Rules)
    requires |before| >= 2 && Unshared(before) && Distinct(newFirst)
    requires forall r, k :: r in newFirst && 0 < k < |before| ==> r !in before[k]
    ensures Unshared([newFirst] + before[2..])
  {
    var after := [newFirst] + before[2..];
    assert forall k :: 0 < k < |after| ==> after[k] == before[k + 1];
  }

  lemma TiersRepStep(before: seq<Rules>, vs: Tiers, newFirst: Rules, e: seq<Acl>)
    requires |before| >= 2 && TiersRep(before, vs) && Rep(newFirst, e)
    ensures TiersRep([newFirst] + before[2..], [e] + vs[2..])
  {
    var after, next := [newFirst] + before[2..], [e] + vs[2..];
    assert forall k :: 0 < k < |after| ==> after[k] == before[k + 1] && next[k] == vs[k + 1];
  }

  lemma TiersRepSeal(all: seq<Rules>, vs: Tiers)
    requires all != [] && |all| == |vs| && Rep(all[|all| - 1], BlockPasses(vs[|all| - 1]))
    requires forall k :: 0 <= k < |all| - 1 ==> Rep(all[k], vs[k])
    ensures TiersRep(all, SealLast(vs))
  {
  }

  /** Only these objects occur. */
  ghost predicate AllIn(ts: seq<Rules>, objects: set<AclPolicy>) {
    forall k, r :: 0 <= k < |ts| && r in ts[k] ==> r in objects
  }

  lemma AllInStep(before: seq<Rules>, newFirst: Rules, objects: set<AclPolicy>, more: set<AclPolicy>)
    requires |before| >= 2 && AllIn(before, objects) && objects <= more && forall r :: r in newFirst ==> r in more
    ensures AllIn([newFirst] + before[2..], more)
  {
    var after := [newFirst] + before[2..];
    assert forall k :: 0 < k < |after| ==> after[k] == before[k + 1];
  }

  /** What one step of the recursion leaves behind: its tail stands for the expanded tiers. */
  method ExpandIntoSecond(tiers: array<Rules>, from: nat, ghost vs: Tiers, ghost objects: set<AclPolicy>)
    returns (foundPass: bool, ghost more: set<AclPolicy>)
    requires from + 1 < tiers.Length && Unshared(tiers[from..])
    requires TiersRep(tiers[from..], vs) && AllIn(tiers[from..], objects)
    modifies tiers
    ensures foundPass <==> HasPass(vs[0])
    ensures foundPass ==> Unshared(tiers[from + 1..]) && TiersRep(tiers[from + 1..], [Expand(vs[0], vs[1])] + vs[2..])
    ensures foundPass ==> AllIn(tiers[from + 1..], more) && forall r :: r in more ==> r in objects || fresh(r)
  {
    ghost var before := tiers[from..];
    var first, second := tiers[from], tiers[from + 1];
    assert before[0] == first && before[1] == second;
    var newFirst;
    newFirst, foundPass := ExpandFirst(first, second, vs[0], vs[1]);
    more := objects + set r | r in newFirst;
    if foundPass {
      forall r, k | r in newFirst && 0 < k < |before| ensures r !in before[k] {
        if r in first {
          assert r in before[0];
        }
      }
      TiersRepStep(before, vs, newFirst, Expand(vs[0], vs[1]));
      UnsharedStep(before, newFirst);
      forall r | r in newFirst ensures r in more && (r in objects || fresh(r)) {
        if r in first {
          assert r in before[0];
        }
      }
      AllInStep(before, newFirst, objects, more);
      tiers[from + 1] := newFirst;
      assert tiers[from + 1..] == [newFirst] + before[2..];
    }
  }

  /** flattenTiersRecurse on tiers[from..]; the array cell of the second tier is overwritten. */
  method FlattenTiersRecurse(tiers: array<Rules>, from: nat, ghost vs: Tiers, ghost objects: set<AclPolicy>)
    returns (flat: Rules)
    requires from <= tiers.Length && Unshared(tiers[from..])
    requires TiersRep(tiers[from..], vs) && AllIn(tiers[from..], objects)
    modifies tiers
    ensures Rep(flat, FlattenRec(vs))
    ensures Distinct(flat) && forall r :: r in flat ==> fresh(r) || r in objects
    decreases tiers.Length - from
  {
    if from == tiers.Length {
      return [];
    }
    var oldFirst := tiers[from];
    assert tiers[from..][0] == oldFirst;
    if from + 1 == tiers.Length {
      return oldFirst;
    }
    var foundPass, more := ExpandIntoSecond(tiers, from, vs, objects);
    if !foundPass {
      return oldFirst;
    }
    flat := FlattenTiersRecurse(tiers, from + 1, [Expand(vs[0], vs[1])] + vs[2..], more);
  }

  /** The loop of flattenTiers over the last tier. */
  method BlockPassesInPlace(last: Rules, ghost v: seq<Acl>)
    requires Distinct(last) && Rep(last, v)
    modifies last
    ensures Rep(last, BlockPasses(v))
  {
    for i := 0 to |last|
      invariant forall k :: 0 <= k < |last| ==> last[k].fields == if k < i then PassToBlock(v[k]) else v[k]
    {
      if last[i].fields.action == Pass {
        last[i].fields := last[i].fields.(action := Block);
      }
    }
  }

  /** flattenTiers: the new list is exactly the specified one; the rules of the last tier are rewritten
      in place; no object occurs twice if none did; only rules of the input (objects) or new ones occur. */
  method FlattenTiers(tiers: array<Rules>, ghost vs: Tiers, ghost objects: set<AclPolicy>) returns (flat: Rules)
    requires Unshared(tiers[..]) && TiersRep(tiers[..], vs) && AllIn(tiers[..], objects)
    modifies tiers, if tiers.Length > 0 then tiers[tiers.Length - 1] else []
    ensures Rep(flat, Flatten(vs))
    ensures Distinct(flat) && forall r :: r in flat ==> fresh(r) || r in objects
  {
    if tiers.Length == 0 {
      return [];
    }
    BlockLastTier(tiers, vs);
    assert tiers[0..] == tiers[..];
    flat := FlattenTiersRecurse(tiers, 0, SealLast(vs), objects);
  }

  method BlockLastTier(tiers: array<Rules>, ghost vs: Tiers)
    requires tiers.Length > 0 && Unshared(tiers[..]) && TiersRep(tiers[..], vs)
    modifies tiers[tiers.Length - 1]
    ensures TiersRep(tiers[..], SealLast(vs))
  {
    ghost var all := tiers[..];
    var n := tiers.Length - 1;
    BlockPassesInPlace(tiers[n], vs[n]);
    forall k | 0 <= k < n ensures Rep(all[k], vs[k]) {
      assert forall i :: 0 <= i < |all[k]| ==> all[k][i] !in all[n];
    }
    TiersRepSeal(all, vs);
  }

  method NumberEach(policies: Rules, base: nat, ghost ps: seq<nat>)
    requires |policies| > 1 && Distinct(policies) && |ps| == |policies| && policies[0].fields.priority == ps[0] == base
    requires forall i :: 0 < i < |ps| ==> ps[i] == (ps[i - 1] + 1) % PRIORITY_SPACE
    modifies policies
    ensures forall k :: 0 <= k < |policies| ==>
              policies[k].fields == old(policies[k].fields).(priority := ps[k])
  {
    var current := base;
    for i := 1 to |policies|
      invariant current == ps[i - 1]
      invariant forall k :: 0 <= k < |policies| ==>
                  policies[k].fields == if k < i then old(policies[k].fields).(priority := ps[k])
                                        else old(policies[k].fields)
    {
      current := (current + 1) % PRIORITY_SPACE;
      policies[i].fields := policies[i].fields.(priority := current);
    }
  }

  method NumberGroups(policies: Rules, base: nat, ghost ps: seq<nat>)
    requires |policies| > 1 && Distinct(policies) && |ps| == |policies| && policies[0].fields.priority == ps[0] == base
    requires forall i :: 0 < i < |ps| ==>
               ps[i] == if policies[i - 1].fields.action != policies[i].fields.action
                        then (ps[i - 1] + 1) % PRIORITY_SPACE
                        else ps[i - 1]
    modifies policies
    ensures forall k :: 0 <= k < |policies| ==>
              policies[k].fields == old(policies[k].fields).(priority := ps[k])
  {
    var current := base;
    var last := policies[0];
    for i := 1 to |policies|
      invariant last == policies[i - 1] && current == ps[i - 1]
      invariant forall k :: 0 <= k < |policies| ==>
                  policies[k].fields == if k < i then old(policies[k].fields).(priority := ps[k])
                                        else old(policies[k].fields)
    {
      if last.fields.action != policies[i].fields.action {
        current := (current + 1) % PRIORITY_SPACE;
      }
      policies[i].fields := policies[i].fields.(priority := current);
      last := policies[i];
    }
  }

  /** rewritePriorities; each of its two loops is a method of its own here. */
  method RewritePriorities(policies: Rules, base: nat, limit: nat, ghost v: seq<Acl>)
    requires Distinct(policies) && base < PRIORITY_SPACE && Rep(policies, v)
    modifies policies
    ensures Rep(policies, Rewritten(v, base, limit))
  {
    if |policies| <= 1 {
      return;
    }
    ghost var ps := PrioritySteps(v, base, limit);
    policies[0].fields := policies[0].fields.(priority := base);
    assert forall k :: 0 <= k < |policies| ==> policies[k].fields == if k == 0 then v[0].(priority := base) else v[k];
    if |policies| < (limit - base) % PRIORITY_SPACE {
      NumberEach(policies, base, ps);
    } else {
      NumberGroups(policies, base, ps);
    }
    assert forall k :: 0 <= k < |policies| ==> policies[k].fields == v[k].(priority := ps[k]);
  }
}
