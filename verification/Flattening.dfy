/** The HNS tier flattener over rule values, and the tier walk it must agree with. */
module Flattening {
  import opened Text
  import opened Addresses
  import opened PortLists

  datatype Action = Allow | Block | Pass

  const ANY_PROTOCOL: nat := 256

  /** One HNS ACL. An empty address or port list matches anything. */
  datatype Acl = Acl(id: string, action: Action, protocol: nat,
                     localAddrs: seq<Net>, remoteAddrs: seq<Net>,
                     localPorts: string, remotePorts: string, priority: nat)

  datatype Packet = Packet(protocol: nat, local: IP, remote: IP, localPort: nat, remotePort: nat)

  type Tiers = seq<seq<Acl>>

  predicate ValidPacket(p: Packet) { p.localPort < PORT_SPACE && p.remotePort < PORT_SPACE }

  predicate AddrMatches(ns: seq<Net>, ip: IP) { ns == [] || AnyContains(ns, ip) }

  predicate Matches(r: Acl, p: Packet) {
    && (r.protocol == ANY_PROTOCOL || r.protocol == p.protocol)
    && AddrMatches(r.localAddrs, p.local) && AddrMatches(r.remoteAddrs, p.remote)
    && PortMatches(r.localPorts, p.localPort) && PortMatches(r.remotePorts, p.remotePort)
  }

  // ----- the reference: a plain tier walk -----

  predicate AnyMatch(rules: seq<Acl>, p: Packet) { exists r :: r in rules && Matches(r, p) }

  function FirstMatch(rules: seq<Acl>, p: Packet): (r: Option<Action>)
  {
    if rules == [] then None
    else if Matches(rules[0], p) then Some(rules[0].action)
    else FirstMatch(rules[1..], p)
  }

  /** First match decides; Pass goes on to the next tier, and in the last tier it blocks. */
  function Walk(tiers: Tiers, p: Packet): Option<Action> {
    if tiers == [] then None
    else
      var r := FirstMatch(tiers[0], p);
      if r != Some(Pass) then r
      else if |tiers| == 1 then Some(Block)
      else Walk(tiers[1..], p)
  }

  /** The walk that takes a decision wherever one can be had: where the tiers after a Pass decide nothing, it
      falls back to the rules after the Pass. */
  function Backtrack(rules: seq<Acl>, later: Tiers, p: Packet): Option<Action>
    decreases |later|, |rules|
  {
    if rules == [] then None
    else if !Matches(rules[0], p) then Backtrack(rules[1..], later, p)
    else if rules[0].action != Pass then Some(rules[0].action)
    else if later == [] then Some(Block)
    else
      var d := Backtrack(later[0], later[1..], p);
      if d.Some? then d else Backtrack(rules[1..], later, p)
  }

  function BacktrackTiers(tiers: Tiers, p: Packet): Option<Action> {
    if tiers == [] then None else Backtrack(tiers[0], tiers[1..], p)
  }

  // ----- the rule a walk stops at -----

  /** What is left of a rule when a walk stops at it: its id, its action and its priority. */
  datatype Stop = Stop(id: string, action: Action, priority: nat)

  function FirstStop(rules: seq<Acl>, p: Packet): Option<Stop> {
    if rules == [] then None
    else if Matches(rules[0], p) then Some(Stop(rules[0].id, rules[0].action, rules[0].priority))
    else FirstStop(rules[1..], p)
  }

  /** The backtracking walk, answering with the rule; a Pass that is last of all is a Block. */
  function BacktrackStop(rules: seq<Acl>, later: Tiers, p: Packet): Option<Stop>
    decreases |later|, |rules|
  {
    if rules == [] then None
    else if !Matches(rules[0], p) then BacktrackStop(rules[1..], later, p)
    else if rules[0].action != Pass then Some(Stop(rules[0].id, rules[0].action, rules[0].priority))
    else if later == [] then Some(Stop(rules[0].id, Block, rules[0].priority))
    else
      var d := BacktrackStop(later[0], later[1..], p);
      if d.Some? then d else BacktrackStop(rules[1..], later, p)
  }

  function StopTiers(tiers: Tiers, p: Packet): Option<Stop> {
    if tiers == [] then None else BacktrackStop(tiers[0], tiers[1..], p)
  }

  function ActionOf(s: Option<Stop>): Option<Action> { if s.Some? then Some(s.value.action) else None }

  lemma {:induction false} FirstStopAction(rules: seq<Acl>, p: Packet)
    ensures FirstMatch(rules, p) == ActionOf(FirstStop(rules, p))
  {
    if rules != [] { FirstStopAction(rules[1..], p); }
  }

  lemma {:induction false} BacktrackStopAction(rules: seq<Acl>, later: Tiers, p: Packet)
    ensures Backtrack(rules, later, p) == ActionOf(BacktrackStop(rules, later, p))
    decreases |later|, |rules|
  {
    if rules != [] {
      BacktrackStopAction(rules[1..], later, p);
      if later != [] { BacktrackStopAction(later[0], later[1..], p); }
    }
  }

  // ----- the compiler -----

  /** combineCIDRs: None is its no-op report. */
  function CombinedNets(a: seq<Net>, b: seq<Net>): Option<seq<Net>> {
    if a == [] then Some(b) else if b == [] then Some(a)
    else
      var i := IntersectNets(a, b);
      if i == [] then None else Some(i)
  }

  /** The parts of combineRules that can report a no-op: protocol and addresses. */
  predicate Overlap(r1: Acl, r2: Acl) {
    && (r1.protocol == ANY_PROTOCOL || r2.protocol == ANY_PROTOCOL || r1.protocol == r2.protocol)
    && CombinedNets(r1.localAddrs, r2.localAddrs).Some?
    && CombinedNets(r1.remoteAddrs, r2.remoteAddrs).Some?
  }

  /** combineRules: r1 && r2 with r2's action, id and priority. */
  function Combine(r1: Acl, r2: Acl): Acl
    requires Overlap(r1, r2)
  {
    r2.(protocol := if r1.protocol != ANY_PROTOCOL && r2.protocol == ANY_PROTOCOL then r1.protocol else r2.protocol,
        localAddrs := CombinedNets(r1.localAddrs, r2.localAddrs).value,
        remoteAddrs := CombinedNets(r1.remoteAddrs, r2.remoteAddrs).value,
        localPorts := Combined(r1.localPorts, r2.localPorts),
        remotePorts := Combined(r1.remotePorts, r2.remotePorts))
  }

  /** appendCombinedRules, as the list it appends. */
  function CombineAll(r: Acl, second: seq<Acl>): seq<Acl> {
    if second == [] then []
    else (if Overlap(r, second[0]) then [Combine(r, second[0])] else []) + CombineAll(r, second[1..])
  }

  predicate HasPass(rules: seq<Acl>) { exists r :: r in rules && r.action == Pass }

  /** The new first tier: every Pass rule replaced by its combinations with the second tier. */
  function Expand(first: seq<Acl>, second: seq<Acl>): seq<Acl> {
    if first == [] then []
    else (if first[0].action == Pass then CombineAll(first[0], second) else [first[0]])
         + Expand(first[1..], second)
  }

  function FlattenRec(tiers: Tiers): seq<Acl>
    decreases |tiers|
  {
    if tiers == [] then []
    else if |tiers| == 1 || !HasPass(tiers[0]) then tiers[0]
    else FlattenRec([Expand(tiers[0], tiers[1])] + tiers[2..])
  }

  function PassToBlock(r: Acl): Acl { if r.action == Pass then r.(action := Block) else r }

  function BlockPasses(rules: seq<Acl>): seq<Acl> {
    seq(|rules|, k requires 0 <= k < |rules| => PassToBlock(rules[k]))
  }

  function SealLast(tiers: Tiers): Tiers {
    if tiers == [] then [] else tiers[..|tiers| - 1] + [BlockPasses(tiers[|tiers| - 1])]
  }

  function Flatten(tiers: Tiers): seq<Acl> { FlattenRec(SealLast(tiers)) }

  // ----- combining two rules -----

  ghost predicate RuleBounded(r: Acl) { Bounded(r.localPorts) && Bounded(r.remotePorts) }

  ghost predicate RulesExact(r1: Acl, r2: Acl) {
    PortsExact(r1.localPorts, r2.localPorts) && PortsExact(r1.remotePorts, r2.remotePorts)
  }

  lemma CombinedNetsMeaning(a: seq<Net>, b: seq<Net>, ip: IP)
    ensures AddrMatches(a, ip) && AddrMatches(b, ip) <==>
            CombinedNets(a, b).Some? && AddrMatches(CombinedNets(a, b).value, ip)
  {
    IntersectNetsMeaning(a, b, ip);
  }

  /** Rules that do not overlap never match one packet; exact ones combine to their conjunction. */
  lemma CombineMeaning(r1: Acl, r2: Acl, p: Packet)
    requires ValidPacket(p) && RuleBounded(r1) && RuleBounded(r2)
    ensures !Overlap(r1, r2) ==> !(Matches(r1, p) && Matches(r2, p))
    ensures Overlap(r1, r2) && RulesExact(r1, r2) ==>
              (Matches(Combine(r1, r2), p) <==> Matches(r1, p) && Matches(r2, p))
  {
    CombinedNetsMeaning(r1.localAddrs, r2.localAddrs, p.local);
    CombinedNetsMeaning(r1.remoteAddrs, r2.remoteAddrs, p.remote);
    CombinePortsExactIff(r1.localPorts, r2.localPorts);
    CombinePortsExactIff(r1.remotePorts, r2.remotePorts);
  }

  lemma CombineBounded(r1: Acl, r2: Acl)
    requires RuleBounded(r1) && RuleBounded(r2) && Overlap(r1, r2)
    ensures RuleBounded(Combine(r1, r2))
  {
    CombinedBounded(r1.localPorts, r2.localPorts);
    CombinedBounded(r1.remotePorts, r2.remotePorts);
  }

  // ----- which inputs are compiled faithfully -----

  /** Every rule chain that passes from acc through the tiers combines exact port lists only. */
  ghost predicate ChainExact(acc: Acl, tiers: Tiers)
    decreases |tiers|
  {
    tiers != [] ==>
      forall r :: r in tiers[0] && Overlap(acc, r) ==>
        RulesExact(acc, r) && (r.action == Pass ==> ChainExact(Combine(acc, r), tiers[1..]))
  }

  ghost predicate PortsCompatible(tiers: Tiers) {
    tiers != [] ==> forall r :: r in tiers[0] && r.action == Pass ==> ChainExact(r, tiers[1..])
  }

  ghost predicate AllBounded(tiers: Tiers) {
    forall t, r :: t in tiers && r in t ==> RuleBounded(r)
  }

  /** For this packet the combination of two rules that can meet says what both say. */
  predicate Faithful(r1: Acl, r2: Acl, p: Packet) {
    Overlap(r1, r2) ==> (Matches(Combine(r1, r2), p) <==> Matches(r1, p) && Matches(r2, p))
  }

  /** So for every rule chain that passes from acc through the tiers. */
  predicate ChainFaithful(acc: Acl, tiers: Tiers, p: Packet)
    decreases |tiers|
  {
    tiers != [] ==>
      forall r :: r in tiers[0] && Overlap(acc, r) ==>
        Faithful(acc, r, p) && (r.action == Pass ==> ChainFaithful(Combine(acc, r), tiers[1..], p))
  }

  /** What the compiler needs of its input, for one packet. */
  predicate PassesFaithful(tiers: Tiers, p: Packet) {
    tiers != [] ==> forall r :: r in tiers[0] && r.action == Pass ==> ChainFaithful(r, tiers[1..], p)
  }

  lemma {:induction false} ExactChainFaithful(acc: Acl, tiers: Tiers, p: Packet)
    requires ValidPacket(p) && RuleBounded(acc) && AllBounded(tiers) && ChainExact(acc, tiers)
    ensures ChainFaithful(acc, tiers, p)
    decreases |tiers|
  {
    if tiers != [] {
      forall r | r in tiers[0] && Overlap(acc, r)
        ensures Faithful(acc, r, p) && (r.action == Pass ==> ChainFaithful(Combine(acc, r), tiers[1..], p))
      {
        CombineMeaning(acc, r, p);
        if r.action == Pass {
          CombineBounded(acc, r);
          ExactChainFaithful(Combine(acc, r), tiers[1..], p);
        }
      }
    }
  }

  /** Exact port lists are enough for every packet at once. */
  lemma ExactPortsFaithful(tiers: Tiers, p: Packet)
    requires ValidPacket(p) && AllBounded(tiers) && PortsCompatible(tiers)
    ensures PassesFaithful(tiers, p)
  {
    if tiers != [] {
      forall r | r in tiers[0] && r.action == Pass ensures ChainFaithful(r, tiers[1..], p) {
        ExactChainFaithful(r, tiers[1..], p);
      }
    }
  }

  /** Each tier after the first catches the packet, as an end-of-tier catch-all guarantees. */
  predicate CatchesAfterFirst(tiers: Tiers, p: Packet) {
    forall k :: 0 < k < |tiers| ==> AnyMatch(tiers[k], p)
  }

  // ----- first match over lists -----

  lemma {:induction false} FirstMatchAppend(a: seq<Acl>, b: seq<Acl>, p: Packet)
    ensures FirstMatch(a + b, p) == if FirstMatch(a, p).Some? then FirstMatch(a, p) else FirstMatch(b, p)
  {
    if a == [] {
      assert a + b == b;
    } else {
      assert (a + b)[1..] == a[1..] + b;
      FirstMatchAppend(a[1..], b, p);
    }
  }

  lemma {:induction false} FirstMatchSome(rules: seq<Acl>, p: Packet)
    ensures FirstMatch(rules, p).Some? <==> AnyMatch(rules, p)
    ensures FirstMatch(rules, p) == Some(Pass) ==> HasPass(rules)
  {
    if rules != [] {
      FirstMatchSome(rules[1..], p);
      assert forall r :: r in rules <==> r == rules[0] || r in rules[1..];
    }
  }

  lemma {:induction false} BacktrackAppend(a: seq<Acl>, b: seq<Acl>, later: Tiers, p: Packet)
    ensures BacktrackStop(a + b, later, p) ==
            if BacktrackStop(a, later, p).Some? then BacktrackStop(a, later, p) else BacktrackStop(b, later, p)
    decreases a
  {
    if a == [] {
      assert a + b == b;
    } else {
      assert (a + b)[1..] == a[1..] + b;
      BacktrackAppend(a[1..], b, later, p);
    }
  }

  lemma {:induction false} NoPassBacktrack(rules: seq<Acl>, later: Tiers, p: Packet)
    requires !HasPass(rules)
    ensures BacktrackStop(rules, later, p) == FirstStop(rules, p)
    decreases rules
  {
    if rules != [] {
      assert rules[0] in rules;
      NoPassBacktrack(rules[1..], later, p);
    }
  }

  /** Rules that do not overlap never match one packet. */
  lemma ApartRules(r1: Acl, r2: Acl, p: Packet)
    requires !Overlap(r1, r2)
    ensures !(Matches(r1, p) && Matches(r2, p))
  {
    CombinedNetsMeaning(r1.localAddrs, r2.localAddrs, p.local);
    CombinedNetsMeaning(r1.remoteAddrs, r2.remoteAddrs, p.remote);
  }

  /** A Pass rule's combinations decide as the second tier does, for the packets of the rule. */
  lemma {:induction false} CombineAllBacktrack(r: Acl, second: seq<Acl>, later: Tiers, p: Packet)
    requires forall s :: s in second ==> Faithful(r, s, p)
    ensures BacktrackStop(CombineAll(r, second), later, p) ==
            if Matches(r, p) then BacktrackStop(second, later, p) else None
    decreases second
  {
    if second != [] {
      assert Faithful(r, second[0], p);
      CombineAllBacktrack(r, second[1..], later, p);
      var all, rest := CombineAll(r, second), CombineAll(r, second[1..]);
      if Overlap(r, second[0]) {
        assert all[0] == Combine(r, second[0]) && all[1..] == rest;
      } else {
        ApartRules(r, second[0], p);
        assert all == rest;
      }
    }
  }

  /** Expanding the first tier by the second resolves one level of Pass. */
  lemma {:induction false} ExpandBacktrack(first: seq<Acl>, second: seq<Acl>, later: Tiers, p: Packet)
    requires forall r, s :: r in first && r.action == Pass && s in second ==> Faithful(r, s, p)
    ensures BacktrackStop(Expand(first, second), later, p) == BacktrackStop(first, [second] + later, p)
    decreases first
  {
    if first != [] {
      ExpandBacktrack(first[1..], second, later, p);
      assert ([second] + later)[1..] == later;
      if first[0].action == Pass {
        CombineAllBacktrack(first[0], second, later, p);
        BacktrackAppend(CombineAll(first[0], second), Expand(first[1..], second), later, p);
      }
    }
  }

  // ----- what expansion keeps -----

  lemma {:induction false} CombineAllMembers(r: Acl, second: seq<Acl>, c: Acl)
    requires c in CombineAll(r, second)
    ensures exists s :: s in second && Overlap(r, s) && c == Combine(r, s)
  {
    if Overlap(r, second[0]) && c == Combine(r, second[0]) {
    } else {
      CombineAllMembers(r, second[1..], c);
      var s :| s in second[1..] && Overlap(r, s) && c == Combine(r, s);
    }
  }

  lemma {:induction false} ExpandMembers(first: seq<Acl>, second: seq<Acl>, c: Acl)
    requires c in Expand(first, second)
    ensures || (c in first && c.action != Pass)
            || exists r, s :: r in first && r.action == Pass && s in second && Overlap(r, s) && c == Combine(r, s)
  {
    if first[0].action == Pass && c in CombineAll(first[0], second) {
      CombineAllMembers(first[0], second, c);
    } else if first[0].action != Pass && c == first[0] {
    } else {
      ExpandMembers(first[1..], second, c);
      if !(c in first[1..] && c.action != Pass) {
        var r, s :| r in first[1..] && r.action == Pass && s in second && Overlap(r, s) && c == Combine(r, s);
        assert r in first;
      }
    }
  }

  lemma ExpandKeepsFaithful(tiers: Tiers, p: Packet)
    requires |tiers| >= 2 && PassesFaithful(tiers, p)
    ensures PassesFaithful([Expand(tiers[0], tiers[1])] + tiers[2..], p)
  {
    var next := [Expand(tiers[0], tiers[1])] + tiers[2..];
    assert tiers[1..][0] == tiers[1] && tiers[1..][1..] == tiers[2..] == next[1..];
    forall c: Acl | c in next[0] && c.action == Pass ensures ChainFaithful(c, next[1..], p) {
      ExpandMembers(tiers[0], tiers[1], c);
      var r, s :| r in tiers[0] && r.action == Pass && s in tiers[1] && Overlap(r, s) && c == Combine(r, s);
      assert ChainFaithful(r, tiers[1..], p);
    }
  }

  // ----- the main result -----

  /** One expansion does not change what the backtracking walk decides. */
  lemma ExpandKeepsDecision(tiers: Tiers, p: Packet)
    requires |tiers| >= 2 && PassesFaithful(tiers, p)
    ensures StopTiers([Expand(tiers[0], tiers[1])] + tiers[2..], p) == StopTiers(tiers, p)
  {
    var rest := tiers[1..];
    forall r, s | r in tiers[0] && r.action == Pass && s in tiers[1] ensures Faithful(r, s, p) {
      assert ChainFaithful(r, rest, p) && s in rest[0];
    }
    ExpandBacktrack(tiers[0], tiers[1], tiers[2..], p);
    assert ([Expand(tiers[0], tiers[1])] + tiers[2..])[1..] == tiers[2..];
    assert [tiers[1]] + tiers[2..] == rest;
  }

  lemma ExpandStaysSealed(tiers: Tiers)
    requires |tiers| >= 2 && !HasPass(tiers[|tiers| - 1])
    ensures var next := [Expand(tiers[0], tiers[1])] + tiers[2..]; !HasPass(next[|next| - 1])
  {
    if |tiers| == 2 {
      forall c: Acl | c in Expand(tiers[0], tiers[1]) ensures c.action != Pass {
        ExpandMembers(tiers[0], tiers[1], c);
      }
    }
  }

  /** With no Pass left in the last tier, the flattened list decides as the backtracking walk does. */
  lemma {:induction false} FlattenRecCorrect(tiers: Tiers, p: Packet)
    requires PassesFaithful(tiers, p)
    requires tiers != [] ==> !HasPass(tiers[|tiers| - 1])
    ensures FirstStop(FlattenRec(tiers), p) == StopTiers(tiers, p)
    decreases |tiers|
  {
    if |tiers| >= 2 && HasPass(tiers[0]) {
      ExpandKeepsFaithful(tiers, p);
      ExpandStaysSealed(tiers);
      FlattenRecCorrect([Expand(tiers[0], tiers[1])] + tiers[2..], p);
      ExpandKeepsDecision(tiers, p);
    } else if tiers != [] {
      NoPassBacktrack(tiers[0], tiers[1..], p);
    }
  }

  lemma BlockPassesNoPass(rules: seq<Acl>)
    ensures !HasPass(BlockPasses(rules))
  {
  }

  /** A Pass in the last tier blocks whether or not it is written as a Block. */
  lemma {:induction false} BlockPassesBacktrack(rules: seq<Acl>, p: Packet)
    ensures BacktrackStop(BlockPasses(rules), [], p) == BacktrackStop(rules, [], p)
  {
    if rules != [] {
      BlockPassesBacktrack(rules[1..], p);
      assert BlockPasses(rules)[1..] == BlockPasses(rules[1..]);
    }
  }

  lemma {:induction false} SealLaterBacktrack(rules: seq<Acl>, later: Tiers, p: Packet)
    requires later != []
    ensures BacktrackStop(rules, SealLast(later), p) == BacktrackStop(rules, later, p)
    decreases |later|, |rules|
  {
    if rules != [] {
      SealLaterBacktrack(rules[1..], later, p);
      if |later| == 1 {
        BlockPassesBacktrack(later[0], p);
        assert SealLast(later) == [BlockPasses(later[0])] && SealLast(later)[1..] == later[1..] == [];
      } else {
        SealLaterBacktrack(later[0], later[1..], p);
        assert SealLast(later)[0] == later[0] && SealLast(later)[1..] == SealLast(later[1..]);
      }
    }
  }

  lemma SealKeepsDecision(tiers: Tiers, p: Packet)
    ensures StopTiers(SealLast(tiers), p) == StopTiers(tiers, p)
  {
    if |tiers| == 1 {
      BlockPassesBacktrack(tiers[0], p);
      assert SealLast(tiers) == [BlockPasses(tiers[0])] && SealLast(tiers)[1..] == tiers[1..] == [];
    } else if tiers != [] {
      SealLaterBacktrack(tiers[0], tiers[1..], p);
      assert SealLast(tiers)[0] == tiers[0] && SealLast(tiers)[1..] == SealLast(tiers[1..]);
    }
  }

  lemma {:induction false} SealChainFaithful(acc: Acl, tiers: Tiers, p: Packet)
    requires ChainFaithful(acc, tiers, p)
    ensures ChainFaithful(acc, SealLast(tiers), p)
    decreases |tiers|
  {
    if |tiers| == 1 {
      forall r | r in SealLast(tiers)[0] && Overlap(acc, r) ensures Faithful(acc, r, p) && r.action != Pass {
        var k :| 0 <= k < |tiers[0]| && r == PassToBlock(tiers[0][k]);
        assert tiers[0][k] in tiers[0] && Overlap(acc, tiers[0][k]);
        assert Faithful(acc, tiers[0][k], p);
      }
    } else if tiers != [] {
      assert SealLast(tiers)[0] == tiers[0] && SealLast(tiers)[1..] == SealLast(tiers[1..]);
      forall r | r in tiers[0] && Overlap(acc, r) && r.action == Pass
        ensures ChainFaithful(Combine(acc, r), SealLast(tiers[1..]), p)
      {
        SealChainFaithful(Combine(acc, r), tiers[1..], p);
      }
    }
  }

  lemma SealKeepsFaithful(tiers: Tiers, p: Packet)
    requires tiers != [] && PassesFaithful(tiers, p)
    ensures PassesFaithful(SealLast(tiers), p)
  {
    var s := SealLast(tiers);
    if |tiers| == 1 {
      BlockPassesNoPass(tiers[0]);
      assert s == [BlockPasses(tiers[0])];
    } else {
      assert s[0] == tiers[0] && s[1..] == SealLast(tiers[1..]);
      forall r: Acl | r in s[0] && r.action == Pass ensures ChainFaithful(r, s[1..], p) {
        SealChainFaithful(r, tiers[1..], p);
      }
    }
  }

  /** flattenTiers: for every list of tiers and every packet its passes combine faithfully, the first rule of the
      output that matches carries the id and the action of the rule at which the backtracking walk stops. */
  lemma FlattenStops(tiers: Tiers, p: Packet)
    requires PassesFaithful(tiers, p)
    ensures FirstStop(Flatten(tiers), p) == StopTiers(tiers, p)
  {
    if tiers != [] {
      SealKeepsFaithful(tiers, p);
      BlockPassesNoPass(tiers[|tiers| - 1]);
      FlattenRecCorrect(SealLast(tiers), p);
      SealKeepsDecision(tiers, p);
    }
  }

  /** So first match over the output is the backtracking walk. */
  lemma FlattenBacktracks(tiers: Tiers, p: Packet)
    requires PassesFaithful(tiers, p)
    ensures FirstMatch(Flatten(tiers), p) == BacktrackTiers(tiers, p)
  {
    FlattenStops(tiers, p);
    FirstStopAction(Flatten(tiers), p);
    if tiers != [] { BacktrackStopAction(tiers[0], tiers[1..], p); }
  }

  /** With exact port lists that is every packet. */
  lemma ExactPortsBacktrack(tiers: Tiers, p: Packet)
    requires ValidPacket(p) && AllBounded(tiers) && PortsCompatible(tiers)
    ensures FirstMatch(Flatten(tiers), p) == BacktrackTiers(tiers, p)
  {
    ExactPortsFaithful(tiers, p);
    FlattenBacktracks(tiers, p);
  }

  /** A decision of the plain walk is that of the backtracking one. */
  lemma {:induction false} WalkBacktracks(rules: seq<Acl>, later: Tiers, p: Packet)
    requires Walk([rules] + later, p).Some?
    ensures Backtrack(rules, later, p) == Walk([rules] + later, p)
    decreases |later|, |rules|
  {
    assert ([rules] + later)[1..] == later;
    if !Matches(rules[0], p) {
      assert ([rules[1..]] + later)[1..] == later;
      WalkBacktracks(rules[1..], later, p);
    } else if rules[0].action == Pass && later != [] {
      assert [later[0]] + later[1..] == later;
      WalkBacktracks(later[0], later[1..], p);
    }
  }

  lemma WalkIsBacktracking(tiers: Tiers, p: Packet)
    requires Walk(tiers, p).Some?
    ensures BacktrackTiers(tiers, p) == Walk(tiers, p)
  {
    assert [tiers[0]] + tiers[1..] == tiers;
    WalkBacktracks(tiers[0], tiers[1..], p);
  }

  /** First match over the flattened list is the tier walk exactly for the packets that the walk decides, or
      that no sequence of passes leads to a decision. */
  lemma FlattenCorrect(tiers: Tiers, p: Packet)
    requires PassesFaithful(tiers, p)
    ensures FirstMatch(Flatten(tiers), p) == Walk(tiers, p) <==> Walk(tiers, p).Some? || BacktrackTiers(tiers, p).None?
  {
    FlattenBacktracks(tiers, p);
    if Walk(tiers, p).Some? {
      WalkIsBacktracking(tiers, p);
    }
  }

  /** Tiers that each end in a catch-all meet that condition for every packet. */
  lemma {:induction false} CatchAllsDecide(tiers: Tiers, p: Packet)
    requires CatchesAfterFirst(tiers, p)
    ensures Walk(tiers, p).Some? || BacktrackTiers(tiers, p).None?
    ensures tiers != [] && AnyMatch(tiers[0], p) ==> Walk(tiers, p).Some?
  {
    if tiers != [] {
      FirstMatchSome(tiers[0], p);
      if FirstMatch(tiers[0], p).None? {
        NothingMatches(tiers[0], tiers[1..], p);
      } else if |tiers| > 1 {
        forall k | 0 < k < |tiers[1..]| ensures AnyMatch(tiers[1..][k], p) {
          assert tiers[1..][k] == tiers[k + 1];
        }
        CatchAllsDecide(tiers[1..], p);
      }
    }
  }

  lemma {:induction false} NothingMatches(rules: seq<Acl>, later: Tiers, p: Packet)
    requires FirstMatch(rules, p).None?
    ensures Backtrack(rules, later, p).None?
    decreases rules
  {
    if rules != [] { NothingMatches(rules[1..], later, p); }
  }

  lemma {:induction false} FlattenRecNoPass(tiers: Tiers)
    requires tiers != [] ==> !HasPass(tiers[|tiers| - 1])
    ensures !HasPass(FlattenRec(tiers))
    decreases |tiers|
  {
    if |tiers| >= 2 && HasPass(tiers[0]) {
      ExpandStaysSealed(tiers);
      FlattenRecNoPass([Expand(tiers[0], tiers[1])] + tiers[2..]);
    }
  }

  /** For every input at all, no Pass rule survives. */
  lemma FlattenNoPass(tiers: Tiers)
    ensures !HasPass(Flatten(tiers))
  {
    if tiers != [] {
      BlockPassesNoPass(tiers[|tiers| - 1]);
    }
    FlattenRecNoPass(SealLast(tiers));
  }

  // ----- where the rules come from -----

  /** c stands for an input rule: with its id, priority and action, or as a Block for a Pass of the last tier. */
  ghost predicate StandsFor(c: Acl, tiers: Tiers) {
    exists k, r: Acl :: 0 <= k < |tiers| && r in tiers[k] && c.id == r.id && c.priority == r.priority
      && (c.action == r.action != Pass || (k == |tiers| - 1 && r.action == Pass && c.action == Block))
  }

  /** ... or, while passes are left, for one of those. */
  ghost predicate Derived(c: Acl, tiers: Tiers) {
    exists k, r: Acl :: 0 <= k < |tiers| && r in tiers[k]
      && c.id == r.id && c.priority == r.priority && c.action == r.action
  }

  lemma {:induction false} FlattenRecDerived(tiers: Tiers, c: Acl)
    requires c in FlattenRec(tiers)
    ensures Derived(c, tiers)
    decreases |tiers|
  {
    if |tiers| >= 2 && HasPass(tiers[0]) {
      var next := [Expand(tiers[0], tiers[1])] + tiers[2..];
      FlattenRecDerived(next, c);
      var k: int, r: Acl :| 0 <= k < |next| && r in next[k]
        && c.id == r.id && c.priority == r.priority && c.action == r.action;
      if k == 0 {
        ExpandMembers(tiers[0], tiers[1], r);
        if r in tiers[0] && r.action != Pass {
        } else {
          var q, t :| q in tiers[0] && q.action == Pass && t in tiers[1] && Overlap(q, t) && r == Combine(q, t);
          assert t in tiers[1] && c.id == t.id && c.priority == t.priority && c.action == t.action;
        }
      } else {
        assert next[k] == tiers[k + 1] && r in tiers[k + 1];
      }
    } else {
      assert c in tiers[0];
    }
  }

  /** For every input, each rule of the flattened list has the id, priority and sealed action of one input rule. */
  lemma FlattenOrigins(tiers: Tiers, c: Acl)
    requires c in Flatten(tiers)
    ensures StandsFor(c, tiers)
  {
    var s := SealLast(tiers);
    FlattenRecDerived(s, c);
    FlattenNoPass(tiers);
    var k: int, r: Acl :| 0 <= k < |s| && r in s[k]
      && c.id == r.id && c.priority == r.priority && c.action == r.action;
    if k == |tiers| - 1 {
      var m :| 0 <= m < |s[k]| && s[k][m] == r;
      var o := tiers[k][m];
      assert o in tiers[k] && r == PassToBlock(o);
    } else {
      assert s[k] == tiers[k];
    }
  }

  // ----- size -----

  function Product(tiers: Tiers): nat {
    if tiers == [] then 1 else |tiers[0]| * Product(tiers[1..])
  }

  lemma {:induction false} CombineAllLength(r: Acl, second: seq<Acl>)
    ensures |CombineAll(r, second)| <= |second|
  {
    if second != [] { CombineAllLength(r, second[1..]); }
  }

  lemma MulSucc(n: nat, k: nat, m: nat)
    requires n == k + 1
    ensures n * m == k * m + m
  {
  }

  lemma {:induction false} ExpandLength(first: seq<Acl>, second: seq<Acl>)
    requires second != []
    ensures |Expand(first, second)| <= |first| * |second|
  {
    if first != [] {
      CombineAllLength(first[0], second);
      ExpandLength(first[1..], second);
      MulSucc(|first|, |first[1..]|, |second|);
    }
  }

  lemma {:induction false} ProductPositive(tiers: Tiers)
    requires forall k :: 0 <= k < |tiers| ==> tiers[k] != []
    ensures Product(tiers) >= 1
  {
    if tiers != [] {
      ProductPositive(tiers[1..]);
      MulMonotone(1, |tiers[0]|, Product(tiers[1..]));
    }
  }

  lemma MulMonotone(a: nat, b: nat, c: nat)
    requires a <= b
    ensures a * c <= b * c && c * a <= c * b
  {
  }

  lemma ExpandedProduct(n: nat, a: nat, b: nat, c: nat)
    requires n <= a * b
    ensures n * c <= a * (b * c)
  {
    MulMonotone(n, a * b, c);
    assert (a * b) * c == a * (b * c);
  }

  lemma {:induction false} FlattenRecLength(tiers: Tiers)
    requires tiers != [] && forall k :: 0 < k < |tiers| ==> tiers[k] != []
    ensures |FlattenRec(tiers)| <= Product(tiers)
    decreases |tiers|
  {
    var first, rest := tiers[0], tiers[1..];
    if |tiers| >= 2 && HasPass(first) {
      var next := [Expand(first, rest[0])] + rest[1..];
      assert next == [Expand(first, tiers[1])] + tiers[2..] && next[1..] == rest[1..];
      FlattenRecLength(next);
      ExpandLength(first, rest[0]);
      ExpandedProduct(|next[0]|, |first|, |rest[0]|, Product(rest[1..]));
    } else {
      ProductPositive(rest);
      MulMonotone(1, Product(rest), |first|);
    }
  }

  lemma {:induction false} SealProduct(tiers: Tiers)
    ensures Product(SealLast(tiers)) == Product(tiers)
  {
    if tiers != [] {
      if |tiers| > 1 {
        assert SealLast(tiers)[1..] == SealLast(tiers[1..]);
        SealProduct(tiers[1..]);
      } else {
        assert SealLast(tiers)[1..] == tiers[1..];
      }
    }
  }

  /** The flattened list is no longer than the product of the tier lengths. */
  lemma FlattenLength(tiers: Tiers)
    requires forall k :: 0 <= k < |tiers| ==> tiers[k] != []
    ensures |Flatten(tiers)| <= Product(tiers)
  {
    if tiers != [] {
      var s := SealLast(tiers);
      FlattenRecLength(s);
      SealProduct(tiers);
    }
  }

  // ----- the conditions are needed -----

  function AnyRule(id: string, action: Action): Acl { Acl(id, action, ANY_PROTOCOL, [], [], "", "", 0) }

  lemma TwoTiers(first: seq<Acl>, second: seq<Acl>, p: Packet)
    requires HasPass(first) && !HasPass(second)
    ensures Flatten([first, second]) == Expand(first, second)
    ensures Walk([first, second], p) ==
            if FirstMatch(first, p) == Some(Pass) then FirstMatch(second, p) else FirstMatch(first, p)
  {
    var tiers := [first, second];
    assert BlockPasses(second) == second;
    assert SealLast(tiers) == tiers;
    assert tiers[2..] == [] && FlattenRec(tiers) == FlattenRec([Expand(first, second)]);
    FirstMatchSome(second, p);
    assert tiers[1..] == [second];
  }

  lemma TwoRules(a: Acl, b: Acl, p: Packet)
    ensures FirstMatch([a, b], p) ==
            if Matches(a, p) then Some(a.action) else if Matches(b, p) then Some(b.action) else None
  {
    assert [a, b][1..] == [b] && [b][1..] == [];
    assert FirstMatch([b], p) == if Matches(b, p) then Some(b.action) else None;
  }

  /** Disjoint port lists: the walk blocks a packet that the flattened list allows, since the empty
      intersection is printed as "any port". */
  lemma DisjointPortsAllow(pass: string, allow: string, p: Packet)
    requires pass != "" && allow != "" && Bounded(pass) && Bounded(allow)
    requires Parsed(pass).members !! Parsed(allow).members
    requires ValidPacket(p) && p.localPort in Parsed(pass).members
    ensures var tiers := [[AnyRule("pass", Pass).(localPorts := pass)],
                          [AnyRule("allow", Allow).(localPorts := allow), AnyRule("end", Block)]];
            Walk(tiers, p) == Some(Block) && FirstMatch(Flatten(tiers), p) == Some(Allow)
  {
    var r := AnyRule("pass", Pass).(localPorts := pass);
    var s := AnyRule("allow", Allow).(localPorts := allow);
    var end := AnyRule("end", Block);
    assert [r][0] == r;
    TwoTiers([r], [s, end], p);
    TwoRules(s, end, p);
    CombinedReadsBack(pass, allow);
    assert Parsed(pass).members * Parsed(allow).members == {};
    var flat := Expand([r], [s, end]);
    assert flat == CombineAll(r, [s, end]) + Expand([r][1..], [s, end]);
    assert flat[0] == Combine(r, s);
  }

  /** Such lists exist: ports 80 and 443. */
  lemma DisjointPortsExist()
    ensures exists pass, allow, p: Packet ::
              && pass != "" && allow != "" && Bounded(pass) && Bounded(allow)
              && Parsed(pass).members !! Parsed(allow).members
              && ValidPacket(p) && p.localPort in Parsed(pass).members
  {
    var a: seq<Run>, b: seq<Run> := [(80, 80)], [(443, 443)];
    RunsReadBack(a);
    RunsReadBack(b);
    var pass, allow := Join(RunTexts(a), ','), Join(RunTexts(b), ',');
    var p := Packet(6, IP("", []), IP("", []), 80, 0);
    assert forall q :: q in Parsed(pass).members ==> q == 80;
    assert forall q :: q in Parsed(allow).members ==> q == 443;
    assert InRuns(a, 80) by { assert a[0].0 <= 80 <= a[0].1; }
  }

  function WithoutPasses(rules: seq<Acl>): seq<Acl> {
    if rules == [] then [] else (if rules[0].action == Pass then [] else [rules[0]]) + WithoutPasses(rules[1..])
  }

  lemma {:induction false} FallBack(rules: seq<Acl>, later: Tiers, p: Packet)
    requires later != [] && BacktrackTiers(later, p).None?
    ensures Backtrack(rules, later, p) == FirstMatch(WithoutPasses(rules), p)
    decreases rules
  {
    if rules != [] {
      FallBack(rules[1..], later, p);
      var rest := WithoutPasses(rules[1..]);
      assert ([rules[0]] + rest)[1..] == rest && [] + rest == rest;
    }
  }

  /** A packet that the first tier passes on and the later tiers leave undecided: the walk finds no decision, the
      flattened list falls back into the first tier and decides as its other rules do. So the two differ exactly
      when one of those matches. */
  lemma MissingCatchAllFallsBack(tiers: Tiers, p: Packet)
    requires PassesFaithful(tiers, p)
    requires |tiers| >= 2 && FirstMatch(tiers[0], p) == Some(Pass) && BacktrackTiers(tiers[1..], p).None?
    ensures Walk(tiers, p) == None && FirstMatch(Flatten(tiers), p) == FirstMatch(WithoutPasses(tiers[0]), p)
    ensures FirstMatch(Flatten(tiers), p) != Walk(tiers, p) <==> AnyMatch(WithoutPasses(tiers[0]), p)
  {
    if Walk(tiers[1..], p).Some? {
      WalkIsBacktracking(tiers[1..], p);
    }
    FlattenBacktracks(tiers, p);
    FallBack(tiers[0], tiers[1..], p);
    FirstMatchSome(WithoutPasses(tiers[0]), p);
  }

  /** Such a packet: the second tier names UDP only. */
  lemma MissingCatchAllInput(p: Packet)
    requires p.protocol != 17
    ensures var tiers := [[AnyRule("pass", Pass), AnyRule("allow", Allow)], [AnyRule("udp", Block).(protocol := 17)]];
            Walk(tiers, p) == None && FirstMatch(Flatten(tiers), p) == Some(Allow)
  {
    var pass, allow, udp := AnyRule("pass", Pass), AnyRule("allow", Allow), AnyRule("udp", Block).(protocol := 17);
    assert [pass, allow][0] == pass;
    TwoTiers([pass, allow], [udp], p);
    assert CombineAll(pass, [udp]) == [Combine(pass, udp)] + CombineAll(pass, [udp][1..]);
    assert Expand([pass, allow][1..], [udp]) == [allow] + Expand([allow][1..], [udp]);
    assert Expand([pass, allow], [udp]) == [Combine(pass, udp), allow];
    TwoRules(Combine(pass, udp), allow, p);
  }

  // ----- the port condition is exact for two rules -----

  /** One side's ports: both lists name the port, against the combined list naming it. */
  predicate BothPorts(a: string, b: string, port: nat) { PortMatches(a, port) && PortMatches(b, port) }

  /** Whether combinePorts is wrong about a port, by saying too much or too little. */
  predicate TooMuch(a: string, b: string, port: nat) {
    port < PORT_SPACE && PortMatches(Combined(a, b), port) && !BothPorts(a, b, port)
  }

  predicate TooLittle(a: string, b: string, port: nat) {
    port < PORT_SPACE && !PortMatches(Combined(a, b), port) && BothPorts(a, b, port)
  }

  /** The list names some port at all. */
  ghost predicate NamesSome(s: string) { exists port: nat :: port < PORT_SPACE && PortMatches(s, port) }

  lemma SomeCombinedPort(a: string, b: string) returns (port: nat)
    requires Bounded(a) && Bounded(b) && NamesSome(a) && NamesSome(b)
    ensures port < PORT_SPACE && PortMatches(Combined(a, b), port)
  {
    port := 0;
    if a == "" {
      port :| port < PORT_SPACE && PortMatches(b, port);
    } else if b == "" {
      port :| port < PORT_SPACE && PortMatches(a, port);
    } else {
      CombinedReadsBack(a, b);
      CombinedBounded(a, b);
      if Combined(a, b) != "" {
        var i := Intersection(Parsed(a), Parsed(b));
        port :| port in i.members && ClearAfter(i, port);
      }
    }
  }

  /** The combined list names some port; an exact one names a port of both lists; an inexact one is wrong
      about some port. */
  lemma CombinedPorts(a: string, b: string) returns (named: nat, wrong: nat)
    requires Bounded(a) && Bounded(b) && NamesSome(a) && NamesSome(b)
    ensures named < PORT_SPACE && PortMatches(Combined(a, b), named)
    ensures PortsExact(a, b) ==> BothPorts(a, b, named)
    ensures !PortsExact(a, b) ==> TooMuch(a, b, wrong) || TooLittle(a, b, wrong)
  {
    CombinePortsExactIff(a, b);
    named := SomeCombinedPort(a, b);
    wrong := 0;
    if !PortsExact(a, b) {
      wrong :| wrong < PORT_SPACE && PortMatches(Combined(a, b), wrong) !=
          (PortMatches(a, wrong) && PortMatches(b, wrong));
    }
  }

  /** Two verdicts on one packet: what the combined rule says and what the two rules say. */
  predicate Misjudged(r1: Acl, r2: Acl, p: Packet)
    requires Overlap(r1, r2)
  {
    ValidPacket(p) && !Faithful(r1, r2, p)
  }

  /** A packet both rules admit but for its ports. */
  function Meeting(r1: Acl, r2: Acl, local: IP, remote: IP, x: nat, y: nat): Packet {
    Packet(if r1.protocol != ANY_PROTOCOL then r1.protocol else r2.protocol, local, remote, x, y)
  }

  lemma MeetingMatches(r1: Acl, r2: Acl, local: IP, remote: IP, x: nat, y: nat)
    requires Overlap(r1, r2)
    requires AddrMatches(r1.localAddrs, local) && AddrMatches(r2.localAddrs, local)
    requires AddrMatches(r1.remoteAddrs, remote) && AddrMatches(r2.remoteAddrs, remote)
    ensures var p := Meeting(r1, r2, local, remote, x, y);
            && (Matches(Combine(r1, r2), p) <==>
                PortMatches(Combined(r1.localPorts, r2.localPorts), x)
                && PortMatches(Combined(r1.remotePorts, r2.remotePorts), y))
            && (Matches(r1, p) && Matches(r2, p) <==>
                BothPorts(r1.localPorts, r2.localPorts, x) && BothPorts(r1.remotePorts, r2.remotePorts, y))
  {
    CombinedNetsMeaning(r1.localAddrs, r2.localAddrs, local);
    CombinedNetsMeaning(r1.remoteAddrs, r2.remoteAddrs, remote);
  }

  /** An inexact pair misjudges some packet between any addresses both rules match. */
  lemma InexactPairMisjudges(r1: Acl, r2: Acl, local: IP, remote: IP) returns (p: Packet)
    requires Overlap(r1, r2) && RuleBounded(r1) && RuleBounded(r2) && !RulesExact(r1, r2)
    requires NamesSome(r1.localPorts) && NamesSome(r2.localPorts)
    requires NamesSome(r1.remotePorts) && NamesSome(r2.remotePorts)
    requires AddrMatches(r1.localAddrs, local) && AddrMatches(r2.localAddrs, local)
    requires AddrMatches(r1.remoteAddrs, remote) && AddrMatches(r2.remoteAddrs, remote)
    ensures Misjudged(r1, r2, p)
  {
    var l, lw := CombinedPorts(r1.localPorts, r2.localPorts);
    var m, mw := CombinedPorts(r1.remotePorts, r2.remotePorts);
    var (x, y) := WrongPorts(r1.localPorts, r2.localPorts, r1.remotePorts, r2.remotePorts, l, lw, m, mw);
    p := Meeting(r1, r2, local, remote, x, y);
    MeetingMatches(r1, r2, local, remote, x, y);
  }

  /** Which ports to put on the packet: a port said too much on one side with a named one on the other, or
      a port said too little with one of both lists. */
  ghost function WrongPorts(a: string, b: string, c: string, d: string, l: nat, lw: nat, m: nat,
      mw: nat): (r: (nat, nat))
    requires l < PORT_SPACE && PortMatches(Combined(a, b), l) && m < PORT_SPACE && PortMatches(Combined(c, d), m)
    requires PortsExact(a, b) ==> BothPorts(a, b, l)
    requires PortsExact(c, d) ==> BothPorts(c, d, m)
    requires !PortsExact(a, b) ==> TooMuch(a, b, lw) || TooLittle(a, b, lw)
    requires !PortsExact(c, d) ==> TooMuch(c, d, mw) || TooLittle(c, d, mw)
    requires !(PortsExact(a, b) && PortsExact(c, d))
    ensures r.0 < PORT_SPACE && r.1 < PORT_SPACE
    ensures (PortMatches(Combined(a, b), r.0) && PortMatches(Combined(c, d), r.1)) !=
            (BothPorts(a, b, r.0) && BothPorts(c, d, r.1))
  {
    if TooMuch(a, b, lw) then (lw, m)
    else if TooMuch(c, d, mw) then (l, mw)
    else if PortsExact(a, b) then (l, mw)
    else if PortsExact(c, d) then (lw, m)
    else (lw, mw)
  }

  /** Rules that can meet: both match these addresses, and every port list names some port. */
  ghost predicate CanMeet(r1: Acl, r2: Acl, local: IP, remote: IP) {
    && Overlap(r1, r2) && RuleBounded(r1) && RuleBounded(r2)
    && NamesSome(r1.localPorts) && NamesSome(r2.localPorts) && NamesSome(r1.remotePorts) && NamesSome(r2.remotePorts)
    && AddrMatches(r1.localAddrs, local) && AddrMatches(r2.localAddrs, local)
    && AddrMatches(r1.remoteAddrs, remote) && AddrMatches(r2.remoteAddrs, remote)
  }

  /** combineRules is the conjunction of two such rules exactly when both port pairs are exact. */
  lemma CombineExactIff(r1: Acl, r2: Acl, local: IP, remote: IP)
    requires CanMeet(r1, r2, local, remote)
    ensures (forall p :: !Misjudged(r1, r2, p)) <==> RulesExact(r1, r2)
  {
    if RulesExact(r1, r2) {
      forall p ensures !Misjudged(r1, r2, p) {
        if ValidPacket(p) { CombineMeaning(r1, r2, p); }
      }
    } else {
      var p := InexactPairMisjudges(r1, r2, local, remote);
      assert Misjudged(r1, r2, p);
    }
  }

  function Opposite(a: Action): Action { if a == Allow then Block else Allow }

  /** The least tiers a pass can go through: one passing rule, then one deciding rule and a catch-all that
      decides otherwise. */
  function PassThen(r: Acl, s: Acl): Tiers { [[r.(action := Pass)], [s, AnyRule("end", Opposite(s.action))]] }

  lemma PassThenSteps(r: Acl, s: Acl, p: Packet)
    requires Overlap(r, s) && s.action != Pass
    ensures Walk(PassThen(r, s), p) ==
            if !Matches(r, p) then None else if Matches(s, p) then Some(s.action) else Some(Opposite(s.action))
    ensures FirstMatch(Flatten(PassThen(r, s)), p) ==
            if Matches(Combine(r, s), p) then Some(s.action)
            else if Matches(r, p) then Some(Opposite(s.action)) else None
  {
    var pass, end := r.(action := Pass), AnyRule("end", Opposite(s.action));
    assert [pass][0] == pass;
    TwoTiers([pass], [s, end], p);
    TwoRules(s, end, p);
    assert FirstMatch([pass], p) == if Matches(r, p) then Some(Pass) else None by { assert [pass][1..] == []; }
    assert Expand([pass], [s, end]) == CombineAll(pass, [s, end]) by { assert Expand([pass][1..], [s, end]) == []; }
    assert [s, end][1..] == [end] && [end][1..] == [];
    assert CombineAll(pass, [end]) == [Combine(pass, end)];
    assert CombineAll(pass, [s, end]) == [Combine(pass, s), Combine(pass, end)];
    TwoRules(Combine(pass, s), Combine(pass, end), p);
  }

  /** For each packet, such a pass is compiled faithfully exactly when its two rules are combined so. */
  lemma PassThenFaithfulIff(r: Acl, s: Acl, p: Packet)
    requires Overlap(r, s) && s.action != Pass
    ensures FirstMatch(Flatten(PassThen(r, s)), p) == Walk(PassThen(r, s), p) <==> Faithful(r, s, p)
  {
    PassThenSteps(r, s, p);
  }

  /** The port condition of the flattener is needed: for any two rules that can meet, a pass through the
      first to the second is compiled faithfully for every packet exactly when their port pairs are exact. */
  lemma PassThenExactIff(r: Acl, s: Acl, local: IP, remote: IP)
    requires CanMeet(r, s, local, remote) && s.action != Pass
    ensures (forall p :: ValidPacket(p) ==> FirstMatch(Flatten(PassThen(r, s)), p) == Walk(PassThen(r, s), p)) <==>
            RulesExact(r, s)
  {
    CombineExactIff(r, s, local, remote);
    forall p | ValidPacket(p)
      ensures FirstMatch(Flatten(PassThen(r, s)), p) == Walk(PassThen(r, s), p) <==> !Misjudged(r, s, p)
    {
      PassThenFaithfulIff(r, s, p);
    }
    if p :| Misjudged(r, s, p) {
      assert ValidPacket(p) && FirstMatch(Flatten(PassThen(r, s)), p) != Walk(PassThen(r, s), p);
    }
  }
}
