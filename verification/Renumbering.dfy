/** Priority renumbering: a dataplane that breaks priority ties in its own way must still decide as
    first match does. Priorities are 16-bit. */
module Renumbering {
  import opened Text
  import opened Flattening

  const PRIORITY_SPACE: nat := 0x1_0000

  /** How often the action changes between neighbours up to position i. */
  function Changes(rules: seq<Acl>, i: nat): nat
    requires i < |rules|
  {
    if i == 0 then 0
    else Changes(rules, i - 1) + if rules[i - 1].action != rules[i].action then 1 else 0
  }

  /** Whether every rule gets its own priority; limit - base is a 16-bit subtraction. */
  predicate AlwaysIncrement(n: nat, base: nat, limit: nat) { n < (limit - base) % PRIORITY_SPACE }

  /** The priority given to position i: a 16-bit counter bumped per rule or per action change. */
  function PriorityAt(rules: seq<Acl>, base: nat, limit: nat, i: nat): nat
    requires i < |rules|
  {
    (base + if AlwaysIncrement(|rules|, base, limit) then i else Changes(rules, i)) % PRIORITY_SPACE
  }

  function Rewritten(rules: seq<Acl>, base: nat, limit: nat): (r: seq<Acl>)
    ensures |r| == |rules|
  {
    if |rules| <= 1 then rules
    else seq(|rules|, i requires 0 <= i < |rules| => rules[i].(priority := PriorityAt(rules, base, limit, i)))
  }

  lemma ModStep(a: nat)
    ensures (a + 1) % PRIORITY_SPACE == (a % PRIORITY_SPACE + 1) % PRIORITY_SPACE
  {
  }

  lemma PriorityStep(rules: seq<Acl>, base: nat, limit: nat, i: nat)
    requires 0 < i < |rules|
    ensures PriorityAt(rules, base, limit, i) ==
            var before := PriorityAt(rules, base, limit, i - 1);
            if AlwaysIncrement(|rules|, base, limit) || rules[i - 1].action != rules[i].action
            then (before + 1) % PRIORITY_SPACE else before
  {
    ModStep(base + if AlwaysIncrement(|rules|, base, limit) then i - 1 else Changes(rules, i - 1));
  }

  /** The recurrence the numbering loops follow. */
  lemma PrioritySteps(rules: seq<Acl>, base: nat, limit: nat) returns (ps: seq<nat>)
    requires |rules| > 1 && base < PRIORITY_SPACE
    ensures |ps| == |rules| && ps[0] == base
    ensures forall i :: 0 < i < |ps| ==>
              ps[i] == if AlwaysIncrement(|rules|, base, limit) || rules[i - 1].action != rules[i].action
                       then (ps[i - 1] + 1) % PRIORITY_SPACE else ps[i - 1]
    ensures forall i :: 0 <= i < |ps| ==> Rewritten(rules, base, limit)[i] == rules[i].(priority := ps[i])
  {
    ps := seq(|rules|, i requires 0 <= i < |rules| => PriorityAt(rules, base, limit, i));
    forall i | 0 < i < |ps|
      ensures ps[i] == if AlwaysIncrement(|rules|, base, limit) || rules[i - 1].action != rules[i].action
                       then (ps[i - 1] + 1) % PRIORITY_SPACE else ps[i - 1]
    {
      PriorityStep(rules, base, limit, i);
    }
  }

  /** Renumbering a list touches priorities only. With room for it below the limit, each rule gets the next number;
      otherwise a rule gets the next number when its action differs from the one before, and the same when not. */
  lemma NumberingMeaning(rules: seq<Acl>, base: nat, limit: nat, i: nat)
    requires base <= limit < PRIORITY_SPACE && i < |rules|
    ensures var out := Rewritten(rules, base, limit);
            && out[i].(priority := rules[i].priority) == rules[i]
            && (|rules| > 1 && i == 0 ==> out[0].priority == base)
            && (|rules| > 1 && i > 0 && |rules| < limit - base ==> out[i].priority == out[i - 1].priority + 1)
            && (|rules| > 1 && i > 0 && |rules| >= limit - base ==>
                  out[i].priority ==
                  if rules[i].action == rules[i - 1].action then out[i - 1].priority
                  else (out[i - 1].priority + 1) % PRIORITY_SPACE)
  {
    Below(limit - base, limit - base);
    if |rules| > 1 && i > 0 {
      PriorityStep(rules, base, limit, i);
      if |rules| < limit - base { Below(base + i - 1, base + i); }
    }
  }

  /** A choice a tie-breaking dataplane may make: some matching rule of least priority. */
  predicate LeastPriorityMatch(rules: seq<Acl>, p: Packet, k: nat) {
    && k < |rules| && Matches(rules[k], p)
    && forall j :: 0 <= j < |rules| && Matches(rules[j], p) ==> rules[k].priority <= rules[j].priority
  }

  /** No 16-bit wrap happens while numbering. */
  predicate NoWrap(rules: seq<Acl>, base: nat, limit: nat) {
    |rules| > 1 ==>
      base + (if AlwaysIncrement(|rules|, base, limit) then |rules| - 1 else Changes(rules, |rules| - 1))
        < PRIORITY_SPACE
  }

  lemma {:induction false} ChangesMonotone(rules: seq<Acl>, i: nat, j: nat)
    requires i <= j < |rules|
    ensures Changes(rules, i) <= Changes(rules, j) <= j
    ensures Changes(rules, i) == Changes(rules, j) ==> rules[i].action == rules[j].action
  {
    if i < j {
      ChangesMonotone(rules, i, j - 1);
    } else if i > 0 {
      ChangesMonotone(rules, i - 1, i - 1);
    }
  }

  lemma {:induction false} FirstMatchIndex(rules: seq<Acl>, p: Packet) returns (f: nat)
    requires AnyMatch(rules, p)
    ensures f < |rules| && Matches(rules[f], p) && FirstMatch(rules, p) == Some(rules[f].action)
    ensures forall j :: 0 <= j < f ==> !Matches(rules[j], p)
  {
    if Matches(rules[0], p) {
      f := 0;
    } else {
      var g := FirstMatchIndex(rules[1..], p);
      f := g + 1;
      assert forall j :: 0 < j < f ==> rules[j] == rules[1..][j - 1];
    }
  }

  lemma Below(a: nat, b: nat)
    requires a <= b < PRIORITY_SPACE
    ensures a % PRIORITY_SPACE == a && b % PRIORITY_SPACE == b
  {
  }

  /** Without a wrap, later rules never get a smaller priority, and a tie means the same action. */
  lemma PrioritiesOrdered(rules: seq<Acl>, base: nat, limit: nat, i: nat, j: nat)
    requires |rules| > 1 && NoWrap(rules, base, limit) && i <= j < |rules|
    ensures PriorityAt(rules, base, limit, i) <= PriorityAt(rules, base, limit, j)
    ensures PriorityAt(rules, base, limit, i) == PriorityAt(rules, base, limit, j) ==>
              rules[i].action == rules[j].action
  {
    ChangesMonotone(rules, i, j);
    ChangesMonotone(rules, j, |rules| - 1);
    if AlwaysIncrement(|rules|, base, limit) {
      Below(base + i, base + j);
    } else {
      Below(base + Changes(rules, i), base + Changes(rules, j));
    }
  }

  /** Whichever matching rule of least priority is picked, it has the first match's action. */
  lemma RenumberingIsTieBreakIndependent(rules: seq<Acl>, base: nat, limit: nat, p: Packet, k: nat)
    requires NoWrap(rules, base, limit)
    requires LeastPriorityMatch(Rewritten(rules, base, limit), p, k)
    ensures FirstMatch(rules, p) == Some(Rewritten(rules, base, limit)[k].action)
  {
    var out := Rewritten(rules, base, limit);
    assert Matches(rules[k], p) && rules[k] in rules;
    var f := FirstMatchIndex(rules, p);
    assert Matches(out[f], p);
    if |rules| > 1 {
      PrioritiesOrdered(rules, base, limit, f, k);
    }
  }

  lemma {:induction false} LeastUpTo(rules: seq<Acl>, p: Packet, n: nat) returns (k: nat)
    requires n <= |rules| && exists j :: 0 <= j < n && Matches(rules[j], p)
    ensures k < n && Matches(rules[k], p)
    ensures forall j :: 0 <= j < n && Matches(rules[j], p) ==> rules[k].priority <= rules[j].priority
  {
    if j :| 0 <= j < n - 1 && Matches(rules[j], p) {
      k := LeastUpTo(rules, p, n - 1);
      if Matches(rules[n - 1], p) && rules[n - 1].priority < rules[k].priority { k := n - 1; }
    } else {
      k := n - 1;
    }
  }

  /** Some choice is possible exactly when some rule matches. */
  lemma LeastPriorityMatchExists(rules: seq<Acl>, p: Packet)
    ensures AnyMatch(rules, p) <==> exists k :: LeastPriorityMatch(rules, p, k)
  {
    if AnyMatch(rules, p) {
      var f := FirstMatchIndex(rules, p);
      var k := LeastUpTo(rules, p, |rules|);
      assert LeastPriorityMatch(rules, p, k);
    }
    if k: nat :| LeastPriorityMatch(rules, p, k) {
      assert rules[k] in rules;
    }
  }

  ghost predicate Ascending(rules: seq<Acl>) {
    forall i, j :: 0 <= i < j < |rules| ==> rules[i].priority <= rules[j].priority
  }

  lemma {:induction false} ChangesHitEachValue(rules: seq<Acl>, i: nat, v: nat) returns (k: nat)
    requires i < |rules| && 0 < v <= Changes(rules, i)
    ensures 0 < k <= i && Changes(rules, k) == v && Changes(rules, k - 1) == v - 1
    ensures rules[k - 1].action != rules[k].action
  {
    if Changes(rules, i) == v && Changes(rules, i - 1) == v - 1 {
      k := i;
    } else {
      k := ChangesHitEachValue(rules, i - 1, v);
    }
  }

  /** Grouping by action: the priorities ascend exactly when the action changes fit above base; once
      they do not, two neighbours with different actions are numbered in reverse. */
  lemma GroupedOrderIff(rules: seq<Acl>, base: nat, limit: nat)
    requires |rules| > 1 && !AlwaysIncrement(|rules|, base, limit) && base < PRIORITY_SPACE
    ensures Ascending(Rewritten(rules, base, limit)) <==> base + Changes(rules, |rules| - 1) < PRIORITY_SPACE
    ensures base + Changes(rules, |rules| - 1) >= PRIORITY_SPACE ==>
              exists k :: 0 < k < |rules| && rules[k - 1].action != rules[k].action
                && Rewritten(rules, base, limit)[k].priority < Rewritten(rules, base, limit)[k - 1].priority
  {
    var out, n := Rewritten(rules, base, limit), |rules| - 1;
    if base + Changes(rules, n) < PRIORITY_SPACE {
      forall i, j | 0 <= i < j < |rules| ensures out[i].priority <= out[j].priority {
        PrioritiesOrdered(rules, base, limit, i, j);
      }
    } else {
      var k := ChangesHitEachValue(rules, n, PRIORITY_SPACE - base);
      assert PriorityAt(rules, base, limit, k) == 0 && PriorityAt(rules, base, limit, k - 1) == PRIORITY_SPACE - 1;
      assert out[k].priority < out[k - 1].priority;
    }
  }

  // ----- when tie-breaks are safe -----

  predicate SameActions(a: seq<Acl>, b: seq<Acl>) {
    |a| == |b| && forall k :: 0 <= k < |a| ==> a[k].action == b[k].action
  }

  predicate Uniform(rules: seq<Acl>) { forall i, j :: 0 <= i < j < |rules| ==> rules[i].action == rules[j].action }

  /** Whatever rules carry these actions, every pick for the packet has the first match's action. */
  ghost predicate Safe(rules: seq<Acl>, base: nat, limit: nat, p: Packet) {
    forall other, k: nat ::
      SameActions(rules, other) && LeastPriorityMatch(Rewritten(other, base, limit), p, k) ==>
        FirstMatch(other, p) == Some(Rewritten(other, base, limit)[k].action)
  }

  lemma {:induction false} SameChanges(a: seq<Acl>, b: seq<Acl>, i: nat)
    requires SameActions(a, b) && i < |a|
    ensures Changes(a, i) == Changes(b, i)
  {
    if i > 0 { SameChanges(a, b, i - 1); }
  }

  lemma SameNumbering(a: seq<Acl>, b: seq<Acl>, base: nat, limit: nat)
    requires SameActions(a, b)
    ensures NoWrap(a, base, limit) == NoWrap(b, base, limit)
    ensures forall i :: 0 <= i < |a| ==> PriorityAt(a, base, limit, i) == PriorityAt(b, base, limit, i)
  {
    forall i | 0 <= i < |a| ensures Changes(a, i) == Changes(b, i) { SameChanges(a, b, i); }
  }

  lemma StraddlingPair(rules: seq<Acl>, v: nat) returns (i: nat, j: nat)
    requires !Uniform(rules) && 0 < v < |rules|
    ensures i < v <= j < |rules| && rules[i].action != rules[j].action
  {
    i, j :| 0 <= i < j < |rules| && rules[i].action != rules[j].action;
    if j < v {
      i, j := if rules[i].action != rules[v].action then i else j, v;
    } else if v <= i {
      i, j := v - 1, if rules[i].action != rules[v - 1].action then i else j;
    }
  }

  lemma ModBelow(a: nat, b: nat)
    requires a < PRIORITY_SPACE <= b < a + PRIORITY_SPACE
    ensures b % PRIORITY_SPACE < a % PRIORITY_SPACE
  {
  }

  /** A wrap puts two rules with different actions in reverse, unless all actions are equal. */
  lemma ReversedPair(rules: seq<Acl>, base: nat, limit: nat) returns (i: nat, j: nat)
    requires base < PRIORITY_SPACE && !NoWrap(rules, base, limit) && !Uniform(rules)
    ensures i < j < |rules| && rules[i].action != rules[j].action
    ensures PriorityAt(rules, base, limit, j) < PriorityAt(rules, base, limit, i)
  {
    var v := PRIORITY_SPACE - base;
    if AlwaysIncrement(|rules|, base, limit) {
      i, j := StraddlingPair(rules, v);
      ModBelow(base + i, base + j);
    } else {
      j := ChangesHitEachValue(rules, |rules| - 1, v);
      i := j - 1;
      ModBelow(base + Changes(rules, i), base + Changes(rules, j));
    }
  }

  /** The rules at i and j match everything, the others not this packet. */
  function OnlyTwo(rules: seq<Acl>, i: nat, j: nat, p: Packet): (r: seq<Acl>)
    ensures |r| == |rules|
  {
    seq(|rules|, m requires 0 <= m < |rules| =>
      AnyRule("r", rules[m].action).(protocol := if m == i || m == j then ANY_PROTOCOL
                                                 else if p.protocol == 6 then 17 else 6))
  }

  lemma OnlyTwoMatch(rules: seq<Acl>, i: nat, j: nat, p: Packet)
    requires i < j < |rules|
    ensures SameActions(rules, OnlyTwo(rules, i, j, p))
    ensures forall m :: 0 <= m < |rules| ==> (Matches(OnlyTwo(rules, i, j, p)[m], p) <==> m == i || m == j)
    ensures FirstMatch(OnlyTwo(rules, i, j, p), p) == Some(rules[i].action)
  {
    var out := OnlyTwo(rules, i, j, p);
    assert out[i] in out && Matches(out[i], p);
    var f := FirstMatchIndex(out, p);
  }

  /** Tie-breaks are safe for a sequence of actions, and for any packet, exactly when no number wraps or all actions
      are equal. */
  lemma TieBreakSafeIff(rules: seq<Acl>, base: nat, limit: nat, p: Packet)
    requires base < PRIORITY_SPACE
    ensures Safe(rules, base, limit, p) <==> NoWrap(rules, base, limit) || Uniform(rules)
  {
    if NoWrap(rules, base, limit) || Uniform(rules) {
      forall other, k: nat | SameActions(rules, other) && LeastPriorityMatch(Rewritten(other, base, limit), p, k)
        ensures FirstMatch(other, p) == Some(Rewritten(other, base, limit)[k].action)
      {
        SafePick(rules, other, base, limit, p, k);
      }
    } else {
      var i, j := ReversedPair(rules, base, limit);
      var other := OnlyTwo(rules, i, j, p);
      OnlyTwoMatch(rules, i, j, p);
      SameNumbering(rules, other, base, limit);
      assert LeastPriorityMatch(Rewritten(other, base, limit), p, j);
    }
  }

  lemma SafePick(rules: seq<Acl>, other: seq<Acl>, base: nat, limit: nat, p: Packet, k: nat)
    requires NoWrap(rules, base, limit) || Uniform(rules)
    requires SameActions(rules, other) && LeastPriorityMatch(Rewritten(other, base, limit), p, k)
    ensures FirstMatch(other, p) == Some(Rewritten(other, base, limit)[k].action)
  {
    SameNumbering(rules, other, base, limit);
    if NoWrap(rules, base, limit) {
      RenumberingIsTieBreakIndependent(other, base, limit, p, k);
    } else {
      assert Matches(other[k], p) && other[k] in other;
      var f := FirstMatchIndex(other, p);
      assert rules[f].action == rules[k].action;
    }
  }

  /** Some matching rule of least priority exists and every one has this action. */
  ghost predicate Decides(rules: seq<Acl>, p: Packet, action: Action) {
    && (exists k :: LeastPriorityMatch(rules, p, k))
    && forall k: nat :: LeastPriorityMatch(rules, p, k) ==> rules[k].action == action
  }

  lemma RewrittenMatches(rules: seq<Acl>, base: nat, limit: nat, p: Packet)
    requires AnyMatch(rules, p)
    ensures AnyMatch(Rewritten(rules, base, limit), p)
  {
    var f := FirstMatchIndex(rules, p);
    assert Matches(Rewritten(rules, base, limit)[f], p);
  }

  lemma RenumberedDecides(rules: seq<Acl>, base: nat, limit: nat, p: Packet)
    requires NoWrap(rules, base, limit) && AnyMatch(rules, p)
    ensures FirstMatch(rules, p).Some? && Decides(Rewritten(rules, base, limit), p, FirstMatch(rules, p).value)
  {
    FirstMatchSome(rules, p);
    RewrittenMatches(rules, base, limit, p);
    LeastPriorityMatchExists(Rewritten(rules, base, limit), p);
    forall k: nat | LeastPriorityMatch(Rewritten(rules, base, limit), p, k)
      ensures FirstMatch(rules, p) == Some(Rewritten(rules, base, limit)[k].action)
    {
      RenumberingIsTieBreakIndependent(rules, base, limit, p, k);
    }
  }

  /** The flattener followed by the renumbering, for every packet: any tie-break of the dataplane gives the
      action of the backtracking walk, and where that decides nothing no rule matches. */
  lemma FlattenedRenumberedCorrect(tiers: Tiers, base: nat, limit: nat, p: Packet)
    requires PassesFaithful(tiers, p) && NoWrap(Flatten(tiers), base, limit)
    ensures var d, out := BacktrackTiers(tiers, p), Rewritten(Flatten(tiers), base, limit);
            if d.Some? then Decides(out, p, d.value) else !AnyMatch(out, p)
    ensures Walk(tiers, p).Some? ==> Decides(Rewritten(Flatten(tiers), base, limit), p, Walk(tiers, p).value)
  {
    FlattenBacktracks(tiers, p);
    FirstMatchSome(Flatten(tiers), p);
    if Walk(tiers, p).Some? {
      WalkIsBacktracking(tiers, p);
    }
    if AnyMatch(Flatten(tiers), p) {
      RenumberedDecides(Flatten(tiers), base, limit, p);
    } else {
      RewrittenNoMatch(Flatten(tiers), base, limit, p);
    }
  }

  lemma RewrittenNoMatch(rules: seq<Acl>, base: nat, limit: nat, p: Packet)
    requires !AnyMatch(rules, p)
    ensures !AnyMatch(Rewritten(rules, base, limit), p)
  {
    forall r | r in Rewritten(rules, base, limit) ensures !Matches(r, p) {
      var k :| 0 <= k < |rules| && Rewritten(rules, base, limit)[k] == r;
      assert rules[k] in rules;
    }
  }

  /** When the product of the tier lengths is below limit - base, every priority is its own: from base
      upwards one by one, below limit, with no wrap. */
  lemma SmallInputsNeverWrap(tiers: Tiers, base: nat, limit: nat)
    requires base <= limit < PRIORITY_SPACE
    requires forall k :: 0 <= k < |tiers| ==> tiers[k] != []
    requires Product(tiers) < limit - base
    ensures var flat := Flatten(tiers);
            && NoWrap(flat, base, limit)
            && (|flat| > 1 ==> forall i :: 0 <= i < |flat| ==>
                  Rewritten(flat, base, limit)[i].priority == base + i < limit)
  {
    FlattenLength(tiers);
    NumberedFromBase(Flatten(tiers), base, limit);
  }

  lemma NumberedFromBase(rules: seq<Acl>, base: nat, limit: nat)
    requires base <= limit < PRIORITY_SPACE && |rules| < limit - base
    ensures NoWrap(rules, base, limit)
    ensures |rules| > 1 ==>
              forall i :: 0 <= i < |rules| ==> Rewritten(rules, base, limit)[i].priority == base + i < limit
  {
    Below(limit - base, limit - base);
    forall i | 0 <= i < |rules| ensures PriorityAt(rules, base, limit, i) == base + i {
      Below(base + i, base + i);
    }
  }
}
