/** Gating assertions: against one matrix, or grouped by probe with one evaluation per distinct probe. */
module Assertions {
  import opened Text
  import opened EndpointPairs

  datatype Assertion = Assertion(name: string, from: string, to: string, port: int, protocol: string, expected: string)

  datatype Problem = NoProblem | MissingEnds | BadExpect | NoFlow

  datatype AssertionResult = AssertionResult(assertion: Assertion, got: string, pass: bool, problem: Problem)

  datatype Report = Report(results: seq<AssertionResult>, passed: nat, failed: nat,
                           errors: seq<string>, warnings: seq<string>)

  // ----- one assertion -----

  /** validateAssertion: None when the assertion is well-formed. */
  function Validate(a: Assertion): Option<AssertionResult> {
    if TrimSpace(a.from) == "" || TrimSpace(a.to) == "" then Some(AssertionResult(a, "", false, MissingEnds))
    else if ToLower(TrimSpace(a.expected)) in {"allow", "deny"} then None
    else Some(AssertionResult(a, "", false, BadExpect))
  }

  /** checkAssertion: an absent flow fails in its own way. */
  function Check(a: Assertion, matrix: map<string, string>): AssertionResult {
    var key := FlowKey(a.from, a.to);
    if key !in matrix then AssertionResult(a, "", false, NoFlow)
    else AssertionResult(a, matrix[key], matrix[key] == ToLower(TrimSpace(a.expected)), NoProblem)
  }

  function Judge(a: Assertion, matrix: map<string, string>): AssertionResult {
    if Validate(a).Some? then Validate(a).value else Check(a, matrix)
  }

  /** What a passing assertion says of a matrix: it names both ends and a verdict, and the cell holds that verdict. */
  predicate Holds(a: Assertion, matrix: map<string, string>) {
    && TrimSpace(a.from) != "" && TrimSpace(a.to) != "" && ToLower(TrimSpace(a.expected)) in {"allow", "deny"}
    && a.from + "->" + a.to in matrix && matrix[a.from + "->" + a.to] == ToLower(TrimSpace(a.expected))
  }

  predicate NamesEnds(a: Assertion) { TrimSpace(a.from) != "" && TrimSpace(a.to) != "" }

  predicate NamesVerdict(a: Assertion) {
    ToLower(TrimSpace(a.expected)) == "allow" || ToLower(TrimSpace(a.expected)) == "deny"
  }

  /** A result passes exactly when its assertion holds of the matrix; otherwise it says what was missing, and what the
      cell held when there was one. */
  lemma JudgeMeaning(a: Assertion, matrix: map<string, string>)
    ensures var r, key := Judge(a, matrix), a.from + "->" + a.to;
            && r.assertion == a && (r.pass <==> Holds(a, matrix))
            && (r.problem == MissingEnds <==> !NamesEnds(a))
            && (r.problem == BadExpect <==> NamesEnds(a) && !NamesVerdict(a))
            && (r.problem == NoFlow <==> NamesEnds(a) && NamesVerdict(a) && key !in matrix)
            && r.got == if r.problem == NoProblem then matrix[key] else ""
  {
  }

  function Passes(results: seq<AssertionResult>): nat {
    if results == [] then 0 else Passes(results[..|results| - 1]) + if results[|results| - 1].pass then 1 else 0
  }

  /** summarizeAssertions. */
  method Summarize(results: seq<AssertionResult>, errors: seq<string>, warnings: seq<string>) returns (r: Report)
    ensures r.results == results && r.errors == errors && r.warnings == warnings
    ensures r.passed == Passes(results) && r.passed + r.failed == |results|
  {
    var passed, failed := 0, 0;
    for i := 0 to |results|
      invariant passed == Passes(results[..i]) && passed + failed == i
    {
      assert results[..i + 1][..i] == results[..i];
      if results[i].pass {
        passed := passed + 1;
      } else {
        failed := failed + 1;
      }
    }
    assert results[..|results|] == results;
    r := Report(results, passed, failed, errors, warnings);
  }

  /** Ok: nothing failed and something ran; that is, a non-empty list all of whose results pass. */
  predicate Ok(r: Report) { r.failed == 0 && r.passed > 0 }

  lemma {:induction false} PassesAll(results: seq<AssertionResult>)
    ensures Passes(results) <= |results|
    ensures Passes(results) == |results| <==> forall k :: 0 <= k < |results| ==> results[k].pass
  {
    if results != [] {
      PassesAll(results[..|results| - 1]);
    }
  }

  lemma OkMeansAllPass(r: Report)
    requires r.passed == Passes(r.results) && r.passed + r.failed == |r.results|
    ensures Ok(r) <==> r.results != [] && forall k :: 0 <= k < |r.results| ==> r.results[k].pass
  {
    PassesAll(r.results);
  }

  // ----- against a given matrix -----

  function Judged(matrix: map<string, string>, assertions: seq<Assertion>): (r: seq<AssertionResult>)
    ensures |r| == |assertions|
  {
    seq(|assertions|, k requires 0 <= k < |assertions| => Judge(assertions[k], matrix))
  }

  method RunAssertionsOnMatrix(matrix: map<string, string>, assertions: seq<Assertion>) returns (r: Report)
    ensures r.results == Judged(matrix, assertions) && r.errors == [] && r.warnings == []
    ensures r.passed == Passes(r.results) && r.passed + r.failed == |assertions|
    ensures forall i :: 0 <= i < |assertions| ==>
              r.results[i].assertion == assertions[i] && (r.results[i].pass <==> Holds(assertions[i], matrix))
    ensures Ok(r) <==> assertions != [] && forall a :: a in assertions ==> Holds(a, matrix)
  {
    var results: seq<AssertionResult> := [];
    for i := 0 to |assertions|
      invariant |results| == i && forall k :: 0 <= k < i ==> results[k] == Judge(assertions[k], matrix)
    {
      var bad := Validate(assertions[i]);
      results := results + [if bad.Some? then bad.value else Check(assertions[i], matrix)];
    }
    r := Summarize(results, [], []);
    OkIffAllHold(r, matrix, assertions);
  }

  /** A report on a matrix is ok exactly when there is something to hold and all of it holds. */
  lemma OkIffAllHold(r: Report, matrix: map<string, string>, assertions: seq<Assertion>)
    requires r.results == Judged(matrix, assertions)
    requires r.passed == Passes(r.results) && r.passed + r.failed == |r.results|
    ensures forall i :: 0 <= i < |assertions| ==>
              r.results[i].assertion == assertions[i] && (r.results[i].pass <==> Holds(assertions[i], matrix))
    ensures Ok(r) <==> assertions != [] && forall a :: a in assertions ==> Holds(a, matrix)
  {
    forall i | 0 <= i < |assertions|
      ensures r.results[i].assertion == assertions[i] && (r.results[i].pass <==> Holds(assertions[i], matrix))
    {
      JudgeMeaning(assertions[i], matrix);
    }
    OkMeansAllPass(r);
    assert forall i :: 0 <= i < |assertions| ==> assertions[i] in assertions;
  }

  // ----- grouped by probe -----

  datatype ProbeKey = ProbeKey(port: int, proto: string)

  datatype Response = Response(matrix: map<string, string>, errors: seq<string>, warnings: seq<string>)

  /** The probe defaults of the enclosing request. */
  datatype Defaults = Defaults(port: int, protocol: string)

  /** The engine: a probe and the requested pairs. */
  type Engine = (ProbeKey, seq<MatrixPair>) -> Response

  function EffectivePort(a: Assertion, d: Defaults): int {
    if a.port != 0 then a.port else if d.port != 0 then d.port else 8080
  }

  function EffectiveProto(a: Assertion, d: Defaults): string {
    if a.protocol != "" then a.protocol else if d.protocol != "" then d.protocol else "tcp"
  }

  function ProbeOf(a: Assertion, d: Defaults): ProbeKey { ProbeKey(EffectivePort(a, d), EffectiveProto(a, d)) }

  function PairOf(a: Assertion): MatrixPair { MatrixPair(a.from, a.to) }

  predicate InGroup(a: Assertion, d: Defaults, k: ProbeKey) { Validate(a).None? && ProbeOf(a, d) == k }

  /** The indices below n that share the probe, in input order. */
  function Group(assertions: seq<Assertion>, d: Defaults, k: ProbeKey, n: nat): (g: seq<nat>)
    requires n <= |assertions|
    ensures forall i: nat :: i in g <==> i < n && InGroup(assertions[i], d, k)
    ensures forall j :: 0 <= j < |g| ==> g[j] < n
  {
    if n == 0 then [] else Group(assertions, d, k, n - 1) + if InGroup(assertions[n - 1], d, k) then [n - 1] else []
  }

  function PairsOf(assertions: seq<Assertion>, idxs: seq<nat>): (r: seq<MatrixPair>)
    requires forall j :: 0 <= j < |idxs| ==> idxs[j] < |assertions|
    ensures |r| == |idxs|
  {
    seq(|idxs|, k requires 0 <= k < |idxs| => PairOf(assertions[idxs[k]]))
  }

  function GroupPairs(assertions: seq<Assertion>, d: Defaults, k: ProbeKey): seq<MatrixPair> {
    PairsOf(assertions, Group(assertions, d, k, |assertions|))
  }

  /** The result grouped running gives one assertion: its own verdict, or its check in its group's matrix. */
  function Grouped(eval: Engine, d: Defaults, assertions: seq<Assertion>, a: Assertion): AssertionResult {
    if Validate(a).Some? then Validate(a).value
    else Check(a, eval(ProbeOf(a, d), GroupPairs(assertions, d, ProbeOf(a, d))).matrix)
  }

  function Indices(idxByProbe: map<ProbeKey, seq<nat>>, k: ProbeKey): seq<nat> {
    if k in idxByProbe then idxByProbe[k] else []
  }

  /** The map holds the groups of the first n assertions. */
  ghost predicate HoldsGroup(m: map<ProbeKey, seq<nat>>, assertions: seq<Assertion>, d: Defaults, n: nat, k: ProbeKey)
    requires n <= |assertions|
  {
    Indices(m, k) == Group(assertions, d, k, n)
  }

  ghost predicate HoldsGroups(m: map<ProbeKey, seq<nat>>, assertions: seq<Assertion>, d: Defaults, n: nat)
    requires n <= |assertions|
  {
    forall k :: HoldsGroup(m, assertions, d, n, k)
  }

  predicate NoneEmpty(m: map<ProbeKey, seq<nat>>) { forall k :: k in m ==> m[k] != [] }

  lemma GroupStep(m: map<ProbeKey, seq<nat>>, next: map<ProbeKey, seq<nat>>, assertions: seq<Assertion>,
      d: Defaults, i: nat, k: ProbeKey)
    requires i < |assertions| && HoldsGroup(m, assertions, d, i, k)
    requires Indices(next, k) == if InGroup(assertions[i], d, k) then Indices(m, k) + [i] else Indices(m, k)
    ensures HoldsGroup(next, assertions, d, i + 1, k)
  {
  }

  lemma IndicesAfter(m: map<ProbeKey, seq<nat>>, p: ProbeKey, assertions: seq<Assertion>, d: Defaults, i: nat)
    requires i < |assertions| && Validate(assertions[i]).None? && p == ProbeOf(assertions[i], d)
    requires HoldsGroups(m, assertions, d, i) && NoneEmpty(m)
    ensures var next := m[p := Indices(m, p) + [i]]; HoldsGroups(next, assertions, d, i + 1) && NoneEmpty(next)
  {
    var next, n := m[p := Indices(m, p) + [i]], i + 1;
    forall k ensures HoldsGroup(next, assertions, d, n, k) {
      assert HoldsGroup(m, assertions, d, i, k);
      GroupStep(m, next, assertions, d, i, k);
    }
  }

  lemma IndicesSame(m: map<ProbeKey, seq<nat>>, assertions: seq<Assertion>, d: Defaults, i: nat)
    requires i < |assertions| && Validate(assertions[i]).Some? && HoldsGroups(m, assertions, d, i)
    ensures HoldsGroups(m, assertions, d, i + 1)
  {
    var n := i + 1;
    forall k ensures HoldsGroup(m, assertions, d, n, k) {
      assert HoldsGroup(m, assertions, d, i, k);
      GroupStep(m, m, assertions, d, i, k);
    }
  }

  /** The grouping loop of RunAssertions. */
  method GroupByProbe(assertions: seq<Assertion>, d: Defaults, results: array<AssertionResult>)
    returns (idxByProbe: map<ProbeKey, seq<nat>>)
    requires results.Length == |assertions|
    modifies results
    ensures HoldsGroups(idxByProbe, assertions, d, |assertions|) && NoneEmpty(idxByProbe)
    ensures forall i :: 0 <= i < |assertions| && Validate(assertions[i]).Some? ==>
            results[i] == Validate(assertions[i]).value
  {
    idxByProbe := map[];
    for i := 0 to |assertions|
      invariant HoldsGroups(idxByProbe, assertions, d, i) && NoneEmpty(idxByProbe)
      invariant forall j :: 0 <= j < i && Validate(assertions[j]).Some? ==> results[j] == Validate(assertions[j]).value
    {
      var bad := Validate(assertions[i]);
      if bad.Some? {
        results[i] := bad.value;
        IndicesSame(idxByProbe, assertions, d, i);
      } else {
        var k := ProbeOf(assertions[i], d);
        IndicesAfter(idxByProbe, k, assertions, d, i);
        idxByProbe := idxByProbe[k := Indices(idxByProbe, k) + [i]];
      }
    }
  }

  /** Append the messages not seen yet. */
  method Dedup(acc: seq<string>, more: seq<string>) returns (r: seq<string>)
    requires Distinct(acc)
    ensures acc <= r && Distinct(r) && forall e :: e in r <==> e in acc || e in more
  {
    r := acc;
    for i := 0 to |more|
      invariant acc <= r && Distinct(r) && forall e :: e in r <==> e in acc || e in more[..i]
    {
      assert more[..i + 1] == more[..i] + [more[i]];
      if more[i] !in r {
        r := r + [more[i]];
      }
    }
    assert more[..|more|] == more;
  }

  method CheckGroup(assertions: seq<Assertion>, idxs: seq<nat>, matrix: map<string, string>,
      results: array<AssertionResult>)
    requires results.Length == |assertions| && forall j :: 0 <= j < |idxs| ==> idxs[j] < |assertions|
    modifies results
    ensures forall i :: 0 <= i < |assertions| ==>
              results[i] == if i in idxs then Check(assertions[i], matrix) else old(results[i])
  {
    for j := 0 to |idxs|
      invariant forall i :: 0 <= i < |assertions| ==>
                  results[i] == if i in idxs[..j] then Check(assertions[i], matrix) else old(results[i])
    {
      assert idxs[..j + 1] == idxs[..j] + [idxs[j]];
      results[idxs[j]] := Check(assertions[idxs[j]], matrix);
    }
    assert idxs[..|idxs|] == idxs;
  }

  function KeyOfProbe(k: ProbeKey): Key { (k.port, k.proto) }

  ghost predicate Judges(results: seq<AssertionResult>, eval: Engine, d: Defaults, assertions: seq<Assertion>,
      probes: seq<ProbeKey>)
  {
    && |results| == |assertions|
    && forall i :: 0 <= i < |assertions| && (Validate(assertions[i]).Some? || ProbeOf(assertions[i], d) in probes) ==>
         results[i] == Grouped(eval, d, assertions, assertions[i])
  }

  ghost predicate Collected(msgs: seq<string>, of: Response -> seq<string>, eval: Engine, d: Defaults,
                            assertions: seq<Assertion>, probes: seq<ProbeKey>)
  {
    && Distinct(msgs)
    && forall e :: e in msgs <==> exists k :: k in probes && e in of(eval(k, GroupPairs(assertions, d, k)))
  }

  /** The probe of an assertion, its defaults written out: its own port and protocol, else the request's, else
      8080 and tcp. */
  function EffectiveProbe(a: Assertion, d: Defaults): ProbeKey {
    ProbeKey(if a.port == 0 then (if d.port == 0 then 8080 else d.port) else a.port,
             if a.protocol == "" then (if d.protocol == "" then "tcp" else d.protocol) else a.protocol)
  }

  /** The assertion names its ends, a verdict and this probe, and asks about this pair. */
  predicate AsksFor(a: Assertion, d: Defaults, k: ProbeKey, p: MatrixPair) {
    NamesEnds(a) && NamesVerdict(a) && EffectiveProbe(a, d) == k && p == MatrixPair(a.from, a.to)
  }

  /** The pairs requested for a probe are those its assertions ask for. */
  ghost predicate RequestedFor(pairs: seq<MatrixPair>, assertions: seq<Assertion>, d: Defaults, k: ProbeKey) {
    forall p :: p in pairs <==> exists a :: a in assertions && AsksFor(a, d, k, p)
  }

  lemma AskedInGroup(a: Assertion, d: Defaults, k: ProbeKey, p: MatrixPair)
    ensures AsksFor(a, d, k, p) <==> InGroup(a, d, k) && p == PairOf(a)
  {
  }

  lemma GroupPairsMeaning(assertions: seq<Assertion>, d: Defaults, k: ProbeKey)
    ensures RequestedFor(GroupPairs(assertions, d, k), assertions, d, k)
  {
    var g, pairs := Group(assertions, d, k, |assertions|), GroupPairs(assertions, d, k);
    forall p | p in pairs ensures exists a :: a in assertions && AsksFor(a, d, k, p) {
      var j :| 0 <= j < |pairs| && pairs[j] == p;
      assert g[j] in g && assertions[g[j]] in assertions;
      AskedInGroup(assertions[g[j]], d, k, p);
    }
    forall a, p | a in assertions && AsksFor(a, d, k, p) ensures p in pairs {
      AskedInGroup(a, d, k, p);
      var i :| 0 <= i < |assertions| && assertions[i] == a;
      assert i in g;
      var j :| 0 <= j < |g| && g[j] == i;
      assert pairs[j] == p;
    }
  }

  /** What an assertion is held against: the engine's answer for its probe, asked for all pairs of that probe. */
  function AnswerTo(a: Assertion, eval: Engine, d: Defaults, assertions: seq<Assertion>): map<string, string> {
    eval(EffectiveProbe(a, d), GroupPairs(assertions, d, EffectiveProbe(a, d))).matrix
  }

  lemma GroupedMeaning(eval: Engine, d: Defaults, assertions: seq<Assertion>, a: Assertion)
    ensures Grouped(eval, d, assertions, a) == Judge(a, AnswerTo(a, eval, d, assertions))
    ensures Grouped(eval, d, assertions, a).assertion == a
    ensures Grouped(eval, d, assertions, a).pass <==> Holds(a, AnswerTo(a, eval, d, assertions))
  {
    JudgeMeaning(a, AnswerTo(a, eval, d, assertions));
  }

  ghost predicate AllGrouped(results: seq<AssertionResult>, eval: Engine, d: Defaults, assertions: seq<Assertion>) {
    && |results| == |assertions|
    && forall i :: 0 <= i < |assertions| ==> results[i] == Grouped(eval, d, assertions, assertions[i])
  }

  /** Each result is its assertion's, and passes exactly when that holds of the engine's answer to it. */
  ghost predicate PassWhatHolds(results: seq<AssertionResult>, eval: Engine, d: Defaults, assertions: seq<Assertion>) {
    && |results| == |assertions|
    && forall i :: 0 <= i < |assertions| ==>
         && results[i].assertion == assertions[i]
         && (results[i].pass <==> Holds(assertions[i], AnswerTo(assertions[i], eval, d, assertions)))
  }

  ghost predicate AllHold(eval: Engine, d: Defaults, assertions: seq<Assertion>) {
    assertions != [] && forall a :: a in assertions ==> Holds(a, AnswerTo(a, eval, d, assertions))
  }

  /** A grouped report is ok exactly when there is something to hold and each assertion holds of its own answer. */
  lemma GroupedOk(r: Report, eval: Engine, d: Defaults, assertions: seq<Assertion>)
    requires AllGrouped(r.results, eval, d, assertions)
    requires r.passed == Passes(r.results) && r.passed + r.failed == |r.results|
    ensures PassWhatHolds(r.results, eval, d, assertions)
    ensures Ok(r) <==> AllHold(eval, d, assertions)
  {
    forall i | 0 <= i < |assertions|
      ensures r.results[i].assertion == assertions[i]
      ensures r.results[i].pass <==> Holds(assertions[i], AnswerTo(assertions[i], eval, d, assertions))
    {
      GroupedMeaning(eval, d, assertions, assertions[i]);
    }
    OkMeansAllPass(r);
    PassesWhenAllHold(r.results, eval, d, assertions);
  }

  lemma PassesWhenAllHold(results: seq<AssertionResult>, eval: Engine, d: Defaults, assertions: seq<Assertion>)
    requires PassWhatHolds(results, eval, d, assertions)
    ensures results != [] && (forall i :: 0 <= i < |results| ==> results[i].pass) <==> AllHold(eval, d, assertions)
  {
    assert forall i :: 0 <= i < |assertions| ==> assertions[i] in assertions;
  }

  /** When every probe of a valid assertion has been evaluated, nothing is left unjudged. */
  lemma JudgesAll(results: seq<AssertionResult>, eval: Engine, d: Defaults, assertions: seq<Assertion>,
                  probes: seq<ProbeKey>)
    requires Judges(results, eval, d, assertions, probes)
    requires forall k :: k in probes <==> exists a :: a in assertions && InGroup(a, d, k)
    ensures AllGrouped(results, eval, d, assertions)
  {
    forall i | 0 <= i < |assertions| ensures results[i] == Grouped(eval, d, assertions, assertions[i]) {
      if Validate(assertions[i]).None? {
        assert assertions[i] in assertions && InGroup(assertions[i], d, ProbeOf(assertions[i], d));
      }
    }
  }

  lemma CollectedStep(msgs: seq<string>, next: seq<string>, of: Response -> seq<string>, eval: Engine, d: Defaults,
                      assertions: seq<Assertion>, probes: seq<ProbeKey>, k: ProbeKey)
    requires Collected(msgs, of, eval, d, assertions, probes) && Distinct(next)
    requires forall e :: e in next <==> e in msgs || e in of(eval(k, GroupPairs(assertions, d, k)))
    ensures Collected(next, of, eval, d, assertions, probes + [k])
  {
    assert forall q :: q in probes + [k] <==> q in probes || q == k;
  }

  /** By port, then by protocol name. */
  predicate Before(k: ProbeKey, l: ProbeKey) { k.port < l.port || (k.port == l.port && Less(k.proto, l.proto)) }

  /** RunAssertions. calls lists the probes evaluated: each probe of a valid assertion, once. */
  method RunAssertions(eval: Engine, d: Defaults, assertions: seq<Assertion>)
    returns (r: Report, ghost calls: seq<ProbeKey>)
    ensures AllGrouped(r.results, eval, d, assertions) && PassWhatHolds(r.results, eval, d, assertions)
    ensures r.passed == Passes(r.results) && r.passed + r.failed == |assertions|
    ensures Ok(r) <==> AllHold(eval, d, assertions)
    ensures forall i, j :: 0 <= i < j < |calls| ==> Before(calls[i], calls[j])
    ensures Distinct(calls) && forall k :: k in calls <==> exists a :: a in assertions && InGroup(a, d, k)
    ensures Collected(r.errors, (p: Response) => p.errors, eval, d, assertions, calls)
    ensures Collected(r.warnings, (p: Response) => p.warnings, eval, d, assertions, calls)
  {
    var results := new AssertionResult[|assertions|](_ => AssertionResult(Assertion("", "", "", 0, "", ""),
        "", false, NoProblem));
    var idxByProbe := GroupByProbe(assertions, d, results);
    var keys := KeysOf(idxByProbe.Keys);
    var probes := SortBy(KeyOfProbe, keys);
    DistinctMultiset(keys, probes);
    HeldGroups(idxByProbe, assertions, d);
    var errors, warnings := RunProbes(eval, d, assertions, idxByProbe, probes, results);
    JudgesAll(results[..], eval, d, assertions, probes);
    r := Summarize(results[..], errors, warnings);
    GroupedOk(r, eval, d, assertions);
    ProbesAscend(probes);
    calls := probes;
  }

  lemma ProbesAscend(probes: seq<ProbeKey>)
    requires SortedBy(KeyOfProbe, probes) && Distinct(probes)
    ensures forall i, j :: 0 <= i < j < |probes| ==> Before(probes[i], probes[j])
  {
    forall i, j | 0 <= i < j < |probes| ensures Before(probes[i], probes[j]) {
      LessTrichotomy(probes[i].proto, probes[j].proto);
      assert !KeyLess(KeyOfProbe(probes[j]), KeyOfProbe(probes[i]));
    }
  }

  /** The probes of the map are those of valid assertions, each with its whole group. */
  lemma HeldGroups(m: map<ProbeKey, seq<nat>>, assertions: seq<Assertion>, d: Defaults)
    requires HoldsGroups(m, assertions, d, |assertions|) && NoneEmpty(m)
    ensures forall k :: k in m <==> exists a :: a in assertions && InGroup(a, d, k)
    ensures forall k :: k in m ==> m[k] == Group(assertions, d, k, |assertions|)
  {
    forall k
      ensures k in m <==> exists a :: a in assertions && InGroup(a, d, k)
      ensures k in m ==> m[k] == Group(assertions, d, k, |assertions|)
    {
      assert HoldsGroup(m, assertions, d, |assertions|, k);
      GroupInhabited(assertions, d, k);
    }
  }

  lemma GroupInhabited(assertions: seq<Assertion>, d: Defaults, k: ProbeKey)
    ensures Group(assertions, d, k, |assertions|) != [] <==> exists a :: a in assertions && InGroup(a, d, k)
  {
    var g := Group(assertions, d, k, |assertions|);
    if g != [] {
      assert g[0] in g && assertions[g[0]] in assertions;
    }
    if a :| a in assertions && InGroup(a, d, k) {
      var i :| 0 <= i < |assertions| && assertions[i] == a;
      assert i in g;
    }
  }

  /** The evaluation loop of RunAssertions. */
  method RunProbes(eval: Engine, d: Defaults, assertions: seq<Assertion>, idxByProbe: map<ProbeKey, seq<nat>>,
                   probes: seq<ProbeKey>, results: array<AssertionResult>)
    returns (errors: seq<string>, warnings: seq<string>)
    requires results.Length == |assertions| && Distinct(probes)
    requires forall k :: k in probes ==> k in idxByProbe && idxByProbe[k] == Group(assertions, d, k, |assertions|)
    requires Judges(results[..], eval, d, assertions, [])
    modifies results
    ensures Judges(results[..], eval, d, assertions, probes)
    ensures Collected(errors, (p: Response) => p.errors, eval, d, assertions, probes)
    ensures Collected(warnings, (p: Response) => p.warnings, eval, d, assertions, probes)
  {
    errors, warnings := [], [];
    for p := 0 to |probes|
      invariant Judges(results[..], eval, d, assertions, probes[..p])
      invariant Collected(errors, (p: Response) => p.errors, eval, d, assertions, probes[..p])
      invariant Collected(warnings, (p: Response) => p.warnings, eval, d, assertions, probes[..p])
    {
      var k := probes[p];
      assert k in probes && probes[..p + 1] == probes[..p] + [k];
      ghost var errors0, warnings0, results0 := errors, warnings, results[..];
      var resp := eval(k, PairsOf(assertions, idxByProbe[k]));
      errors := Dedup(errors, resp.errors);
      warnings := Dedup(warnings, resp.warnings);
      CollectedStep(errors0, errors, (p: Response) => p.errors, eval, d, assertions, probes[..p], k);
      CollectedStep(warnings0, warnings, (p: Response) => p.warnings, eval, d, assertions, probes[..p], k);
      CheckGroup(assertions, idxByProbe[k], resp.matrix, results);
      JudgesStep(results0, results[..], eval, d, assertions, probes[..p], k);
    }
    assert probes[..|probes|] == probes;
  }

  lemma JudgesStep(before: seq<AssertionResult>, after: seq<AssertionResult>, eval: Engine, d: Defaults,
                   assertions: seq<Assertion>, probes: seq<ProbeKey>, k: ProbeKey)
    requires Judges(before, eval, d, assertions, probes) && |after| == |assertions|
    requires forall i :: 0 <= i < |assertions| ==>
               after[i] == if i in Group(assertions, d, k, |assertions|)
                           then Check(assertions[i], eval(k, GroupPairs(assertions, d, k)).matrix) else before[i]
    ensures Judges(after, eval, d, assertions, probes + [k])
  {
  }

  // ----- grouped equals alone -----

  /** The verdict of a requested pair does not depend on the other requested pairs. */
  ghost predicate PairwiseEngine(eval: Engine) {
    forall k, pairs, p :: p in pairs ==> Unaffected(eval, k, pairs, p)
  }

  predicate Unaffected(eval: Engine, k: ProbeKey, pairs: seq<MatrixPair>, p: MatrixPair) {
    VerdictOf(eval(k, pairs).matrix, p) == VerdictOf(eval(k, [p]).matrix, p)
  }

  function VerdictOf(matrix: map<string, string>, p: MatrixPair): Option<string> {
    if FlowKey(p.from, p.to) in matrix then Some(matrix[FlowKey(p.from, p.to)]) else None
  }

  /** Running an assertion alone: one evaluation requesting only its pair. */
  function Alone(eval: Engine, d: Defaults, a: Assertion): AssertionResult {
    Judge(a, eval(ProbeOf(a, d), [PairOf(a)]).matrix)
  }

  /** For every such engine, grouped running gives every assertion the result of running it alone. */
  lemma GroupedEqualsAlone(eval: Engine, d: Defaults, assertions: seq<Assertion>, i: nat)
    requires PairwiseEngine(eval) && i < |assertions|
    ensures Grouped(eval, d, assertions, assertions[i]) == Alone(eval, d, assertions[i])
  {
    var a := assertions[i];
    if Validate(a).None? {
      var k := ProbeOf(a, d);
      var g := Group(assertions, d, k, |assertions|);
      assert i in g;
      var j :| 0 <= j < |g| && g[j] == i;
      assert GroupPairs(assertions, d, k)[j] == PairOf(a);
      assert PairOf(a) in GroupPairs(assertions, d, k);
      assert Unaffected(eval, k, GroupPairs(assertions, d, k), PairOf(a));
    }
  }

  /** So for such an engine an assertion passes exactly when it holds of the answer to its own pair. */
  lemma PairwisePasses(eval: Engine, d: Defaults, assertions: seq<Assertion>, i: nat)
    requires PairwiseEngine(eval) && i < |assertions|
    ensures var a := assertions[i];
            Grouped(eval, d, assertions, a).pass <==>
            Holds(a, eval(EffectiveProbe(a, d), [MatrixPair(a.from, a.to)]).matrix)
  {
    GroupedEqualsAlone(eval, d, assertions, i);
    JudgeMeaning(assertions[i], eval(ProbeOf(assertions[i], d), [PairOf(assertions[i])]).matrix);
  }

  /** Each valid assertion is in exactly one group. */
  lemma ExactlyOneGroup(assertions: seq<Assertion>, d: Defaults, i: nat, k: ProbeKey)
    requires i < |assertions|
    ensures i in Group(assertions, d, k, |assertions|) <==>
            Validate(assertions[i]).None? && k == ProbeOf(assertions[i], d)
  {
  }

  /** Reports read only the asserted flows. */
  lemma JudgedReadsOnlyAsserted(m1: map<string, string>, m2: map<string, string>, assertions: seq<Assertion>)
    requires forall a :: a in assertions ==> VerdictOf(m1, PairOf(a)) == VerdictOf(m2, PairOf(a))
    ensures Judged(m1, assertions) == Judged(m2, assertions)
  {
    forall k | 0 <= k < |assertions| ensures Judged(m1, assertions)[k] == Judged(m2, assertions)[k] {
      assert assertions[k] in assertions;
    }
  }
}
