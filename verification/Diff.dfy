/** Comparing two connectivity matrices: the changes a reviewer is shown, in the order of the report, and the
    counts that go with them. */
module Diff {
  import opened Text

  type Matrix = map<string, string>

  datatype Kind = Opened | Closed | Removed | Added

  datatype FlowChange = FlowChange(from: string, to: string, base: string, head: string, kind: Kind)

  datatype DiffReport = DiffReport(changes: seq<FlowChange>, numOpened: nat, numClosed: nat, numAdded: nat,
                                   numRemoved: nat, numUnchanged: nat, errors: seq<string>, warnings: seq<string>)

  function Flow(c: FlowChange): string { FlowKey(c.from, c.to) }

  function KindRank(k: Kind): int {
    match k
    case Opened => 0
    case Closed => 1
    case Removed => 2
    case Added => 3
  }

  function ChangeKey(c: FlowChange): Key { (KindRank(c.kind), Flow(c)) }

  /** splitFlowKey. */
  function SplitFlowKey(k: string): (r: (string, string))
    ensures HasArrow(k) ==> FlowKey(r.0, r.1) == k && !HasArrow(r.0)
    ensures !HasArrow(k) ==> r == (k, "")
  {
    var i := FindArrow(k);
    if i == |k| then (k, "")
    else
      assert k == k[..i] + "->" + k[i + 2..];
      assert forall j :: ArrowAt(k[..i], j) ==> ArrowAt(k, j);
      (k[..i], k[i + 2..])
  }

  // ----- what each key means -----

  /** What the comparison makes of one key. */
  datatype Class = Same | Noise | Change(kind: Kind)

  function ClassOf(base: Matrix, head: Matrix, k: string): Class {
    if k in base && k in head then
      if base[k] == head[k] then Same
      else if base[k] == "deny" && head[k] == "allow" then Change(Opened)
      else Change(Closed)
    else if k in head then if head[k] == "allow" then Change(Added) else Noise
    else if k in base then if base[k] == "allow" then Change(Removed) else Noise
    else Noise
  }

  function Verdict(m: Matrix, k: string): string { if k in m then m[k] else "" }

  function ChangeAt(base: Matrix, head: Matrix, k: string, kind: Kind): FlowChange {
    FlowChange(SplitFlowKey(k).0, SplitFlowKey(k).1, Verdict(base, k), Verdict(head, k), kind)
  }

  function AllKeys(base: Matrix, head: Matrix): set<string> { base.Keys + head.Keys }

  function OfClass(base: Matrix, head: Matrix, keys: set<string>, c: Class): set<string> {
    set k | k in keys && ClassOf(base, head, k) == c
  }

  function ChangesOver(base: Matrix, head: Matrix, ks: seq<string>): (r: seq<FlowChange>) {
    if ks == [] then []
    else
      var k := ks[|ks| - 1];
      ChangesOver(base, head, ks[..|ks| - 1])
      + if ClassOf(base, head, k).Change? then [ChangeAt(base, head, k, ClassOf(base, head, k).kind)] else []
  }

  /** The changes are those of the two matrices, whatever order the maps were ranged over in. */
  ghost predicate Listed(changes: seq<FlowChange>, base: Matrix, head: Matrix) {
    && (forall c :: c in changes ==> IsChange(c, base, head))
    && (forall k, kind :: k in AllKeys(base, head) && ClassOf(base, head, k) == Change(kind)
                          ==> ChangeAt(base, head, k, kind) in changes)
  }

  ghost predicate IsChange(c: FlowChange, base: Matrix, head: Matrix) {
    exists k :: k in AllKeys(base, head)
      && ClassOf(base, head, k) == Change(c.kind) && c == ChangeAt(base, head, k, c.kind)
  }

  /** A report half way: the keys compared so far, its changes not yet in their final order. */
  ghost predicate Compared(r: DiffReport, base: Matrix, head: Matrix, ks: seq<string>) {
    && Tallied(r, base, head, KeySet(ks))
    && r.changes == ChangesOver(base, head, ks)
    && |r.changes| == r.numOpened + r.numClosed + r.numAdded + r.numRemoved
  }

  ghost function KeySet(ks: seq<string>): set<string> { set k | k in ks }

  ghost predicate Tallied(r: DiffReport, base: Matrix, head: Matrix, done: set<string>) {
    && r.numOpened == |OfClass(base, head, done, Change(Opened))|
    && r.numClosed == |OfClass(base, head, done, Change(Closed))|
    && r.numAdded == |OfClass(base, head, done, Change(Added))|
    && r.numRemoved == |OfClass(base, head, done, Change(Removed))|
    && r.numUnchanged == |OfClass(base, head, done, Same)|
  }

  lemma OfClassStep(base: Matrix, head: Matrix, done: set<string>, k: string, c: Class)
    requires k !in done
    ensures |OfClass(base, head, done + {k}, c)| ==
            |OfClass(base, head, done, c)| + if ClassOf(base, head, k) == c then 1 else 0
  {
    var before, after := OfClass(base, head, done, c), OfClass(base, head, done + {k}, c);
    if ClassOf(base, head, k) == c {
      assert after == before + {k};
    } else {
      assert after == before;
    }
  }

  lemma {:induction false} ChangesOverListed(base: Matrix, head: Matrix, ks: seq<string>)
    requires forall k :: k in ks ==> k in AllKeys(base, head)
    ensures forall c :: c in ChangesOver(base, head, ks) ==> IsChange(c, base, head)
    ensures forall k, kind :: k in ks && ClassOf(base, head, k) == Change(kind)
                              ==> ChangeAt(base, head, k, kind) in ChangesOver(base, head, ks)
  {
    if ks != [] {
      var k := ks[|ks| - 1];
      assert ks == ks[..|ks| - 1] + [k] && k in ks;
      ChangesOverListed(base, head, ks[..|ks| - 1]);
    }
  }

  /** The effect of one key on the counters and the list. */
  function After(r: DiffReport, base: Matrix, head: Matrix, k: string): DiffReport {
    match ClassOf(base, head, k)
    case Same => r.(numUnchanged := r.numUnchanged + 1)
    case Noise => r
    case Change(kind) =>
      var more := r.(changes := r.changes + [ChangeAt(base, head, k, kind)]);
      match kind
      case Opened => more.(numOpened := r.numOpened + 1)
      case Closed => more.(numClosed := r.numClosed + 1)
      case Added => more.(numAdded := r.numAdded + 1)
      case Removed => more.(numRemoved := r.numRemoved + 1)
  }

  /** The switch of DiffResponses. */
  method CompareKey(base: Matrix, head: Matrix, k: string, r: DiffReport) returns (report: DiffReport)
    requires k in AllKeys(base, head)
    ensures report == After(r, base, head, k)
    ensures report.errors == r.errors && report.warnings == r.warnings
  {
    report := r;
    var (from, to) := SplitFlowKey(k);
    if k in base && k in head {
      if base[k] == head[k] {
        report := report.(numUnchanged := report.numUnchanged + 1);
        return;
      }
      var kind := Closed;
      if base[k] == "deny" && head[k] == "allow" {
        kind := Opened;
        report := report.(numOpened := report.numOpened + 1);
      } else {
        report := report.(numClosed := report.numClosed + 1);
      }
      report := report.(changes := report.changes + [FlowChange(from, to, base[k], head[k], kind)]);
    } else if k in head {
      if head[k] == "allow" {
        report := report.(numAdded := report.numAdded + 1);
        report := report.(changes := report.changes + [FlowChange(from, to, "", head[k], Added)]);
      }
    } else {
      if base[k] == "allow" {
        report := report.(numRemoved := report.numRemoved + 1);
        report := report.(changes := report.changes + [FlowChange(from, to, base[k], "", Removed)]);
      }
    }
  }

  lemma TalliedStep(r: DiffReport, base: Matrix, head: Matrix, done: set<string>, k: string)
    requires Tallied(r, base, head, done) && k !in done
    ensures Tallied(After(r, base, head, k), base, head, done + {k})
  {
    OfClassStep(base, head, done, k, Change(Opened));
    OfClassStep(base, head, done, k, Change(Closed));
    OfClassStep(base, head, done, k, Change(Added));
    OfClassStep(base, head, done, k, Change(Removed));
    OfClassStep(base, head, done, k, Same);
  }

  lemma ComparedStep(r: DiffReport, base: Matrix, head: Matrix, ks: seq<string>, k: string)
    requires Compared(r, base, head, ks) && k !in ks
    ensures Compared(After(r, base, head, k), base, head, ks + [k])
  {
    assert KeySet(ks + [k]) == KeySet(ks) + {k};
    TalliedStep(r, base, head, KeySet(ks), k);
    ChangesOverStep(r, base, head, ks, k);
  }

  lemma ChangesOverStep(r: DiffReport, base: Matrix, head: Matrix, ks: seq<string>, k: string)
    requires r.changes == ChangesOver(base, head, ks)
    requires |r.changes| == r.numOpened + r.numClosed + r.numAdded + r.numRemoved
    ensures var a := After(r, base, head, k);
            && a.changes == ChangesOver(base, head, ks + [k])
            && |a.changes| == a.numOpened + a.numClosed + a.numAdded + a.numRemoved
  {
    assert (ks + [k])[..|ks|] == ks;
  }

  lemma ComparedNone(r: DiffReport, base: Matrix, head: Matrix)
    requires r.changes == [] && r.numOpened == r.numClosed == r.numAdded == r.numRemoved == r.numUnchanged == 0
    ensures Compared(r, base, head, [])
  {
    assert KeySet([]) == {};
    assert forall c :: OfClass(base, head, {}, c) == {};
  }

  lemma ComparedAll(r: DiffReport, base: Matrix, head: Matrix, ks: seq<string>)
    requires Compared(r, base, head, ks) && Distinct(ks) && forall k :: k in ks <==> k in AllKeys(base, head)
    ensures Tallied(r, base, head, AllKeys(base, head))
    ensures Listed(SortBy(ChangeKey, r.changes), base, head)
    ensures ArrowKeys(base) && ArrowKeys(head) ==> DistinctFlows(SortBy(ChangeKey, r.changes))
  {
    assert KeySet(ks) == AllKeys(base, head);
    ChangesOverListed(base, head, ks);
    if ArrowKeys(base) && ArrowKeys(head) {
      DistinctFlowsOver(base, head, ks);
      SortedFlowsDistinct(r.changes);
    }
  }

  /** DiffResponses; sort.SliceStable orders by kind, then by flow. */
  method DiffResponses(base: Matrix, head: Matrix, errors: seq<string>, warnings: seq<string>)
    returns (report: DiffReport)
    ensures Tallied(report, base, head, AllKeys(base, head))
    ensures |report.changes| == report.numOpened + report.numClosed + report.numAdded + report.numRemoved
    ensures Listed(report.changes, base, head) && SortedBy(ChangeKey, report.changes)
    ensures report.errors == errors && report.warnings == warnings
    ensures ArrowKeys(base) && ArrowKeys(head) ==> DistinctFlows(report.changes)
  {
    var sorted := SortedKeys(base.Keys + head.Keys);
    report := CompareKeys(base, head, sorted, errors, warnings);
    ComparedAll(report, base, head, sorted);
    report := report.(changes := SortBy(ChangeKey, report.changes));
  }

  method CompareKeys(base: Matrix, head: Matrix, sorted: seq<string>, errors: seq<string>, warnings: seq<string>)
    returns (report: DiffReport)
    requires Distinct(sorted) && forall k :: k in sorted ==> k in AllKeys(base, head)
    ensures Compared(report, base, head, sorted)
    ensures report.errors == errors && report.warnings == warnings
  {
    report := DiffReport([], 0, 0, 0, 0, 0, errors, warnings);
    ComparedNone(report, base, head);
    for i := 0 to |sorted|
      invariant Compared(report, base, head, sorted[..i])
      invariant report.errors == errors && report.warnings == warnings
    {
      NextKey(sorted, i);
      ComparedStep(report, base, head, sorted[..i], sorted[i]);
      report := CompareKey(base, head, sorted[i], report);
    }
    assert sorted[..|sorted|] == sorted;
  }

  lemma NextKey(ks: seq<string>, i: nat)
    requires i < |ks| && Distinct(ks)
    ensures ks[..i + 1] == ks[..i] + [ks[i]] && ks[i] !in ks[..i] && ks[i] in ks
  {
  }

  method SortedKeys(keys: set<string>) returns (sorted: seq<string>)
    ensures Distinct(sorted) && forall k :: k in sorted <==> k in keys
  {
    var unsorted := KeysOf(keys);
    sorted := SortBy((k: string) => (0, k), unsorted);
    DistinctMultiset(unsorted, sorted);
  }

  // ----- what a report says -----

  /** The kind of change at a key, from what its two sides hold. */
  predicate IsKind(base: Matrix, head: Matrix, k: string, kind: Kind) {
    match kind
    case Opened => k in base && k in head && base[k] == "deny" && head[k] == "allow"
    case Closed => k in base && k in head && base[k] != head[k] && (base[k] != "deny" || head[k] != "allow")
    case Added => k !in base && k in head && head[k] == "allow"
    case Removed => k in base && k !in head && base[k] == "allow"
  }

  /** The change of a key: its kind, its ends, and what either side holds, or nothing. */
  predicate IsChangeOf(c: FlowChange, base: Matrix, head: Matrix, k: string) {
    && IsKind(base, head, k, c.kind) && SplitFlowKey(k) == (c.from, c.to)
    && c.base == (if k in base then base[k] else "") && c.head == (if k in head then head[k] else "")
  }

  /** Exactly the changed keys are listed, each by its change. */
  lemma ListedMeaning(changes: seq<FlowChange>, base: Matrix, head: Matrix, c: FlowChange)
    requires Listed(changes, base, head)
    ensures c in changes <==>
            exists k :: IsChangeOf(c, base, head, k)
  {
    if c in changes {
      assert IsChange(c, base, head);
      var k :| k in AllKeys(base, head)
        && ClassOf(base, head, k) == Change(c.kind) && c == ChangeAt(base, head, k, c.kind);
      assert IsChangeOf(c, base, head, k);
    }
    if k :| IsChangeOf(c, base, head, k) {
      assert k in AllKeys(base, head) && ClassOf(base, head, k) == Change(c.kind);
      assert c == ChangeAt(base, head, k, c.kind);
    }
  }

  /** The counters are the numbers of keys of each kind, and of keys on which both sides hold the same. */
  lemma TalliedMeaning(r: DiffReport, base: Matrix, head: Matrix)
    requires Tallied(r, base, head, AllKeys(base, head))
    ensures r.numOpened == |set k | k in AllKeys(base, head) && IsKind(base, head, k, Opened)|
    ensures r.numClosed == |set k | k in AllKeys(base, head) && IsKind(base, head, k, Closed)|
    ensures r.numAdded == |set k | k in AllKeys(base, head) && IsKind(base, head, k, Added)|
    ensures r.numRemoved == |set k | k in AllKeys(base, head) && IsKind(base, head, k, Removed)|
    ensures r.numUnchanged == |set k | k in AllKeys(base, head) && k in base && k in head && base[k] == head[k]|
  {
    var all := AllKeys(base, head);
    forall kind ensures OfClass(base, head, all, Change(kind)) == set k | k in all && IsKind(base, head, k, kind) {
    }
    assert OfClass(base, head, all, Same) == set k | k in all && k in base && k in head && base[k] == head[k];
  }

  /** Opened flows come first, then closed, removed and added ones; within a kind they ascend by flow. */
  lemma ReportOrder(changes: seq<FlowChange>, i: nat, j: nat)
    requires SortedBy(ChangeKey, changes) && i < j < |changes|
    ensures changes[j].kind == Opened ==> changes[i].kind == Opened
    ensures changes[j].kind == Closed ==> changes[i].kind == Opened || changes[i].kind == Closed
    ensures changes[i].kind == Added ==> changes[j].kind == Added
    ensures changes[i].kind == Removed ==> changes[j].kind == Removed || changes[j].kind == Added
    ensures changes[i].kind == changes[j].kind && Flow(changes[i]) != Flow(changes[j]) ==>
              Less(Flow(changes[i]), Flow(changes[j]))
  {
    LessTrichotomy(Flow(changes[i]), Flow(changes[j]));
    assert !KeyLess(ChangeKey(changes[j]), ChangeKey(changes[i]));
  }

  // ----- flows name their keys -----

  /** Keys as Evaluate emits them. */
  ghost predicate ArrowKeys(m: Matrix) { forall k :: k in m ==> HasArrow(k) }

  ghost predicate DistinctFlows(changes: seq<FlowChange>) {
    forall i, j :: 0 <= i < j < |changes| ==> Flow(changes[i]) != Flow(changes[j])
  }

  lemma {:induction false} DistinctFlowsOver(base: Matrix, head: Matrix, ks: seq<string>)
    requires Distinct(ks) && forall k :: k in ks ==> HasArrow(k)
    ensures DistinctFlows(ChangesOver(base, head, ks))
    ensures forall c :: c in ChangesOver(base, head, ks) ==> Flow(c) in ks
  {
    if ks != [] {
      var n := |ks| - 1;
      assert ks == ks[..n] + [ks[n]] && ks[n] !in ks[..n];
      DistinctFlowsOver(base, head, ks[..n]);
    }
  }

  lemma SortedFlowsDistinct(changes: seq<FlowChange>)
    requires DistinctFlows(changes)
    ensures DistinctFlows(SortBy(ChangeKey, changes))
  {
    var sorted := SortBy(ChangeKey, changes);
    assert Distinct(changes);
    DistinctMultiset(changes, sorted);
    forall i, j | 0 <= i < j < |sorted| ensures Flow(sorted[i]) != Flow(sorted[j]) {
      assert sorted[i] in changes && sorted[j] in changes && sorted[i] != sorted[j];
    }
  }

  // ----- what a report is good for -----

  ghost function AllowSet(m: Matrix): set<string> { set k | k in m && m[k] == "allow" }

  predicate Gains(c: FlowChange) { c.kind == Opened || c.kind == Added }

  /** Apply the changes to an allow-set: drop the closed and removed flows, insert the opened and added. */
  ghost function Replay(allowed: set<string>, changes: seq<FlowChange>): set<string> {
    (allowed - set c | c in changes && !Gains(c) :: Flow(c)) + set c | c in changes && Gains(c) :: Flow(c)
  }

  /** A common key on which the head allows what the base neither allowed nor denied: the code calls it closed. */
  ghost predicate Misread(base: Matrix, head: Matrix, k: string) {
    k in base && k in head && head[k] == "allow" && base[k] != "allow" && base[k] != "deny"
  }

  lemma FlowOfChange(base: Matrix, head: Matrix, k: string, kind: Kind)
    requires HasArrow(k)
    ensures Flow(ChangeAt(base, head, k, kind)) == k
  {
  }

  lemma ListedClass(c: FlowChange, base: Matrix, head: Matrix)
    requires IsChange(c, base, head) && ArrowKeys(base) && ArrowKeys(head)
    ensures ClassOf(base, head, Flow(c)) == Change(c.kind)
  {
    var k :| k in AllKeys(base, head)
      && ClassOf(base, head, k) == Change(c.kind) && c == ChangeAt(base, head, k, c.kind);
    FlowOfChange(base, head, k, c.kind);
  }

  /** Which flows the changes of a report gain and lose. */
  lemma ChangedFlows(changes: seq<FlowChange>, base: Matrix, head: Matrix, k: string)
    requires Listed(changes, base, head) && ArrowKeys(base) && ArrowKeys(head)
    ensures (exists c :: c in changes && Gains(c) && Flow(c) == k)
            <==> ClassOf(base, head, k) in {Change(Opened), Change(Added)}
    ensures (exists c :: c in changes && !Gains(c) && Flow(c) == k)
            <==> ClassOf(base, head, k) in {Change(Closed), Change(Removed)}
  {
    forall c | c in changes && Flow(c) == k ensures ClassOf(base, head, k) == Change(c.kind) {
      ListedClass(c, base, head);
    }
    var cls := ClassOf(base, head, k);
    if cls.Change? {
      assert ChangeAt(base, head, k, cls.kind) in changes;
      FlowOfChange(base, head, k, cls.kind);
    }
  }

  lemma ReplayAt(changes: seq<FlowChange>, base: Matrix, head: Matrix, k: string)
    requires Listed(changes, base, head) && ArrowKeys(base) && ArrowKeys(head)
    ensures k in Replay(AllowSet(base), changes) <==> k in AllowSet(head) && !Misread(base, head, k)
  {
    ChangedFlows(changes, base, head, k);
  }

  /** Replaying a report on the base allow-set gives the head allow-set exactly when no verdict is misread. */
  lemma ReplayExactIff(changes: seq<FlowChange>, base: Matrix, head: Matrix)
    requires Listed(changes, base, head) && ArrowKeys(base) && ArrowKeys(head)
    ensures Replay(AllowSet(base), changes) == AllowSet(head) <==> forall k :: !Misread(base, head, k)
  {
    forall k ensures k in Replay(AllowSet(base), changes) <==> k in AllowSet(head) && !Misread(base, head, k) {
      ReplayAt(changes, base, head, k);
    }
    assert forall k :: Misread(base, head, k) ==> k in AllowSet(head);
  }

  /** A base that holds neither verdict: the flow is listed as closed, and the replay loses it. */
  lemma UnknownVerdictIsMisread(changes: seq<FlowChange>, v: string)
    requires v != "allow" && v != "deny" && Listed(changes, map["a->b" := v], map["a->b" := "allow"])
    ensures Misread(map["a->b" := v], map["a->b" := "allow"], "a->b")
    ensures Replay(AllowSet(map["a->b" := v]), changes) != AllowSet(map["a->b" := "allow"])
  {
    var base: Matrix, head: Matrix := map["a->b" := v], map["a->b" := "allow"];
    assert ArrowAt("a->b", 1);
    assert Misread(base, head, "a->b");
    ReplayExactIff(changes, base, head);
  }

  /** Matrices as the engines fill them. */
  ghost predicate Binary(m: Matrix) { forall k :: k in m ==> m[k] == "allow" || m[k] == "deny" }

  lemma ReplayBinary(changes: seq<FlowChange>, base: Matrix, head: Matrix)
    requires Listed(changes, base, head) && ArrowKeys(base) && ArrowKeys(head) && Binary(base)
    ensures Replay(AllowSet(base), changes) == AllowSet(head)
  {
    ReplayExactIff(changes, base, head);
  }

  /** Keys without an arrow do not survive the round trip through from and to. */
  lemma ArrowlessKeyBreaksReplay(changes: seq<FlowChange>)
    requires Listed(changes, map[], map["a" := "allow"])
    ensures Replay(AllowSet(map[]), changes) != AllowSet(map["a" := "allow"])
  {
    var head: Matrix := map["a" := "allow"];
    assert !HasArrow("a");
    assert "a" in AllowSet(head);
    forall c | c in changes ensures Flow(c) != "a" {
      assert IsChange(c, map[], head);
      assert |Flow(c)| >= 2;
    }
  }

  lemma ChangeHasKey(changes: seq<FlowChange>, base: Matrix, head: Matrix, c: FlowChange) returns (k: string)
    requires Listed(changes, base, head) && c in changes
    ensures k in AllKeys(base, head) && ClassOf(base, head, k) == Change(c.kind) && c == ChangeAt(base, head, k, c.kind)
  {
    assert IsChange(c, base, head);
    k :| k in AllKeys(base, head) && ClassOf(base, head, k) == Change(c.kind) && c == ChangeAt(base, head, k, c.kind);
  }

  lemma ChangeIsListed(changes: seq<FlowChange>, base: Matrix, head: Matrix, k: string)
    requires Listed(changes, base, head)
    ensures ClassOf(base, head, k).Change? ==> changes != []
  {
    if ClassOf(base, head, k).Change? {
      assert ChangeAt(base, head, k, ClassOf(base, head, k).kind) in changes;
    }
  }

  /** Whether a key is where two matrices allow different flows or disagree. */
  ghost predicate Differs(base: Matrix, head: Matrix, k: string) {
    (k in AllowSet(base)) != (k in AllowSet(head)) || (k in base && k in head && base[k] != head[k])
  }

  lemma ChangesAreDifferences(base: Matrix, head: Matrix, k: string)
    ensures ClassOf(base, head, k).Change? <==> Differs(base, head, k)
  {
  }

  /** A report is empty exactly when the allow-sets are equal and no common verdict differs. */
  lemma NoChangesIff(changes: seq<FlowChange>, base: Matrix, head: Matrix)
    requires Listed(changes, base, head)
    ensures changes == [] <==> forall k :: !Differs(base, head, k)
    ensures changes == [] ==> AllowSet(base) == AllowSet(head)
  {
    if changes != [] {
      var k := ChangeHasKey(changes, base, head, changes[0]);
      ChangesAreDifferences(base, head, k);
    } else {
      forall k ensures !Differs(base, head, k) {
        ChangesAreDifferences(base, head, k);
        ChangeIsListed(changes, base, head, k);
      }
      forall k ensures k in AllowSet(base) <==> k in AllowSet(head) {
        assert !Differs(base, head, k);
      }
    }
  }

  /** With binary verdicts the allow-sets alone decide. */
  lemma NoChangesBinary(changes: seq<FlowChange>, base: Matrix, head: Matrix)
    requires Listed(changes, base, head) && Binary(base) && Binary(head)
    ensures changes == [] <==> AllowSet(base) == AllowSet(head)
  {
    NoChangesIff(changes, base, head);
    if AllowSet(base) == AllowSet(head) {
      forall k ensures !Differs(base, head, k) {
        assert k in AllowSet(base) <==> k in AllowSet(head);
      }
    }
  }

  // ----- counting -----

  lemma DisjointCount<T>(a: set<T>, b: set<T>, c: set<T>)
    requires a !! b && c == a + b
    ensures |c| == |a| + |b|
  {
  }

  lemma ClassesDisjoint(base: Matrix, head: Matrix, keys: set<string>, c: Class, d: Class)
    requires c != d
    ensures OfClass(base, head, keys, c) !! OfClass(base, head, keys, d)
  {
  }

  lemma CommonUnion(base: Matrix, head: Matrix)
    ensures var all := AllKeys(base, head);
            base.Keys * head.Keys == OfClass(base, head, all, Change(Opened))
                + OfClass(base, head, all, Change(Closed)) + OfClass(base, head, all, Same)
  {
    forall k {
      CommonClasses(base, head, k);
    }
  }

  /** Opened, closed and unchanged flows are the common keys. */
  lemma CommonKeysCounted(r: DiffReport, base: Matrix, head: Matrix)
    requires Tallied(r, base, head, AllKeys(base, head))
    ensures r.numOpened + r.numClosed + r.numUnchanged == |base.Keys * head.Keys|
  {
    var all := AllKeys(base, head);
    var o, c, s := OfClass(base, head, all, Change(Opened)), OfClass(base, head, all, Change(Closed)),
        OfClass(base, head, all, Same);
    CommonUnion(base, head);
    ClassesDisjoint(base, head, all, Change(Opened), Change(Closed));
    ClassesDisjoint(base, head, all, Change(Opened), Same);
    ClassesDisjoint(base, head, all, Change(Closed), Same);
    DisjointCount(o, c, o + c);
    DisjointCount(o + c, s, o + c + s);
  }

  lemma CommonClasses(base: Matrix, head: Matrix, k: string)
    ensures (k in base && k in head) <==>
            k in AllKeys(base, head) && ClassOf(base, head, k) in {Change(Opened), Change(Closed), Same}
  {
  }

  /** A differing common key whose verdicts are not allow on one side and deny on the other. */
  ghost predicate Lopsided(base: Matrix, head: Matrix, k: string) {
    && k in base && k in head && base[k] != head[k]
    && !(base[k] == "deny" && head[k] == "allow") && !(base[k] == "allow" && head[k] == "deny")
  }

  lemma SwappedClass(base: Matrix, head: Matrix, k: string)
    ensures ClassOf(head, base, k) == Change(Added) <==> ClassOf(base, head, k) == Change(Removed)
    ensures ClassOf(head, base, k) == Same <==> ClassOf(base, head, k) == Same
    ensures ClassOf(base, head, k) == Change(Closed) <==>
            ClassOf(head, base, k) == Change(Opened) || Lopsided(base, head, k)
    ensures Lopsided(base, head, k) ==> ClassOf(head, base, k) != Change(Opened)
  {
  }

  /** One direction of the swap: closed flows are those the other side opens, and the lopsided ones. */
  lemma ClosedIsSwappedOpened(base: Matrix, head: Matrix)
    ensures var all, lopsided := AllKeys(base, head), set k | k in AllKeys(base, head) && Lopsided(base, head, k);
            |OfClass(base, head, all, Change(Closed))| == |OfClass(head, base, all, Change(Opened))| + |lopsided|
  {
    var all, lopsided := AllKeys(base, head), set k | k in AllKeys(base, head) && Lopsided(base, head, k);
    var c, o := OfClass(base, head, all, Change(Closed)), OfClass(head, base, all, Change(Opened));
    forall k ensures (k in c <==> k in o || k in lopsided) && !(k in o && k in lopsided) {
      SwappedClass(base, head, k);
    }
    DisjointCount(o, lopsided, c);
  }

  lemma SwappedSets(base: Matrix, head: Matrix)
    ensures AllKeys(head, base) == AllKeys(base, head)
    ensures OfClass(head, base, AllKeys(base, head), Change(Added)) ==
            OfClass(base, head, AllKeys(base, head), Change(Removed))
    ensures OfClass(head, base, AllKeys(base, head), Same) == OfClass(base, head, AllKeys(base, head), Same)
  {
    assert AllKeys(head, base) == AllKeys(base, head);
    forall k {
      SwappedClass(base, head, k);
    }
  }

  /** Swapping the sides swaps added with removed always, and opened with closed exactly when no key is
      lopsided. */
  lemma SwapSides(r: DiffReport, s: DiffReport, base: Matrix, head: Matrix)
    requires Tallied(r, base, head, AllKeys(base, head)) && Tallied(s, head, base, AllKeys(head, base))
    ensures s.numAdded == r.numRemoved && s.numRemoved == r.numAdded && s.numUnchanged == r.numUnchanged
    ensures s.numOpened == r.numClosed && s.numClosed == r.numOpened <==> forall k :: !Lopsided(base, head, k)
  {
    SwappedSets(base, head);
    SwappedSets(head, base);
    ClosedIsSwappedOpened(base, head);
    ClosedIsSwappedOpened(head, base);
    var lopsided := set k | k in AllKeys(base, head) && Lopsided(base, head, k);
    var mirrored := set k | k in AllKeys(head, base) && Lopsided(head, base, k);
    assert mirrored == lopsided;
    if k :| Lopsided(base, head, k) {
      assert k in lopsided;
    } else {
      assert lopsided == {};
    }
  }

  // ----- one report only -----

  /** The order leaves no choice: two reports of the same matrices list the same changes in the same order,
      although the keys are collected by ranging over maps. */
  lemma ReportIsUnique(a: seq<FlowChange>, b: seq<FlowChange>, base: Matrix, head: Matrix)
    requires Listed(a, base, head) && Listed(b, base, head) && SortedBy(ChangeKey, a) && SortedBy(ChangeKey, b)
    requires DistinctFlows(a) && DistinctFlows(b)
    ensures a == b
  {
    forall c ensures c in a <==> c in b {
      if c in a {
        var k := ChangeHasKey(a, base, head, c);
        assert c in b;
      }
      if c in b {
        var k := ChangeHasKey(b, base, head, c);
        assert c in a;
      }
    }
    SortedIsUnique(a, b);
  }

  lemma {:induction false} SortedIsUnique(a: seq<FlowChange>, b: seq<FlowChange>)
    requires SortedBy(ChangeKey, a) && SortedBy(ChangeKey, b) && DistinctFlows(a) && DistinctFlows(b)
    requires forall c :: c in a <==> c in b
    ensures a == b
  {
    if b != [] { assert b[0] in b; }
    if a != [] {
      assert a[0] in b && a[0] in a && b != [] && b[0] in a && b[0] in b;
      FirstIsLeast(a, b[0]);
      FirstIsLeast(b, a[0]);
      KeyLessOrder(ChangeKey(a[0]), ChangeKey(b[0]), ChangeKey(a[0]));
      SameFlowSame(a, a[0], b[0]);
      forall c ensures c in a[1..] <==> c in b[1..] {
        TailMembers(a, c);
        TailMembers(b, c);
      }
      SortedIsUnique(a[1..], b[1..]);
      assert a == [a[0]] + a[1..] && b == [b[0]] + b[1..];
    }
  }

  lemma FirstIsLeast(a: seq<FlowChange>, c: FlowChange)
    requires SortedBy(ChangeKey, a) && c in a
    ensures !KeyLess(ChangeKey(c), ChangeKey(a[0]))
  {
    var i :| 0 <= i < |a| && a[i] == c;
    KeyLessOrder(ChangeKey(c), ChangeKey(c), ChangeKey(c));
  }

  lemma SameFlowSame(a: seq<FlowChange>, c: FlowChange, d: FlowChange)
    requires DistinctFlows(a) && c in a && d in a && Flow(c) == Flow(d)
    ensures c == d
  {
    var i :| 0 <= i < |a| && a[i] == c;
    var j :| 0 <= j < |a| && a[j] == d;
  }

  lemma TailMembers(a: seq<FlowChange>, c: FlowChange)
    requires a != [] && DistinctFlows(a)
    ensures c in a[1..] <==> c in a && c != a[0]
  {
    assert forall i :: 0 < i < |a| ==> Flow(a[i]) != Flow(a[0]);
  }
}
