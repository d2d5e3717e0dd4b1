/** Port lists such as "80,443,8000-8100", how they are parsed and printed, and their intersection through a
    bitset. The empty list means any port. */
module PortLists {
  import opened Text

  const PORT_SPACE: nat := 0x1_0000

  // ----- the bitset -----

  /** A bitset's value: its members and its length, which bounds every scan. */
  datatype Bits = Bits(members: set<nat>, length: nat) {
    ghost predicate Valid() { forall i :: i in members ==> i < length }
  }

  function SetBit(b: Bits, i: nat): Bits {
    Bits(b.members + {i}, if i < b.length then b.length else i + 1)
  }

  function NextSet(b: Bits, i: nat): (r: Option<nat>)
    ensures r.Some? ==> i <= r.value < b.length && r.value in b.members
    decreases b.length - i
  {
    if i >= b.length then None else if i in b.members then Some(i) else NextSet(b, i + 1)
  }

  function NextClear(b: Bits, i: nat): (r: Option<nat>)
    ensures r.Some? ==> i <= r.value < b.length && r.value !in b.members
    decreases b.length - i
  {
    if i >= b.length then None else if i !in b.members then Some(i) else NextClear(b, i + 1)
  }

  lemma {:induction false} NextSetSkips(b: Bits, i: nat, k: nat)
    requires i <= k < (var r := NextSet(b, i); if r.Some? then r.value else b.length)
    ensures k !in b.members
    decreases b.length - i
  {
    if i < k { NextSetSkips(b, i + 1, k); }
  }

  lemma {:induction false} NextClearSkips(b: Bits, i: nat, k: nat)
    requires i <= k < (var r := NextClear(b, i); if r.Some? then r.value else b.length)
    ensures k in b.members
    decreases b.length - i
  {
    if i < k { NextClearSkips(b, i + 1, k); }
  }

  /** The bitset the Go code fills and intersects in place. Len is the length, not the member count. */
  class BitSet {
    var members: set<nat>
    var length: nat

    function View(): Bits reads this { Bits(members, length) }

    constructor (n: nat)
      ensures View() == Bits({}, n)
    {
      members, length := {}, n;
    }

    method Set(i: nat)
      modifies this
      ensures View() == SetBit(old(View()), i)
    {
      members := members + {i};
      length := if i < length then length else i + 1;
    }

    method InPlaceIntersection(other: BitSet)
      modifies this
      ensures View() == Intersection(old(View()), old(other.View()))
    {
      members := members * other.members;
      length := if other.length <= length then length else other.length;
    }
  }

  function Intersection(a: Bits, b: Bits): Bits {
    Bits(a.members * b.members, if b.length <= a.length then a.length else b.length)
  }

  // ----- parsing -----

  function SetRange(b: Bits, low: nat, high: int): Bits
    decreases high - low
  {
    if low > high then b else SetRange(SetBit(b, low), low + 1, high)
  }

  /** What one comma-separated piece contributes; malformed pieces contribute nothing. */
  function PieceRange(p: string): (r: (nat, int))
    ensures r.1 <= MAX_INT
  {
    if '-' in p then
      var parts := Split(p, '-');
      var low, high := Atoi(parts[0]), Atoi(parts[1]);
      if low.Some? && high.Some? then (low.value, high.value) else (1, 0)
    else
      var port := Atoi(p);
      if port.Some? then (port.value, port.value) else (1, 0)
  }

  function SetPieces(b: Bits, ps: seq<string>): Bits
    decreases ps
  {
    if ps == [] then b else SetPieces(SetRange(b, PieceRange(ps[0]).0, PieceRange(ps[0]).1), ps[1..])
  }

  function Parsed(s: string): Bits { SetPieces(Bits({}, PORT_SPACE), Split(s, ',')) }

  predicate PortMatches(s: string, port: nat) { s == "" || port in Parsed(s).members }

  /** Every port the list names fits 16 bits. */
  ghost predicate Bounded(s: string) { s != "" ==> forall p :: p in Parsed(s).members ==> p < PORT_SPACE }

  method ParsePorts(s: string) returns (b: BitSet)
    ensures fresh(b) && b.View() == Parsed(s)
  {
    b := new BitSet(PORT_SPACE);
    var pieces := Split(s, ',');
    for k := 0 to |pieces|
      invariant SetPieces(b.View(), pieces[k..]) == Parsed(s)
    {
      var p := pieces[k];
      ghost var r := PieceRange(p);
      ghost var before := b.View();
      if '-' in p {
        var parts := Split(p, '-');
        var low, high := Atoi(parts[0]), Atoi(parts[1]);
        if low.Some? && high.Some? {
          var port: nat := low.value;
          while port <= high.value
            invariant SetRange(b.View(), port, high.value) == SetRange(before, r.0, r.1)
          {
            b.Set(port);
            port := port + 1;
          }
        }
      } else {
        var port := Atoi(p);
        if port.Some? {
          b.Set(port.value);
        }
      }
      assert b.View() == SetRange(before, r.0, r.1);
      assert pieces[k..][0] == p && pieces[k..][1..] == pieces[k + 1..];
    }
  }

  lemma {:induction false} SetRangeMembers(b: Bits, low: nat, high: int)
    requires b.Valid() && b.length >= PORT_SPACE
    ensures SetRange(b, low, high).Valid()
    ensures forall p :: p in SetRange(b, low, high).members <==> p in b.members || low <= p <= high
    ensures SetRange(b, low, high).length ==
            if low <= high && high >= b.length then high + 1 else b.length
    decreases high - low
  {
    if low <= high {
      SetRangeMembers(SetBit(b, low), low + 1, high);
    }
  }

  predicate InPieces(ps: seq<string>, port: nat) {
    exists k :: 0 <= k < |ps| && PieceRange(ps[k]).0 <= port <= PieceRange(ps[k]).1
  }

  /** A piece covers its one number, or the numbers between the first two parts of a dashed one; nothing when a number
      it needs is malformed. */
  lemma PieceMeaning(p: string, port: nat)
    ensures PieceRange(p).0 <= port <= PieceRange(p).1 <==>
            if '-' in p then
              exists low: int, high: int :: Atoi(Split(p, '-')[0]) == Some(low) && Atoi(Split(p, '-')[1]) == Some(high)
                && low <= port <= high
            else Atoi(p) == Some(port)
  {
  }

  lemma {:induction false} SetPiecesMembers(b: Bits, ps: seq<string>)
    requires b.Valid() && b.length >= PORT_SPACE
    requires b.length > PORT_SPACE ==> b.length - 1 in b.members
    ensures var r := SetPieces(b, ps);
            && r.Valid() && r.length >= PORT_SPACE
            && (r.length > PORT_SPACE ==> r.length - 1 in r.members)
            && forall p :: p in r.members <==> p in b.members || InPieces(ps, p)
    decreases ps
  {
    if ps != [] {
      var (low, high) := PieceRange(ps[0]);
      SetRangeMembers(b, low, high);
      var next := SetRange(b, low, high);
      SetPiecesMembers(next, ps[1..]);
      forall p: nat ensures InPieces(ps, p) <==> low <= p <= high || InPieces(ps[1..], p) {
        if k :| 0 <= k < |ps[1..]| && PieceRange(ps[1..][k]).0 <= p <= PieceRange(ps[1..][k]).1 {
          assert PieceRange(ps[k + 1]).0 <= p <= PieceRange(ps[k + 1]).1;
        }
        if low <= p <= high {
          assert PieceRange(ps[0]).0 <= p <= PieceRange(ps[0]).1;
        }
        if k :| 0 < k < |ps| && PieceRange(ps[k]).0 <= p <= PieceRange(ps[k]).1 {
          assert ps[1..][k - 1] == ps[k];
        }
      }
    }
  }

  lemma ParsedMembers(s: string)
    ensures var r := Parsed(s);
            && r.Valid() && r.length >= PORT_SPACE
            && (r.length > PORT_SPACE ==> r.length - 1 in r.members)
            && (forall p :: p in r.members <==> InPieces(Split(s, ','), p))
            && (forall p :: p in r.members ==> p <= MAX_INT)
  {
    SetPiecesMembers(Bits({}, PORT_SPACE), Split(s, ','));
  }

  // ----- printing the runs of an intersection -----

  type Run = (nat, nat)

  /** The maximal runs of members from i on; a run with no clear bit after it is never emitted. */
  function Runs(b: Bits, i: nat): seq<Run>
    decreases b.length - i
  {
    var start := NextSet(b, i);
    if start.None? then [] else
      var clear := NextClear(b, start.value + 1);
      if clear.None? then [] else [(start.value, clear.value - 1)] + Runs(b, clear.value + 1)
  }

  function RunText(r: Run): string {
    if r.0 == r.1 then Itoa(r.0) else Itoa(r.0) + "-" + Itoa(r.1)
  }

  function RunTexts(runs: seq<Run>): (ts: seq<string>)
    ensures |ts| == |runs|
  {
    seq(|runs|, k requires 0 <= k < |runs| => RunText(runs[k]))
  }

  function Combined(p1: string, p2: string): string {
    if p1 == "" then p2 else if p2 == "" then p1
    else Join(RunTexts(Runs(Intersection(Parsed(p1), Parsed(p2)), 0)), ',')
  }

  lemma RunsStep(b: Bits, i: nat, start: nat, clear: nat)
    requires NextSet(b, i) == Some(start) && NextClear(b, start + 1) == Some(clear)
    ensures Runs(b, i) == [(start, clear - 1)] + Runs(b, clear + 1)
  {
  }

  /** The loop of combinePorts at position i: some runs are printed, the others still to come. */
  ghost predicate Printed(bits: Bits, i: nat, out: seq<string>, done: seq<Run>) {
    Runs(bits, 0) == done + Runs(bits, i) && out == RunTexts(done)
  }

  lemma PrintStep(bits: Bits, i: nat, out: seq<string>, done: seq<Run>, start: nat, clear: nat)
    requires Printed(bits, i, out, done) && NextSet(bits, i) == Some(start) && NextClear(bits, start + 1) == Some(clear)
    ensures Printed(bits, clear + 1, out + [RunText((start, clear - 1))], done + [(start, clear - 1)])
  {
    RunsStep(bits, i, start, clear);
    Assoc(done, [(start, clear - 1)], Runs(bits, clear + 1));
    RunTextsSnoc(done, (start, clear - 1));
  }

  lemma RunTextsSnoc(runs: seq<Run>, r: Run)
    ensures RunTexts(runs + [r]) == RunTexts(runs) + [RunText(r)]
  {
  }

  /** The run-scanning loop of combinePorts. */
  method PrintRuns(bits: Bits) returns (out: seq<string>)
    ensures out == RunTexts(Runs(bits, 0))
  {
    var i: nat := 0;
    out := [];
    ghost var done: seq<Run> := [];
    while true
      invariant Printed(bits, i, out, done)
      decreases bits.length - i
    {
      var start := NextSet(bits, i);
      if start.None? {
        break;
      }
      var clear := NextClear(bits, start.value + 1);
      if clear.None? {
        break;
      }
      var end := clear.value - 1;
      PrintStep(bits, i, out, done, start.value, clear.value);
      out := out + [RunText((start.value, end))];
      done := done + [(start.value, end)];
      i := clear.value + 1;
    }
    NoMoreRuns(bits, i, done);
  }

  lemma NoMoreRuns(bits: Bits, i: nat, done: seq<Run>)
    requires NextSet(bits, i).None? || NextClear(bits, NextSet(bits, i).value + 1).None?
    ensures done + Runs(bits, i) == done
  {
  }

  /** combinePorts. The no-op report can never be given: the bitset's length is never zero. */
  method CombinePorts(p1: string, p2: string) returns (ports: string, noOp: bool)
    ensures !noOp && ports == Combined(p1, p2)
  {
    if p1 == "" {
      return p2, false;
    }
    if p2 == "" {
      return p1, false;
    }
    var a := ParsePorts(p1);
    var b := ParsePorts(p2);
    a.InPlaceIntersection(b);
    if a.length == 0 {
      assert false by { ParsedMembers(p1); }
      return "", true;
    }
    var out := PrintRuns(a.View());
    return Join(out, ','), false;
  }

  // ----- what the printed list means -----

  /** Ascending, disjoint and non-adjacent. */
  ghost predicate Canonical(runs: seq<Run>) {
    && (forall k :: 0 <= k < |runs| ==> runs[k].0 <= runs[k].1)
    && (forall j, k :: 0 <= j < k < |runs| ==> runs[j].1 + 1 < runs[k].0)
  }

  predicate InRuns(runs: seq<Run>, p: nat) {
    exists k :: 0 <= k < |runs| && runs[k].0 <= p <= runs[k].1
  }

  /** A clear bit follows p inside the set's length. */
  ghost predicate ClearAfter(b: Bits, p: nat) { exists q :: p < q < b.length && q !in b.members }

  lemma InRunsCons(r: Run, rest: seq<Run>, p: nat)
    ensures InRuns([r] + rest, p) <==> r.0 <= p <= r.1 || InRuns(rest, p)
  {
    var all := [r] + rest;
    assert forall k :: 0 < k < |all| ==> all[k] == rest[k - 1];
    if r.0 <= p <= r.1 {
      assert all[0] == r;
    }
    if k :| 0 <= k < |rest| && rest[k].0 <= p <= rest[k].1 {
      assert all[k + 1] == rest[k];
    }
  }

  lemma CanonicalCons(r: Run, rest: seq<Run>)
    requires r.0 <= r.1 && Canonical(rest) && (rest != [] ==> r.1 + 1 < rest[0].0)
    ensures Canonical([r] + rest)
  {
    assert forall k :: 0 < k < |rest| ==> rest[0].0 < rest[k].0;
  }

  lemma {:induction false} RunsOrder(b: Bits, i: nat)
    ensures var runs := Runs(b, i);
            && Canonical(runs)
            && forall k :: 0 <= k < |runs| ==> i <= runs[k].0 && runs[k].1 < b.length && runs[k].1 in b.members
    decreases b.length - i
  {
    var runs := Runs(b, i);
    if runs != [] {
      var clear := runs[0].1 + 1;
      var rest := Runs(b, clear + 1);
      if runs[0].0 < runs[0].1 { NextClearSkips(b, runs[0].0 + 1, runs[0].1); }
      RunsOrder(b, clear + 1);
      assert runs == [runs[0]] + rest;
      CanonicalCons(runs[0], rest);
    }
  }

  /** All runs of a set. */
  lemma RunsMeaning(b: Bits)
    requires b.Valid()
    ensures var runs := Runs(b, 0);
            && Canonical(runs)
            && (forall k :: 0 <= k < |runs| ==> runs[k].1 < b.length)
            && forall p :: InRuns(runs, p) <==> p in b.members && ClearAfter(b, p)
  {
    RunsOrder(b, 0);
    forall p: nat ensures InRuns(Runs(b, 0), p) <==> p in b.members && ClearAfter(b, p) {
      RunsCover(b, 0, p);
    }
  }

  lemma {:induction false} RunsCover(b: Bits, i: nat, p: nat)
    requires b.Valid()
    ensures InRuns(Runs(b, i), p) <==> i <= p && p in b.members && ClearAfter(b, p)
    decreases b.length - i
  {
    var start := NextSet(b, i);
    var begin := if start.Some? then start.value else b.length;
    if i <= p < begin { NextSetSkips(b, i, p); }
    if start.Some? {
      var clear := NextClear(b, begin + 1);
      var end := if clear.Some? then clear.value else b.length;
      forall k | begin < k < end { NextClearSkips(b, begin + 1, k); }
      if clear.Some? {
        RunsCover(b, end + 1, p);
        InRunsCons((begin, end - 1), Runs(b, end + 1), p);
        assert end !in b.members;
      }
    }
  }

  lemma RunTextPiece(r: Run)
    requires r.0 <= r.1 <= MAX_INT
    ensures ',' !in RunText(r) && RunText(r) != "" && PieceRange(RunText(r)) == r
  {
    AtoiItoa(r.0);
    AtoiItoa(r.1);
    var lo, hi := Itoa(r.0), Itoa(r.1);
    if r.0 != r.1 {
      assert Join([lo, hi], '-') == RunText(r);
      SplitJoin([lo, hi], '-');
      assert RunText(r)[|lo|] == '-';
    }
  }

  lemma RunTextsPieces(runs: seq<Run>)
    requires forall k :: 0 <= k < |runs| ==> runs[k].0 <= runs[k].1 <= MAX_INT
    ensures forall k :: 0 <= k < |runs| ==>
              ',' !in RunTexts(runs)[k] && RunTexts(runs)[k] != "" && PieceRange(RunTexts(runs)[k]) == runs[k]
  {
    forall k | 0 <= k < |runs| { RunTextPiece(runs[k]); }
  }

  lemma RunsReadBack(runs: seq<Run>)
    requires runs != [] && forall k :: 0 <= k < |runs| ==> runs[k].0 <= runs[k].1 <= MAX_INT
    ensures var s := Join(RunTexts(runs), ',');
            s != "" && Split(s, ',') == RunTexts(runs)
            && forall p :: p in Parsed(s).members <==> InRuns(runs, p)
  {
    RunTextsPieces(runs);
    var ts := RunTexts(runs);
    SplitJoin(ts, ',');
    ParsedMembers(Join(ts, ','));
    forall p: nat ensures InPieces(ts, p) <==> InRuns(runs, p) {
      if k :| 0 <= k < |ts| && PieceRange(ts[k]).0 <= p <= PieceRange(ts[k]).1 {
        assert runs[k].0 <= p <= runs[k].1;
      }
      if k :| 0 <= k < |runs| && runs[k].0 <= p <= runs[k].1 {
        assert PieceRange(ts[k]).0 <= p <= PieceRange(ts[k]).1;
      }
    }
  }

  /** For any two non-empty lists: the printed list is made of canonical runs and reads back as the
      intersection without a final run that reaches the end of the bitset; with no run left it is
      empty, which means any port. */
  lemma CombinedReadsBack(p1: string, p2: string)
    requires p1 != "" && p2 != ""
    ensures var i := Intersection(Parsed(p1), Parsed(p2));
            var runs := Runs(i, 0);
            && Canonical(runs)
            && (Combined(p1, p2) == "" <==> forall p :: p in i.members ==> !ClearAfter(i, p))
            && (Combined(p1, p2) != "" ==>
                  && Split(Combined(p1, p2), ',') == RunTexts(runs)
                  && forall p :: p in Parsed(Combined(p1, p2)).members <==> p in i.members && ClearAfter(i, p))
  {
    ParsedMembers(p1);
    ParsedMembers(p2);
    var i := Intersection(Parsed(p1), Parsed(p2));
    var runs := Runs(i, 0);
    RunsMeaning(i);
    if runs != [] {
      RunsReadBack(runs);
      assert InRuns(runs, runs[0].0);
    }
  }

  /** The guard a caller can test: one list is "any", or the intersection is non-empty and misses 65535,
      or the intersection is every port. */
  ghost predicate PortsExact(p1: string, p2: string) {
    || p1 == "" || p2 == ""
    || (var i := Parsed(p1).members * Parsed(p2).members;
        || (i != {} && PORT_SPACE - 1 !in i)
        || forall p :: 0 <= p < PORT_SPACE ==> p in i)
  }

  ghost predicate CombinedIsIntersection(p1: string, p2: string) {
    forall p :: 0 <= p < PORT_SPACE ==>
      (PortMatches(Combined(p1, p2), p) <==> PortMatches(p1, p) && PortMatches(p2, p))
  }

  /** The same statement over member sets: "any" stands for an empty printed list. */
  lemma ExactIffOverSets(m1: set<nat>, m2: set<nat>, any: bool, printed: set<nat>)
    requires forall p :: p in m1 * m2 ==> p < PORT_SPACE
    requires var i := Bits(m1 * m2, PORT_SPACE);
             && (any <==> forall p :: p in i.members ==> !ClearAfter(i, p))
             && (!any ==> forall p :: p in printed <==> p in i.members && ClearAfter(i, p))
    ensures (forall p :: 0 <= p < PORT_SPACE ==> (any || p in printed <==> p in m1 && p in m2)) <==>
            || (m1 * m2 != {} && PORT_SPACE - 1 !in m1 * m2)
            || forall p :: 0 <= p < PORT_SPACE ==> p in m1 * m2
  {
    var i, top := Bits(m1 * m2, PORT_SPACE), PORT_SPACE - 1;
    if top !in i.members {
      forall p | p in i.members ensures ClearAfter(i, p) {
        assert p < top < i.length;
      }
      if i.members == {} {
        assert 0 !in m1 * m2;
        assert any && !(0 in m1 && 0 in m2);
      } else {
        var p :| p in i.members;
        assert !any;
        assert forall p :: p in m1 * m2 <==> p in m1 && p in m2;
      }
    } else if p: nat :| p < PORT_SPACE && p !in i.members {
      assert !ClearAfter(i, top) && top in m1 && top in m2;
      assert !(p in m1 && p in m2);
      assert if any then any || p in printed else top !in printed;
    } else {
      forall p: nat | p < PORT_SPACE ensures p in m1 * m2 && p in m1 && p in m2 {
        assert p in i.members;
      }
      assert any;
    }
  }

  lemma CombinedOverSets(p1: string, p2: string)
    requires p1 != "" && p2 != ""
    ensures var printed := Combined(p1, p2);
            CombinedIsIntersection(p1, p2) <==>
            forall p :: 0 <= p < PORT_SPACE ==>
              (printed == "" || p in Parsed(printed).members <==> p in Parsed(p1).members && p in Parsed(p2).members)
  {
    var printed := Combined(p1, p2);
    assert forall p :: PortMatches(printed, p) <==> printed == "" || p in Parsed(printed).members;
    assert forall p :: PortMatches(p1, p) <==> p in Parsed(p1).members;
    assert forall p :: PortMatches(p2, p) <==> p in Parsed(p2).members;
  }

  /** combinePorts is the intersection exactly under that guard. */
  lemma CombinePortsExactIff(p1: string, p2: string)
    requires Bounded(p1) && Bounded(p2)
    ensures CombinedIsIntersection(p1, p2) <==> PortsExact(p1, p2)
  {
    if p1 != "" && p2 != "" {
      CombinedReadsBack(p1, p2);
      ParsedMembers(p1);
      ParsedMembers(p2);
      var printed := Combined(p1, p2);
      CombinedOverSets(p1, p2);
      ExactIffOverSets(Parsed(p1).members, Parsed(p2).members, printed == "", Parsed(printed).members);
    }
  }

  /** Bounded lists stay bounded. */
  lemma CombinedBounded(p1: string, p2: string)
    requires Bounded(p1) && Bounded(p2)
    ensures Bounded(Combined(p1, p2))
  {
    if p1 != "" && p2 != "" {
      CombinedReadsBack(p1, p2);
    }
  }
}
