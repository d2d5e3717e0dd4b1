/** api.EndpointPairs: the index pairs a full or partial evaluation visits, source by source or in the order
    they were requested, through a callback that may stop early. */
module EndpointPairs {
  import opened Text

  /** An ordered flow to include in a partial matrix. */
  datatype MatrixPair = MatrixPair(from: string, to: string)

  type IndexPair = (nat, nat)

  // ----- which pairs, in which order -----

  function RowPairs(ids: seq<string>, i: nat, j: nat): seq<IndexPair>
    requires i < |ids| && j <= |ids|
  {
    if j == 0 then []
    else if ids[i] == ids[j - 1] then RowPairs(ids, i, j - 1)
    else RowPairs(ids, i, j - 1) + [(i, j - 1)]
  }

  /** Every pair of positions with distinct ids, row by row. */
  function FullPairs(ids: seq<string>, n: nat): seq<IndexPair>
    requires n <= |ids|
  {
    if n == 0 then [] else FullPairs(ids, n - 1) + Row(ids, n - 1)
  }

  function Row(ids: seq<string>, i: nat): seq<IndexPair>
    requires i < |ids|
  {
    RowPairs(ids, i, |ids|)
  }

  /** The positions of an id. */
  function Positions(ids: seq<string>, id: string, n: nat): seq<nat>
    requires n <= |ids|
  {
    if n == 0 then [] else Positions(ids, id, n - 1) + if ids[n - 1] == id then [n - 1] else []
  }

  ghost predicate AllAt(ids: seq<string>, id: string, js: seq<nat>) {
    forall k :: 0 <= k < |js| ==> js[k] < |ids| && ids[js[k]] == id
  }

  lemma {:induction false} PositionsAllAt(ids: seq<string>, id: string, n: nat)
    requires n <= |ids|
    ensures AllAt(ids, id, Positions(ids, id, n))
  {
    if n > 0 { PositionsAllAt(ids, id, n - 1); }
  }

  function CrossRow(i: nat, js: seq<nat>): (r: seq<IndexPair>)
    ensures |r| == |js|
  {
    seq(|js|, k requires 0 <= k < |js| => (i, js[k]))
  }

  function Cross(is_: seq<nat>, js: seq<nat>): seq<IndexPair> {
    if is_ == [] then [] else Cross(is_[..|is_| - 1], js) + CrossRow(is_[|is_| - 1], js)
  }

  function PairPositions(ids: seq<string>, p: MatrixPair): seq<IndexPair> {
    Cross(Positions(ids, p.from, |ids|), Positions(ids, p.to, |ids|))
  }

  /** Requested pairs in request order: self-pairs and repetitions left out, repeated ids expanded. */
  function SelectedPairs(ids: seq<string>, pairs: seq<MatrixPair>): seq<IndexPair> {
    if pairs == [] then []
    else
      var n := |pairs| - 1;
      var p := pairs[n];
      if p.from == p.to || p in pairs[..n] then SelectedPairs(ids, pairs[..n])
      else SelectedPairs(ids, pairs[..n]) + PairPositions(ids, p)
  }

  function AllPairs(ids: seq<string>, pairs: seq<MatrixPair>): seq<IndexPair> {
    if pairs == [] then FullPairs(ids, |ids|) else SelectedPairs(ids, pairs)
  }

  // ----- the iteration -----

  /** A callback: from the pairs yielded so far, whether to go on. */
  type Yield = seq<IndexPair> -> bool

  /** A prefix of the full list, cut after the first pair on which the callback stops. */
  ghost predicate Visited(visited: seq<IndexPair>, all: seq<IndexPair>, yield_: Yield, stopped: bool) {
    && visited <= all
    && (forall k :: 0 < k < |visited| ==> yield_(visited[..k]))
    && (if stopped then visited != [] && !yield_(visited) else visited == [] || yield_(visited))
  }

  /** One call of the callback. */
  method YieldOne(visited0: seq<IndexPair>, p: IndexPair, ghost all: seq<IndexPair>, yield_: Yield)
    returns (visited: seq<IndexPair>, stopped: bool)
    requires Visited(visited0, all, yield_, false) && visited0 + [p] <= all
    ensures visited == visited0 + [p] && Visited(visited, all, yield_, stopped)
  {
    visited := visited0 + [p];
    assert forall j :: 0 < j < |visited0| ==> visited[..j] == visited0[..j];
    assert visited[..|visited0|] == visited0;
    stopped := !yield_(visited);
  }

  lemma RowPrefix(ids: seq<string>, i: nat, j: nat)
    requires i < |ids| && j <= |ids|
    ensures RowPairs(ids, i, j) <= Row(ids, i)
    decreases |ids| - j
  {
    if j < |ids| { RowPrefix(ids, i, j + 1); }
  }

  lemma PrefixAppend<T>(a: seq<T>, b: seq<T>, c: seq<T>, all: seq<T>)
    requires a + c <= all && b <= c
    ensures a + b <= all
  {
    assert a + b == (a + c)[..|a + b|];
    assert (a + c)[..|a + b|] == all[..|a + b|];
  }

  lemma RowNext(visited0: seq<IndexPair>, ids: seq<string>, i: nat, j: nat, all: seq<IndexPair>)
    requires i < |ids| && j < |ids| && visited0 + Row(ids, i) <= all
    ensures visited0 + RowPairs(ids, i, j + 1) <= all
    ensures visited0 + RowPairs(ids, i, j + 1) ==
            if ids[i] == ids[j] then visited0 + RowPairs(ids, i, j) else visited0 + RowPairs(ids, i, j) + [(i, j)]
  {
    RowPrefix(ids, i, j + 1);
    PrefixAppend(visited0, RowPairs(ids, i, j + 1), Row(ids, i), all);
    Assoc(visited0, RowPairs(ids, i, j), [(i, j)]);
  }

  method YieldRow(visited0: seq<IndexPair>, ids: seq<string>, i: nat, ghost all: seq<IndexPair>, yield_: Yield)
    returns (visited: seq<IndexPair>, stopped: bool)
    requires i < |ids|
    requires Visited(visited0, all, yield_, false) && visited0 + Row(ids, i) <= all
    ensures Visited(visited, all, yield_, stopped)
    ensures !stopped ==> visited == visited0 + Row(ids, i)
  {
    visited, stopped := visited0, false;
    for j := 0 to |ids|
      invariant !stopped && visited == visited0 + RowPairs(ids, i, j) && Visited(visited, all, yield_, false)
    {
      RowNext(visited0, ids, i, j, all);
      if ids[i] != ids[j] {
        visited, stopped := YieldOne(visited, (i, j), all, yield_);
        if stopped {
          return;
        }
      }
    }
  }

  method YieldCrossRow(visited0: seq<IndexPair>, i: nat, js: seq<nat>, ghost all: seq<IndexPair>, yield_: Yield)
    returns (visited: seq<IndexPair>, stopped: bool)
    requires Visited(visited0, all, yield_, false) && visited0 + CrossRow(i, js) <= all
    ensures Visited(visited, all, yield_, stopped)
    ensures !stopped ==> visited == visited0 + CrossRow(i, js)
  {
    visited, stopped := visited0, false;
    for b := 0 to |js|
      invariant !stopped && visited == visited0 + CrossRow(i, js)[..b] && Visited(visited, all, yield_, false)
    {
      PrefixAppend(visited0, CrossRow(i, js)[..b + 1], CrossRow(i, js), all);
      Assoc(visited0, CrossRow(i, js)[..b], [(i, js[b])]);
      assert CrossRow(i, js)[..b + 1] == CrossRow(i, js)[..b] + [(i, js[b])];
      visited, stopped := YieldOne(visited, (i, js[b]), all, yield_);
      if stopped {
        return;
      }
    }
    assert CrossRow(i, js)[..|js|] == CrossRow(i, js);
  }

  lemma CrossPrefix(is_: seq<nat>, js: seq<nat>, a: nat)
    requires a <= |is_|
    ensures Cross(is_[..a], js) <= Cross(is_, js)
    decreases |is_| - a
  {
    if a == |is_| {
      assert is_[..a] == is_;
    } else {
      CrossPrefix(is_, js, a + 1);
      CrossStep(is_, js, a);
    }
  }

  lemma CrossStep(is_: seq<nat>, js: seq<nat>, a: nat)
    requires a < |is_|
    ensures Cross(is_[..a + 1], js) == Cross(is_[..a], js) + CrossRow(is_[a], js)
  {
    assert is_[..a + 1][..a] == is_[..a];
  }

  method YieldCross(visited0: seq<IndexPair>, is_: seq<nat>, js: seq<nat>, ghost all: seq<IndexPair>, yield_: Yield)
    returns (visited: seq<IndexPair>, stopped: bool)
    requires Visited(visited0, all, yield_, false) && visited0 + Cross(is_, js) <= all
    ensures Visited(visited, all, yield_, stopped)
    ensures !stopped ==> visited == visited0 + Cross(is_, js)
  {
    visited, stopped := visited0, false;
    for a := 0 to |is_|
      invariant !stopped && visited == visited0 + Cross(is_[..a], js) && Visited(visited, all, yield_, false)
    {
      CrossPrefix(is_, js, a + 1);
      PrefixAppend(visited0, Cross(is_[..a + 1], js), Cross(is_, js), all);
      CrossStep(is_, js, a);
      Assoc(visited0, Cross(is_[..a], js), CrossRow(is_[a], js));
      visited, stopped := YieldCrossRow(visited, is_[a], js, all, yield_);
      if stopped {
        return;
      }
    }
    assert is_[..|is_|] == is_;
  }

  lemma FullPrefix(ids: seq<string>, n: nat)
    requires n <= |ids|
    ensures FullPairs(ids, n) <= FullPairs(ids, |ids|)
    decreases |ids| - n
  {
    if n < |ids| { FullPrefix(ids, n + 1); }
  }

  lemma SelectedPrefix(ids: seq<string>, pairs: seq<MatrixPair>, n: nat)
    requires n <= |pairs|
    ensures SelectedPairs(ids, pairs[..n]) <= SelectedPairs(ids, pairs)
    decreases |pairs| - n
  {
    if n == |pairs| {
      assert pairs[..n] == pairs;
    } else {
      SelectedPrefix(ids, pairs, n + 1);
      assert pairs[..n + 1][..n] == pairs[..n];
    }
  }

  lemma FullStep(ids: seq<string>, i: nat, all: seq<IndexPair>)
    requires i < |ids| && all == FullPairs(ids, |ids|)
    ensures FullPairs(ids, i + 1) == FullPairs(ids, i) + Row(ids, i) <= all
  {
    FullPrefix(ids, i + 1);
  }

  method YieldFull(ids: seq<string>, yield_: Yield) returns (visited: seq<IndexPair>, stopped: bool)
    ensures Visited(visited, FullPairs(ids, |ids|), yield_, stopped)
    ensures !stopped ==> visited == FullPairs(ids, |ids|)
  {
    ghost var all := FullPairs(ids, |ids|);
    visited, stopped := [], false;
    for i := 0 to |ids|
      invariant !stopped && visited == FullPairs(ids, i) && Visited(visited, all, yield_, false)
    {
      FullStep(ids, i, all);
      visited, stopped := YieldRow(visited, ids, i, all, yield_);
      if stopped {
        return;
      }
    }
  }

  /** What indices[id] reads as: the positions of an id, none when it is absent. */
  function At(indices: map<string, seq<nat>>, id: string): seq<nat> { if id in indices then indices[id] else [] }

  ghost predicate IndexedTo(indices: map<string, seq<nat>>, ids: seq<string>, n: nat)
    requires n <= |ids|
  {
    forall id {:trigger At(indices, id)} :: At(indices, id) == Positions(ids, id, n)
  }

  lemma IndexOne(indices: map<string, seq<nat>>, ids: seq<string>, i: nat)
    requires i < |ids| && IndexedTo(indices, ids, i)
    ensures IndexedTo(indices[ids[i] := At(indices, ids[i]) + [i]], ids, i + 1)
  {
    var more := indices[ids[i] := At(indices, ids[i]) + [i]];
    forall id ensures At(more, id) == Positions(ids, id, i + 1) {
      var before := At(indices, id);
      assert before == Positions(ids, id, i);
      if id == ids[i] {
        assert At(more, id) == before + [i];
      } else {
        assert At(more, id) == before;
        assert Positions(ids, id, i + 1) == before + [] == before;
      }
    }
  }

  method AddIndex(indices: map<string, seq<nat>>, ids: seq<string>, i: nat) returns (r: map<string, seq<nat>>)
    requires i < |ids| && IndexedTo(indices, ids, i)
    ensures IndexedTo(r, ids, i + 1)
  {
    IndexOne(indices, ids, i);
    r := indices[ids[i] := At(indices, ids[i]) + [i]];
  }

  method BuildIndices(ids: seq<string>) returns (indices: map<string, seq<nat>>)
    ensures IndexedTo(indices, ids, |ids|)
  {
    IndexNone(ids);
    indices := map[];
    for i := 0 to |ids|
      invariant IndexedTo(indices, ids, i)
    {
      indices := AddIndex(indices, ids, i);
    }
  }

  lemma IndexNone(ids: seq<string>)
    ensures IndexedTo(map[], ids, 0)
  {
  }

  /** The requests already taken up; self-pairs never are. */
  ghost predicate Seen(seen: set<MatrixPair>, pairs: seq<MatrixPair>) {
    forall p: MatrixPair :: p in seen <==> p in pairs && p.from != p.to
  }

  lemma SeenStep(seen: set<MatrixPair>, pairs: seq<MatrixPair>, k: nat)
    requires k < |pairs| && Seen(seen, pairs[..k])
    ensures var p := pairs[k];
            Seen(if p.from == p.to || p in seen then seen else seen + {p}, pairs[..k + 1])
  {
    assert pairs[..k + 1] == pairs[..k] + [pairs[k]];
  }

  /** The positions of one requested pair. */
  method YieldPair(visited0: seq<IndexPair>, ghost ids: seq<string>, indices: map<string, seq<nat>>, p: MatrixPair,
                   ghost all: seq<IndexPair>, yield_: Yield)
    returns (visited: seq<IndexPair>, stopped: bool)
    requires IndexedTo(indices, ids, |ids|)
    requires Visited(visited0, all, yield_, false) && visited0 + PairPositions(ids, p) <= all
    ensures Visited(visited, all, yield_, stopped)
    ensures !stopped ==> visited == visited0 + PairPositions(ids, p)
  {
    visited, stopped := YieldCross(visited0, At(indices, p.from), At(indices, p.to), all, yield_);
  }

  method YieldSelected(ids: seq<string>, pairs: seq<MatrixPair>, yield_: Yield)
    returns (visited: seq<IndexPair>, stopped: bool)
    ensures Visited(visited, SelectedPairs(ids, pairs), yield_, stopped)
    ensures !stopped ==> visited == SelectedPairs(ids, pairs)
  {
    ghost var all := SelectedPairs(ids, pairs);
    var indices := BuildIndices(ids);
    var seen: set<MatrixPair> := {};
    visited, stopped := [], false;
    for k := 0 to |pairs|
      invariant !stopped && visited == SelectedPairs(ids, pairs[..k]) && Visited(visited, all, yield_, false)
      invariant Seen(seen, pairs[..k])
    {
      SelectedStep(ids, pairs, k);
      SeenStep(seen, pairs, k);
      var p := pairs[k];
      if p.from != p.to && p !in seen {
        seen := seen + {p};
        visited, stopped := YieldPair(visited, ids, indices, p, all, yield_);
        if stopped {
          return;
        }
      }
    }
    assert pairs[..|pairs|] == pairs;
  }

  lemma SelectedStep(ids: seq<string>, pairs: seq<MatrixPair>, k: nat)
    requires k < |pairs|
    ensures var skip := pairs[k].from == pairs[k].to || pairs[k] in pairs[..k];
            SelectedPairs(ids, pairs[..k + 1]) ==
            if skip then SelectedPairs(ids, pairs[..k])
            else SelectedPairs(ids, pairs[..k]) + PairPositions(ids, pairs[k])
    ensures SelectedPairs(ids, pairs[..k + 1]) <= SelectedPairs(ids, pairs)
  {
    assert pairs[..k + 1][..k] == pairs[..k];
    SelectedPrefix(ids, pairs, k + 1);
  }

  /** EndpointPairs, driven to its end or to the callback's stop. */
  method EndpointPairs(ids: seq<string>, pairs: seq<MatrixPair>, yield_: Yield)
    returns (visited: seq<IndexPair>, stopped: bool)
    ensures Visited(visited, AllPairs(ids, pairs), yield_, stopped)
    ensures !stopped ==> visited == AllPairs(ids, pairs)
  {
    if pairs == [] {
      visited, stopped := YieldFull(ids, yield_);
    } else {
      visited, stopped := YieldSelected(ids, pairs, yield_);
    }
  }

  // ----- the last visit of a pair of ids -----

  predicate Names(ids: seq<string>, p: IndexPair, s: string, d: string) {
    p.0 < |ids| && p.1 < |ids| && ids[p.0] == s && ids[p.1] == d
  }

  /** The last index pair of a list whose ids are (s, d). */
  function LastPair(ids: seq<string>, ps: seq<IndexPair>, s: string, d: string): Option<IndexPair>
  {
    if ps == [] then None
    else if Names(ids, ps[|ps| - 1], s, d) then Some(ps[|ps| - 1])
    else LastPair(ids, ps[..|ps| - 1], s, d)
  }

  /** The last position of an id. */
  function LastIndex(ids: seq<string>, id: string, n: nat): (r: Option<nat>)
    requires n <= |ids|
    ensures r.Some? ==> r.value < n && ids[r.value] == id
  {
    if n == 0 then None else if ids[n - 1] == id then Some(n - 1) else LastIndex(ids, id, n - 1)
  }

  lemma {:induction false} LastPairAppend(ids: seq<string>, a: seq<IndexPair>, b: seq<IndexPair>, s: string, d: string)
    ensures LastPair(ids, a + b, s, d) ==
            if LastPair(ids, b, s, d).Some? then LastPair(ids, b, s, d) else LastPair(ids, a, s, d)
  {
    if b == [] {
      assert a + b == a;
    } else {
      assert (a + b)[..|a + b| - 1] == a + b[..|b| - 1];
      LastPairAppend(ids, a, b[..|b| - 1], s, d);
    }
  }

  lemma LastPairOne(ids: seq<string>, p: IndexPair, s: string, d: string)
    ensures LastPair(ids, [p], s, d) == if Names(ids, p, s, d) then Some(p) else None
  {
    assert [p][..0] == [];
  }

  lemma {:induction false} RowLast(ids: seq<string>, i: nat, j: nat, s: string, d: string)
    requires i < |ids| && j <= |ids|
    ensures LastPair(ids, RowPairs(ids, i, j), s, d) ==
            if ids[i] == s && s != d && LastIndex(ids, d, j).Some? then Some((i, LastIndex(ids, d, j).value)) else None
  {
    if j > 0 {
      RowLast(ids, i, j - 1, s, d);
      LastPairAppend(ids, RowPairs(ids, i, j - 1), [(i, j - 1)], s, d);
      LastPairOne(ids, (i, j - 1), s, d);
    }
  }

  lemma {:induction false} FullLast(ids: seq<string>, n: nat, s: string, d: string)
    requires n <= |ids|
    ensures LastPair(ids, FullPairs(ids, n), s, d) ==
            if s != d && LastIndex(ids, s, n).Some? && LastIndex(ids, d, |ids|).Some?
            then Some((LastIndex(ids, s, n).value, LastIndex(ids, d, |ids|).value)) else None
  {
    if n > 0 {
      FullLast(ids, n - 1, s, d);
      RowLast(ids, n - 1, |ids|, s, d);
      LastPairAppend(ids, FullPairs(ids, n - 1), Row(ids, n - 1), s, d);
    }
  }

  lemma {:induction false} PositionsLast(ids: seq<string>, id: string, n: nat)
    requires n <= |ids|
    ensures var r := Positions(ids, id, n);
            if r == [] then LastIndex(ids, id, n).None? else LastIndex(ids, id, n) == Some(r[|r| - 1])
  {
    if n > 0 { PositionsLast(ids, id, n - 1); }
  }

  lemma {:induction false} CrossRowLast(ids: seq<string>, i: nat, js: seq<nat>, id: string, s: string, d: string)
    requires i < |ids| && AllAt(ids, id, js)
    ensures LastPair(ids, CrossRow(i, js), s, d) ==
            if ids[i] == s && id == d && js != [] then Some((i, js[|js| - 1])) else None
  {
    if js != [] {
      var n := |js| - 1;
      CrossRowLast(ids, i, js[..n], id, s, d);
      assert CrossRow(i, js)[..n] == CrossRow(i, js[..n]);
    }
  }

  lemma {:induction false} CrossLast(ids: seq<string>, is_: seq<nat>, js: seq<nat>, from: string, to: string,
      s: string, d: string)
    requires AllAt(ids, from, is_) && AllAt(ids, to, js)
    ensures LastPair(ids, Cross(is_, js), s, d) ==
            if from == s && to == d && is_ != [] && js != [] then Some((is_[|is_| - 1], js[|js| - 1])) else None
  {
    if is_ != [] {
      var n := |is_| - 1;
      CrossLast(ids, is_[..n], js, from, to, s, d);
      CrossRowLast(ids, is_[n], js, to, s, d);
      LastPairAppend(ids, Cross(is_[..n], js), CrossRow(is_[n], js), s, d);
    }
  }

  /** What the positions of one requested pair visit last. */
  lemma PairLast(ids: seq<string>, p: MatrixPair, s: string, d: string)
    ensures LastPair(ids, PairPositions(ids, p), s, d) == if p == MatrixPair(s, d) then LastOf(ids, s, d) else None
  {
    PositionsAllAt(ids, p.from, |ids|);
    PositionsAllAt(ids, p.to, |ids|);
    CrossLast(ids, Positions(ids, p.from, |ids|), Positions(ids, p.to, |ids|), p.from, p.to, s, d);
    PositionsLast(ids, p.from, |ids|);
    PositionsLast(ids, p.to, |ids|);
  }

  /** The last positions of two ids. */
  function LastOf(ids: seq<string>, s: string, d: string): Option<IndexPair> {
    if LastIndex(ids, s, |ids|).Some? && LastIndex(ids, d, |ids|).Some?
    then Some((LastIndex(ids, s, |ids|).value, LastIndex(ids, d, |ids|).value)) else None
  }

  lemma {:induction false} SelectedLast(ids: seq<string>, pairs: seq<MatrixPair>, s: string, d: string)
    ensures LastPair(ids, SelectedPairs(ids, pairs), s, d) ==
            if s != d && MatrixPair(s, d) in pairs then LastOf(ids, s, d) else None
  {
    if pairs != [] {
      var n := |pairs| - 1;
      SelectedLast(ids, pairs[..n], s, d);
      InSnoc(pairs, n, MatrixPair(s, d));
      if pairs[n].from != pairs[n].to && pairs[n] !in pairs[..n] {
        PairLast(ids, pairs[n], s, d);
        LastPairAppend(ids, SelectedPairs(ids, pairs[..n]), PairPositions(ids, pairs[n]), s, d);
      }
    }
  }

  /** A partial evaluation visits, last of all for each pair of ids, exactly what the full one visits last,
      if the pair was requested; and nothing for unknown ids, self-pairs and pairs not requested. */
  lemma PartialVisitsAreRestriction(ids: seq<string>, pairs: seq<MatrixPair>, s: string, d: string)
    requires pairs != []
    ensures LastPair(ids, AllPairs(ids, pairs), s, d) ==
            if MatrixPair(s, d) in pairs then LastPair(ids, AllPairs(ids, []), s, d) else None
  {
    FullLast(ids, |ids|, s, d);
    SelectedLast(ids, pairs, s, d);
  }

  // ----- every visited pair is a pair of positions -----

  ghost predicate InRange(n: nat, ps: seq<IndexPair>) {
    forall k :: 0 <= k < |ps| ==> ps[k].0 < n && ps[k].1 < n
  }

  lemma {:induction false} RowInRange(ids: seq<string>, i: nat, j: nat)
    requires i < |ids| && j <= |ids|
    ensures InRange(|ids|, RowPairs(ids, i, j))
  {
    if j > 0 { RowInRange(ids, i, j - 1); }
  }

  lemma {:induction false} FullInRange(ids: seq<string>, n: nat)
    requires n <= |ids|
    ensures InRange(|ids|, FullPairs(ids, n))
  {
    if n > 0 {
      FullInRange(ids, n - 1);
      RowInRange(ids, n - 1, |ids|);
    }
  }

  lemma {:induction false} CrossInRange(n: nat, is_: seq<nat>, js: seq<nat>)
    requires (forall k :: 0 <= k < |is_| ==> is_[k] < n) && (forall k :: 0 <= k < |js| ==> js[k] < n)
    ensures InRange(n, Cross(is_, js))
  {
    if is_ != [] { CrossInRange(n, is_[..|is_| - 1], js); }
  }

  lemma {:induction false} AllPairsInRange(ids: seq<string>, pairs: seq<MatrixPair>)
    ensures InRange(|ids|, AllPairs(ids, pairs))
    ensures InRange(|ids|, SelectedPairs(ids, pairs))
    decreases pairs
  {
    if pairs == [] {
      FullInRange(ids, |ids|);
    } else {
      var n := |pairs| - 1;
      AllPairsInRange(ids, pairs[..n]);
      PositionsAllAt(ids, pairs[n].from, |ids|);
      PositionsAllAt(ids, pairs[n].to, |ids|);
      CrossInRange(|ids|, Positions(ids, pairs[n].from, |ids|), Positions(ids, pairs[n].to, |ids|));
    }
  }

  lemma {:induction false} LastPairInRange(ids: seq<string>, ps: seq<IndexPair>, s: string, d: string)
    ensures var p := LastPair(ids, ps, s, d); p.Some? ==> Names(ids, p.value, s, d)
  {
    if ps != [] { LastPairInRange(ids, ps[..|ps| - 1], s, d); }
  }

  // ----- the visits, as sets and orders -----

  predicate Before(a: IndexPair, b: IndexPair) { a.0 < b.0 || (a.0 == b.0 && a.1 < b.1) }

  ghost predicate Ascending(ps: seq<IndexPair>) { forall a, b :: 0 <= a < b < |ps| ==> Before(ps[a], ps[b]) }

  lemma {:induction false} RowPairsMeaning(ids: seq<string>, i: nat, j: nat)
    requires i < |ids| && j <= |ids|
    ensures Ascending(RowPairs(ids, i, j))
    ensures forall p :: p in RowPairs(ids, i, j) <==> p.0 == i && p.1 < j && ids[p.1] != ids[i]
  {
    if j > 0 { RowPairsMeaning(ids, i, j - 1); }
  }

  /** Without a selection: every pair of positions with different ids, once, row by row and column by column. */
  lemma {:induction false} FullPairsMeaning(ids: seq<string>, n: nat)
    requires n <= |ids|
    ensures Ascending(FullPairs(ids, n))
    ensures forall p :: p in FullPairs(ids, n) <==> p.0 < n && p.1 < |ids| && ids[p.0] != ids[p.1]
  {
    if n > 0 {
      FullPairsMeaning(ids, n - 1);
      RowPairsMeaning(ids, n - 1, |ids|);
      var before, row := FullPairs(ids, n - 1), Row(ids, n - 1);
      forall p ensures p in before + row <==> p in before || p in row {
      }
      forall a, b | 0 <= a < b < |before + row| ensures Before((before + row)[a], (before + row)[b]) {
        assert a < |before| ==> before[a] in before;
        assert b >= |before| ==> row[b - |before|] in row;
      }
    }
  }

  lemma {:induction false} PositionsMeaning(ids: seq<string>, id: string, n: nat)
    requires n <= |ids|
    ensures forall k: nat :: k in Positions(ids, id, n) <==> k < n && ids[k] == id
  {
    if n > 0 { PositionsMeaning(ids, id, n - 1); }
  }

  lemma {:induction false} CrossMeaning(is_: seq<nat>, js: seq<nat>)
    ensures forall p :: p in Cross(is_, js) <==> p.0 in is_ && p.1 in js
  {
    if is_ != [] {
      var n := |is_| - 1;
      CrossMeaning(is_[..n], js);
      forall p ensures p in CrossRow(is_[n], js) <==> p.0 == is_[n] && p.1 in js {
        if p.0 == is_[n] && p.1 in js {
          var k :| 0 <= k < |js| && js[k] == p.1;
          assert CrossRow(is_[n], js)[k] == p;
        }
      }
      assert forall i :: i in is_ <==> i in is_[..n] || i == is_[n];
    }
  }

  /** With a selection: the positions of the requested pairs of different ids. */
  lemma {:induction false} SelectedPairsMeaning(ids: seq<string>, pairs: seq<MatrixPair>)
    ensures forall p :: p in SelectedPairs(ids, pairs) <==>
              p.0 < |ids| && p.1 < |ids| && ids[p.0] != ids[p.1] && MatrixPair(ids[p.0], ids[p.1]) in pairs
  {
    if pairs != [] {
      var n := |pairs| - 1;
      var q := pairs[n];
      SelectedPairsMeaning(ids, pairs[..n]);
      PositionsMeaning(ids, q.from, |ids|);
      PositionsMeaning(ids, q.to, |ids|);
      CrossMeaning(Positions(ids, q.from, |ids|), Positions(ids, q.to, |ids|));
      assert forall x :: x in pairs <==> x in pairs[..n] || x == q;
    }
  }
}
