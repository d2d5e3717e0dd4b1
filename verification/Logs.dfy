/** Logs of matrix puts, and what they leave behind: a resident map, a stream of lines, and the verdict
    last put for a pair of ids. */
module Logs {
  import opened Text

  datatype Entry = Entry(src: string, dst: string, verdict: string)

  function VerdictText(allow: bool): string { if allow then "allow" else "deny" }

  // ----- what a log of puts leaves behind -----

  /** Which columns stay resident: all of them unless streaming with a keep set. */
  datatype Mode = Mode(streaming: bool, keep: Option<set<string>>)

  predicate Retained(mode: Mode, dst: string) { !mode.streaming || mode.keep.None? || dst in mode.keep.value }

  function Resident(log: seq<Entry>, mode: Mode): map<string, string> {
    if log == [] then map[] else
      var p, m := log[|log| - 1], Resident(log[..|log| - 1], mode);
      if Retained(mode, p.dst) then m[FlowKey(p.src, p.dst) := p.verdict] else m
  }

  function Line(p: Entry): string { FlowKey(p.src, p.dst) + "\t" + p.verdict + "\n" }

  function Lines(log: seq<Entry>): string {
    if log == [] then "" else Lines(log[..|log| - 1]) + Line(log[|log| - 1])
  }

  /** The verdict last put for a pair of ids. */
  function Last(log: seq<Entry>, src: string, dst: string): Option<string> {
    if log == [] then None
    else
      var p := log[|log| - 1];
      if p.src == src && p.dst == dst then Some(p.verdict) else Last(log[..|log| - 1], src, dst)
  }

  function Lookup(m: map<string, string>, src: string, dst: string): string {
    if FlowKey(src, dst) in m then m[FlowKey(src, dst)] else ""
  }

  lemma {:induction false} LastAppend(a: seq<Entry>, b: seq<Entry>, s: string, d: string)
    ensures Last(a + b, s, d) == if Last(b, s, d).Some? then Last(b, s, d) else Last(a, s, d)
  {
    if b == [] {
      assert a + b == a;
    } else {
      assert (a + b)[..|a + b| - 1] == a + b[..|b| - 1];
      LastAppend(a, b[..|b| - 1], s, d);
    }
  }

  lemma LastOne(e: Entry, s: string, d: string)
    ensures Last([e], s, d) == if e.src == s && e.dst == d then Some(e.verdict) else None
  {
    assert [e][..0] == [];
  }

  // ----- which pairs share a key -----

  /** The second source goes on where the first one's arrow is, and the rest of the first destination is its own
      arrow and destination. */
  ghost predicate Splits(s1: string, d1: string, s2: string, d2: string) {
    exists x :: s2 == s1 + "->" + x && d1 == x + "->" + d2
  }

  lemma LongerSourceSplits(s1: string, d1: string, s2: string, d2: string)
    requires FlowKey(s1, d1) == FlowKey(s2, d2) && |s1| < |s2|
    ensures Splits(s1, d1, s2, d2)
  {
    var k := FlowKey(s1, d1);
    assert k[|s1|] == '-' && k[|s1| + 1] == '>' && k[|s2|] == '-' && k[|s2| + 1] == '>';
    assert |s2| != |s1| + 1;
    var x := k[|s1| + 2..|s2|];
    assert s2 == k[..|s2|] == s1 + "->" + x;
    assert d1 == k[|s1| + 2..] == x + "->" + d2;
  }

  /** Two pairs share a key exactly when they are one pair, or the arrow of one is inside a name of the other. */
  lemma KeysCollideIff(s1: string, d1: string, s2: string, d2: string)
    ensures FlowKey(s1, d1) == FlowKey(s2, d2) <==>
            (s1 == s2 && d1 == d2) || Splits(s1, d1, s2, d2) || Splits(s2, d2, s1, d1)
  {
    if FlowKey(s1, d1) == FlowKey(s2, d2) {
      if |s1| < |s2| {
        LongerSourceSplits(s1, d1, s2, d2);
      } else if |s2| < |s1| {
        LongerSourceSplits(s2, d2, s1, d1);
      } else {
        assert s1 == FlowKey(s1, d1)[..|s1|] && s2 == FlowKey(s2, d2)[..|s2|];
        assert d1 == FlowKey(s1, d1)[|s1| + 2..] && d2 == FlowKey(s2, d2)[|s2| + 2..];
      }
    }
    if Splits(s1, d1, s2, d2) { SplitsShare(s1, d1, s2, d2); }
    if Splits(s2, d2, s1, d1) { SplitsShare(s2, d2, s1, d1); }
  }

  lemma SplitsShare(s1: string, d1: string, s2: string, d2: string)
    requires Splits(s1, d1, s2, d2)
    ensures FlowKey(s1, d1) == FlowKey(s2, d2)
  {
    var x :| s2 == s1 + "->" + x && d1 == x + "->" + d2;
    assert FlowKey(s1, d1) == s1 + ("->" + (x + ("->" + d2))) == FlowKey(s2, d2);
  }

  // ----- what a lookup answers -----

  /** The put a cell of the resident map holds: the last retained one under its key. */
  function Owner(log: seq<Entry>, mode: Mode, key: string): Option<Entry> {
    if log == [] then None
    else
      var e := log[|log| - 1];
      if Retained(mode, e.dst) && FlowKey(e.src, e.dst) == key then Some(e) else Owner(log[..|log| - 1], mode, key)
  }

  function ResidentAt(log: seq<Entry>, mode: Mode, s: string, d: string): Option<string> {
    var m := Resident(log, mode);
    if FlowKey(s, d) in m then Some(m[FlowKey(s, d)]) else None
  }

  /** A lookup answers with the last retained put under the key, whichever pair that was for. */
  lemma {:induction false} ResidentIsOwner(log: seq<Entry>, mode: Mode, s: string, d: string)
    ensures ResidentAt(log, mode, s, d) ==
            var o := Owner(log, mode, FlowKey(s, d)); if o.Some? then Some(o.value.verdict) else None
  {
    if log != [] { ResidentIsOwner(log[..|log| - 1], mode, s, d); }
  }

  /** Any collision is felt: with one put of each of two pairs, the first one is misread exactly when their keys
      collide. */
  lemma CollisionMisreads(mode: Mode, s1: string, d1: string, s2: string, d2: string, v1: string, v2: string)
    requires Retained(mode, d1) && Retained(mode, d2) && (s1 != s2 || d1 != d2) && v1 != v2
    ensures var log := [Entry(s1, d1, v1), Entry(s2, d2, v2)];
            && Last(log, s1, d1) == Some(v1)
            && (ResidentAt(log, mode, s1, d1) == Some(v1) <==> !(Splits(s1, d1, s2, d2) || Splits(s2, d2, s1, d1)))
  {
    var log := [Entry(s1, d1, v1), Entry(s2, d2, v2)];
    KeysCollideIff(s1, d1, s2, d2);
    assert log[..1] == [Entry(s1, d1, v1)] && log[..1][..0] == [];
    LastOne(Entry(s1, d1, v1), s1, d1);
    ResidentIsOwner(log, mode, s1, d1);
    assert Owner(log[..1], mode, FlowKey(s1, d1)) == Some(Entry(s1, d1, v1));
  }

  /** No other pair of the log shares the key. */
  ghost predicate Unshared(log: seq<Entry>, s: string, d: string) {
    forall e :: e in log && FlowKey(e.src, e.dst) == FlowKey(s, d) ==> e.src == s && e.dst == d
  }

  /** For a pair that shares its key with no other a resident lookup is its last verdict, in retained columns. */
  lemma {:induction false} LookupIsLast(log: seq<Entry>, mode: Mode, s: string, d: string)
    requires Unshared(log, s, d)
    ensures ResidentAt(log, mode, s, d) == if Retained(mode, d) then Last(log, s, d) else None
  {
    if log != [] {
      var n := |log| - 1;
      assert log[n] in log;
      LookupIsLast(log[..n], mode, s, d);
    }
  }

  /** A streaming run with a keep set holds no other column; any other run holds every put's key. */
  lemma {:induction false} ResidentColumns(log: seq<Entry>, mode: Mode)
    ensures forall key :: key in Resident(log, mode) <==>
              exists e :: e in log && e.src + "->" + e.dst == key
                && (mode.streaming && mode.keep.Some? ==> e.dst in mode.keep.value)
  {
    if log != [] {
      var n := |log| - 1;
      ResidentColumns(log[..n], mode);
      forall e ensures e in log <==> e in log[..n] || e == log[n] { assert log == log[..n] + [log[n]]; }
    }
  }

  // ----- for which pairs the matrix can be read back -----

  type Pair = (string, string)

  predicate PutsOf(log: seq<Entry>, pairs: set<Pair>) { forall e :: e in log ==> (e.src, e.dst) in pairs }

  /** Whatever is put for these pairs, each of them reads as its last put. */
  ghost predicate ReadsBack(pairs: set<Pair>, mode: Mode) {
    forall log, s, d :: PutsOf(log, pairs) && (s, d) in pairs ==> ResidentAt(log, mode, s, d) == Last(log, s, d)
  }

  /** The arrow of no pair is inside a name of another. */
  ghost predicate SplitFree(pairs: set<Pair>) {
    forall p, q :: p in pairs && q in pairs ==> !Splits(p.0, p.1, q.0, q.1)
  }

  lemma SplitFreeReadsBack(pairs: set<Pair>, mode: Mode, log: seq<Entry>, s: string, d: string)
    requires SplitFree(pairs) && PutsOf(log, pairs) && (s, d) in pairs && Retained(mode, d)
    ensures ResidentAt(log, mode, s, d) == Last(log, s, d)
  {
    forall e | e in log && FlowKey(e.src, e.dst) == FlowKey(s, d) ensures e.src == s && e.dst == d {
      var p, q := (s, d), (e.src, e.dst);
      assert !Splits(p.0, p.1, q.0, q.1) && !Splits(q.0, q.1, p.0, p.1);
      KeysCollideIff(e.src, e.dst, s, d);
    }
    LookupIsLast(log, mode, s, d);
  }

  /** A matrix of retained columns can be read back for a set of pairs, whatever is put for them and in whatever
      order, exactly when their names are free of one another's arrows. */
  lemma ReadsBackIff(pairs: set<Pair>, mode: Mode)
    requires forall p :: p in pairs ==> Retained(mode, p.1)
    ensures ReadsBack(pairs, mode) <==> SplitFree(pairs)
  {
    if SplitFree(pairs) {
      forall log, s, d | PutsOf(log, pairs) && (s, d) in pairs ensures ResidentAt(log, mode, s, d) == Last(log, s, d) {
        assert Retained(mode, (s, d).1);
        SplitFreeReadsBack(pairs, mode, log, s, d);
      }
    } else {
      var p, q :| p in pairs && q in pairs && Splits(p.0, p.1, q.0, q.1);
      CollisionMisreads(mode, p.0, p.1, q.0, q.1, "allow", "deny");
      assert PutsOf([Entry(p.0, p.1, "allow"), Entry(q.0, q.1, "deny")], pairs);
      assert (p.0, p.1) in pairs;
    }
  }

  predicate PlainSources(log: seq<Entry>) { forall e :: e in log ==> !HasArrow(e.src) }

  /** Sources without arrows share no keys, whatever the destinations look like. */
  lemma PlainLookupIsLast(log: seq<Entry>, mode: Mode, s: string, d: string)
    requires PlainSources(log) && !HasArrow(s)
    ensures ResidentAt(log, mode, s, d) == if Retained(mode, d) then Last(log, s, d) else None
  {
    forall e | e in log && FlowKey(e.src, e.dst) == FlowKey(s, d) ensures e.src == s && e.dst == d {
      FlowKeyInjective(e.src, e.dst, s, d);
    }
    LookupIsLast(log, mode, s, d);
  }

  predicate PlainLog(log: seq<Entry>) { forall e :: e in log ==> !HasArrow(e.src) && !HasArrow(e.dst) }

  /** When one key splits after a name that holds an arrow and after one that does not, the arrow is left
      in the second destination. */
  lemma ArrowMovesToDestination(s: string, d: string, src: string, dst: string)
    requires HasArrow(s) && !HasArrow(src) && FlowKey(s, d) == FlowKey(src, dst)
    ensures HasArrow(dst)
  {
    var k := FlowKey(s, d);
    FindArrowInKey(src, dst);
    var i := FindArrow(s);
    assert ArrowAt(k, i);
    assert |src| <= i;
    assert ArrowAt(k, |s|) && k[|src| + 2..] == dst;
    assert ArrowAt(dst, |s| - |src| - 2);
  }

  lemma {:induction false} ArrowedKeyAbsent(log: seq<Entry>, mode: Mode, s: string, d: string)
    requires PlainLog(log) && HasArrow(s)
    ensures FlowKey(s, d) !in Resident(log, mode)
  {
    if log != [] {
      var n := |log| - 1;
      assert log[n] in log;
      ArrowedKeyAbsent(log[..n], mode, s, d);
      if FlowKey(s, d) == FlowKey(log[n].src, log[n].dst) {
        ArrowMovesToDestination(s, d, log[n].src, log[n].dst);
        assert false;
      }
    }
  }
}
