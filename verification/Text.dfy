/** What the Go code takes from its standard library, on strings: searching, splitting and joining,
    trimming and lower-casing (ASCII only), decimal numbers, byte order, and the stable sort by a
    (rank, text) key that stands for sort.Strings, sort.Slice and sort.SliceStable; the "src->dst" keys of
    a matrix; ranging over a map, whose order Go does not promise; and the Option type used for values
    that may be absent. */
module Text {
  datatype Option<+T> = None | Some(value: T)

  // ----- searching, splitting and joining -----

  /** strings.IndexByte, with |s| standing for "absent". */
  function IndexOf(s: string, c: char): (i: nat)
    ensures i <= |s|
    ensures c !in s[..i]
    ensures i < |s| ==> s[i] == c
  {
    if s == [] || s[0] == c then 0 else
      var j := IndexOf(s[1..], c);
      assert s[..1 + j] == [s[0]] + s[1..][..j];
      1 + j
  }

  lemma IndexOfAt(a: string, c: char, b: string)
    requires c !in a
    ensures IndexOf(a + [c] + b, c) == |a|
  {
    var s := a + [c] + b;
    assert s[|a|] == c;
    assert forall j :: 0 <= j < |a| ==> s[j] == a[j] && a[j] in a;
    assert forall i :: |a| < i <= |s| ==> s[..i][|a|] == c;
  }

  lemma IndexOfAbsent(s: string, c: char)
    requires c !in s
    ensures IndexOf(s, c) == |s|
  {
  }

  /** strings.Split on a one-character separator. */
  function Split(s: string, c: char): (parts: seq<string>)
    ensures |parts| > 0
    ensures forall p :: p in parts ==> c !in p
    ensures c in s ==> |parts| > 1
    decreases |s|
  {
    var i := IndexOf(s, c);
    if i == |s| then [s] else [s[..i]] + Split(s[i + 1..], c)
  }

  /** strings.Join with a one-character separator. */
  function Join(parts: seq<string>, c: char): string {
    if parts == [] then "" else if |parts| == 1 then parts[0] else parts[0] + [c] + Join(parts[1..], c)
  }

  lemma {:induction false} SplitJoin(parts: seq<string>, c: char)
    requires parts != []
    requires forall p :: p in parts ==> c !in p
    ensures Split(Join(parts, c), c) == parts
  {
    if |parts| == 1 {
      IndexOfAbsent(parts[0], c);
    } else {
      var s := Join(parts, c);
      IndexOfAt(parts[0], c, Join(parts[1..], c));
      assert s[..|parts[0]|] == parts[0];
      assert s[|parts[0]| + 1..] == Join(parts[1..], c);
      SplitJoin(parts[1..], c);
    }
  }

  // ----- text normalisation (ASCII) -----

  predicate IsSpace(c: char) { c == ' ' || ('\t' <= c <= '\r') }

  function TrimLeft(s: string): string { if s != "" && IsSpace(s[0]) then TrimLeft(s[1..]) else s }

  function TrimRight(s: string): string { if s != "" && IsSpace(s[|s| - 1]) then TrimRight(s[..|s| - 1]) else s }

  function TrimSpace(s: string): string { TrimRight(TrimLeft(s)) }

  function LowerChar(c: char): char { if 'A' <= c <= 'Z' then c - 'A' + 'a' else c }

  function ToLower(s: string): (r: string)
    ensures |r| == |s|
  {
    seq(|s|, k requires 0 <= k < |s| => LowerChar(s[k]))
  }

  /** What counts as space: blank, tab, newline, vertical tab, form feed, carriage return. */
  predicate Blank(s: string) { forall c :: c in s ==> c in [' ', '\t', '\n', '\U{0b}', '\U{0c}', '\r'] }

  /** Trimming takes space off both ends, and all of it. */
  lemma TrimMeaning(s: string) returns (before: string, after: string)
    ensures s == before + TrimSpace(s) + after && Blank(before) && Blank(after)
    ensures TrimSpace(s) != "" ==> !Blank(TrimSpace(s)[..1]) && !Blank(TrimSpace(s)[|TrimSpace(s)| - 1..])
  {
    before := TrimLeftMeaning(s);
    after := TrimRightMeaning(TrimLeft(s));
    ThreeParts(s, before, TrimLeft(s), TrimSpace(s), after);
    if TrimSpace(s) != "" {
      EndsNotBlank(TrimSpace(s));
    }
  }

  lemma ThreeParts(s: string, before: string, rest: string, t: string, after: string)
    requires s == before + rest && rest == t + after
    ensures s == before + t + after && (t != "" ==> t[0] == rest[0])
  {
  }

  lemma EndsNotBlank(t: string)
    requires t != "" && !IsSpace(t[0]) && !IsSpace(t[|t| - 1])
    ensures !Blank(t[..1]) && !Blank(t[|t| - 1..])
  {
    assert t[0] in t[..1] && t[|t| - 1] in t[|t| - 1..];
  }

  lemma {:induction false} TrimLeftMeaning(s: string) returns (before: string)
    ensures s == before + TrimLeft(s) && Blank(before)
    ensures TrimLeft(s) != "" ==> !IsSpace(TrimLeft(s)[0])
  {
    before := "";
    if s != "" && IsSpace(s[0]) {
      before := TrimLeftMeaning(s[1..]);
      before := [s[0]] + before;
    }
  }

  lemma {:induction false} TrimRightMeaning(s: string) returns (after: string)
    ensures s == TrimRight(s) + after && Blank(after)
    ensures TrimRight(s) != "" ==> !IsSpace(TrimRight(s)[|TrimRight(s)| - 1]) && TrimRight(s)[0] == s[0]
  {
    after := "";
    if s != "" && IsSpace(s[|s| - 1]) {
      after := TrimRightMeaning(s[..|s| - 1]);
      after := after + [s[|s| - 1]];
    }
  }

  /** Capital letters become the small ones 32 places on; all else stays. */
  lemma ToLowerMeaning(s: string, k: nat)
    requires k < |s|
    ensures ToLower(s)[k] as int == if 65 <= s[k] as int <= 90 then s[k] as int + 32 else s[k] as int
  {
  }

  // ----- decimal numbers -----

  const MAX_INT: int := 0x7fff_ffff_ffff_ffff

  predicate IsDigit(c: char) { '0' <= c <= '9' }

  function Digit(d: nat): (c: char)
    requires d < 10
    ensures IsDigit(c) && c as int - '0' as int == d
  {
    ('0' as int + d) as char
  }

  function Itoa(n: nat): (s: string)
    ensures s != [] && forall c :: c in s ==> IsDigit(c)
  {
    if n < 10 then [Digit(n)] else Itoa(n / 10) + [Digit(n % 10)]
  }

  function DigitsValue(s: string): nat
    requires forall c :: c in s ==> IsDigit(c)
  {
    if s == [] then 0
    else
      assert IsDigit(s[|s| - 1]);
      var last: nat := s[|s| - 1] as int - '0' as int;
      DigitsValue(s[..|s| - 1]) * 10 + last
  }

  /** strconv.Atoi: an optional sign, at least one digit, and the value must fit a signed 64-bit int. */
  function Atoi(s: string): (r: Option<int>)
    ensures r.Some? && '-' !in s ==> r.value >= 0
  {
    var digits := if s != [] && (s[0] == '+' || s[0] == '-') then s[1..] else s;
    if digits == [] || exists c :: c in digits && !IsDigit(c) then None
    else
      var v: int := DigitsValue(digits);
      if s[0] == '-' then (if v <= MAX_INT + 1 then Some(-v) else None)
      else if v <= MAX_INT then Some(v) else None
  }

  lemma {:induction false} DigitsValueItoa(n: nat)
    ensures DigitsValue(Itoa(n)) == n
  {
    if n < 10 {
      assert Itoa(n)[..0] == [];
    } else {
      DigitsValueItoa(n / 10);
      assert Itoa(n)[..|Itoa(n)| - 1] == Itoa(n / 10);
    }
  }

  lemma AtoiItoa(n: nat)
    requires n <= MAX_INT
    ensures Atoi(Itoa(n)) == Some(n)
  {
    DigitsValueItoa(n);
    var s := Itoa(n);
    assert IsDigit(s[0]);
  }

  // ----- "src->dst" keys -----

  predicate ArrowAt(s: string, i: int) { 0 <= i < |s| - 1 && s[i] == '-' && s[i + 1] == '>' }

  predicate HasArrow(s: string) { exists i :: 0 <= i < |s| && ArrowAt(s, i) }

  function FlowKey(src: string, dst: string): string { src + "->" + dst }

  /** strings.Index(s, "->"), with |s| standing for "absent". */
  function FindArrow(s: string): (i: nat)
    ensures i <= |s|
    ensures i < |s| ==> ArrowAt(s, i)
    ensures forall j :: j < i ==> !ArrowAt(s, j)
    ensures i == |s| <==> !HasArrow(s)
  {
    if |s| < 2 then |s|
    else if ArrowAt(s, 0) then 0
    else
      var k := FindArrow(s[1..]);
      assert forall j :: ArrowAt(s, j) ==> j > 0 && ArrowAt(s[1..], j - 1);
      assert forall j :: ArrowAt(s[1..], j) ==> ArrowAt(s, j + 1);
      1 + k
  }

  lemma FindArrowInKey(src: string, dst: string)
    requires !HasArrow(src)
    ensures FindArrow(FlowKey(src, dst)) == |src|
  {
    var k := FlowKey(src, dst);
    assert ArrowAt(k, |src|);
    forall j | 0 <= j < |src| ensures !ArrowAt(k, j) {
      assert !ArrowAt(src, j) && k[j] == src[j];
      assert j + 1 < |src| ==> k[j + 1] == src[j + 1];
    }
  }

  /** Keys of arrow-free sources never collide, whatever the destinations look like. */
  lemma FlowKeyInjective(s1: string, d1: string, s2: string, d2: string)
    requires !HasArrow(s1) && !HasArrow(s2)
    requires FlowKey(s1, d1) == FlowKey(s2, d2)
    ensures s1 == s2 && d1 == d2
  {
    FindArrowInKey(s1, d1);
    FindArrowInKey(s2, d2);
    assert s1 == FlowKey(s1, d1)[..|s1|];
    assert s2 == FlowKey(s2, d2)[..|s2|];
    assert d1 == FlowKey(s1, d1)[|s1| + 2..];
    assert d2 == FlowKey(s2, d2)[|s2| + 2..];
  }

  // ----- byte order and sorting -----

  predicate Less(a: string, b: string) {
    b != [] && (a == [] || a[0] < b[0] || (a[0] == b[0] && Less(a[1..], b[1..])))
  }

  /** Byte order: a proper prefix first, else by the first difference. */
  lemma {:induction false} LessMeaning(a: string, b: string)
    ensures Less(a, b) <==> a < b || exists n :: 0 <= n < |a| && n < |b| && a[..n] == b[..n] && a[n] < b[n]
  {
    if a != [] && b != [] && a[0] == b[0] {
      LessMeaning(a[1..], b[1..]);
      assert a == [a[0]] + a[1..] && b == [b[0]] + b[1..];
      if Less(a[1..], b[1..]) && !(a[1..] < b[1..]) {
        var n :| 0 <= n < |a[1..]| && n < |b[1..]| && a[1..][..n] == b[1..][..n] && a[1..][n] < b[1..][n];
        assert a[..n + 1] == [a[0]] + a[1..][..n] && b[..n + 1] == [b[0]] + b[1..][..n];
        assert a[n + 1] < b[n + 1];
      }
      if n :| 0 <= n < |a| && n < |b| && a[..n] == b[..n] && a[n] < b[n] {
        assert n > 0 && a[1..][..n - 1] == a[..n][1..] && b[1..][..n - 1] == b[..n][1..];
        assert a[1..][n - 1] < b[1..][n - 1];
      }
    } else if a != [] && b != [] {
      assert a[..0] == b[..0];
      forall n | 0 < n < |a| && n < |b| ensures a[..n] != b[..n] {
        assert a[..n][0] != b[..n][0];
      }
    }
  }

  lemma LessTrichotomy(a: string, b: string)
    ensures a == b || Less(a, b) || Less(b, a)
    ensures !(Less(a, b) && Less(b, a))
    ensures Less(a, b) ==> a != b
  {
    if a != [] && b != [] && a[0] == b[0] {
      LessTrichotomy(a[1..], b[1..]);
      assert a == [a[0]] + a[1..] && b == [b[0]] + b[1..];
    }
  }

  lemma LessTransitive(a: string, b: string, c: string)
    requires Less(a, b) && Less(b, c)
    ensures Less(a, c)
  {
    if a != [] && a[0] == b[0] == c[0] {
      LessTransitive(a[1..], b[1..], c[1..]);
    }
  }

  /** A sort key: a number first, then a string. */
  type Key = (int, string)

  predicate KeyLess(a: Key, b: Key) { a.0 < b.0 || (a.0 == b.0 && Less(a.1, b.1)) }

  lemma KeyLessOrder(a: Key, b: Key, c: Key)
    ensures a == b || KeyLess(a, b) || KeyLess(b, a)
    ensures !(KeyLess(a, b) && KeyLess(b, a)) && !KeyLess(a, a)
    ensures KeyLess(a, b) && KeyLess(b, c) ==> KeyLess(a, c)
    ensures KeyLess(a, b) && !KeyLess(c, b) ==> KeyLess(a, c)
    ensures !KeyLess(b, a) && !KeyLess(c, b) ==> !KeyLess(c, a)
  {
    LessTrichotomy(a.1, b.1);
    LessTrichotomy(b.1, c.1);
    LessTrichotomy(a.1, c.1);
    LessTrichotomy(a.1, a.1);
    if Less(a.1, b.1) && Less(b.1, c.1) { LessTransitive(a.1, b.1, c.1); }
    if Less(c.1, a.1) && Less(a.1, b.1) { LessTransitive(c.1, a.1, b.1); }
    if Less(b.1, c.1) && Less(c.1, a.1) { LessTransitive(b.1, c.1, a.1); }
    if Less(c.1, b.1) && Less(b.1, a.1) { LessTransitive(c.1, b.1, a.1); }
  }

  ghost predicate SortedBy<T>(key: T -> Key, s: seq<T>) {
    forall i, j :: 0 <= i < j < |s| ==> !KeyLess(key(s[j]), key(s[i]))
  }

  function InsertBy<T>(key: T -> Key, x: T, s: seq<T>): (r: seq<T>)
    requires SortedBy(key, s)
    ensures SortedBy(key, r)
    ensures multiset(r) == multiset{x} + multiset(s)
  {
    if s == [] then [x]
    else if KeyLess(key(s[0]), key(x)) then
      var rest := InsertBy(key, x, s[1..]);
      InsertHead(key, s[0], x, s[1..], rest);
      assert s == [s[0]] + s[1..];
      [s[0]] + rest
    else
      InsertFront(key, x, s);
      [x] + s
  }

  lemma InsertFront<T>(key: T -> Key, x: T, s: seq<T>)
    requires s != [] && SortedBy(key, s) && !KeyLess(key(s[0]), key(x))
    ensures SortedBy(key, [x] + s)
  {
    forall k | 0 <= k < |s| ensures !KeyLess(key(s[k]), key(x)) {
      KeyLessOrder(key(x), key(s[0]), key(s[k]));
    }
  }

  lemma InsertHead<T>(key: T -> Key, h: T, x: T, s: seq<T>, rest: seq<T>)
    requires SortedBy(key, [h] + s) && KeyLess(key(h), key(x))
    requires SortedBy(key, rest) && multiset(rest) == multiset{x} + multiset(s)
    ensures SortedBy(key, [h] + rest)
  {
    forall k | 0 <= k < |rest| ensures !KeyLess(key(rest[k]), key(h)) {
      assert rest[k] in multiset(rest);
      if rest[k] == x {
        KeyLessOrder(key(h), key(x), key(h));
      } else {
        assert rest[k] in multiset(s);
        var i :| 0 <= i < |s| && s[i] == rest[k];
        assert ([h] + s)[i + 1] == s[i] && ([h] + s)[0] == h;
      }
    }
  }

  /** A stable sort: sort.Strings, sort.Slice and sort.SliceStable over their (rank, text) keys. */
  function SortBy<T(!new)>(key: T -> Key, s: seq<T>): (r: seq<T>)
    ensures SortedBy(key, r)
    ensures multiset(r) == multiset(s)
    ensures |r| == |s|
    ensures forall x :: x in r <==> x in s
  {
    if s == [] then [] else
      var r := InsertBy(key, s[0], SortBy(key, s[1..]));
      assert s == [s[0]] + s[1..];
      assert |multiset(r)| == |multiset(s)|;
      assert forall x :: x in r <==> x in multiset(r);
      assert forall x :: x in s <==> x in multiset(s);
      r
  }

  lemma Assoc<T>(a: seq<T>, b: seq<T>, c: seq<T>)
    ensures a + b + c == a + (b + c)
  {
  }

  lemma InSnoc<T>(s: seq<T>, n: nat, x: T)
    requires |s| == n + 1
    ensures x in s <==> x in s[..n] || x == s[n]
  {
    assert s == s[..n] + [s[n]];
  }

  ghost predicate Distinct<T>(s: seq<T>) { forall i, j :: 0 <= i < j < |s| ==> s[i] != s[j] }

  lemma DistinctAppend<T>(a: seq<T>, b: seq<T>)
    requires Distinct(a) && Distinct(b) && forall k :: 0 <= k < |b| ==> b[k] !in a
    ensures Distinct(a + b)
  {
  }

  lemma DistinctMultiset<T>(s: seq<T>, r: seq<T>)
    requires Distinct(s) && multiset(r) == multiset(s)
    ensures Distinct(r)
  {
    forall i, j | 0 <= i < j < |r| ensures r[i] != r[j] {
      if r[i] == r[j] {
        var x := r[i];
        assert r == r[..i] + [x] + r[i + 1..j] + [x] + r[j + 1..];
        assert multiset(r)[x] >= 2;
        DistinctCount(s, x);
      }
    }
  }

  lemma DistinctCount<T>(s: seq<T>, x: T)
    requires Distinct(s)
    ensures multiset(s)[x] <= 1
  {
    if s != [] {
      DistinctCount(s[1..], x);
      assert s == [s[0]] + s[1..];
      assert s[0] !in s[1..];
      assert s[0] !in multiset(s[1..]);
    }
  }

  /** Ranging over a Go map: its keys, each once, in no promised order. */
  method KeysOf<K(==)>(keys: set<K>) returns (r: seq<K>)
    ensures Distinct(r)
    ensures forall k :: k in r <==> k in keys
  {
    r := [];
    var rest := keys;
    while rest != {}
      invariant rest <= keys
      invariant Distinct(r)
      invariant forall k :: k in r <==> k in keys && k !in rest
    {
      var k :| k in rest;
      r := r + [k];
      rest := rest - {k};
    }
  }
}
