/** Streaming the matrix to a file, the columns kept resident meanwhile, reading it back, and gating from the
    file. */
module Streaming {
  import opened Text
  import opened Logs
  import opened Flows
  import opened Matrix
  import opened Topology
  import opened Selection
  import opened Assertions

  // ----- the retained columns suffice -----

  function ActorKind(a: Actor): string {
    if a.isHEP then "hep" else if a.role == "external" then "external"
    else if a.role == "host" then "host-unpoliced" else "workload"
  }

  predicate External(a: Actor) { ActorKind(a) == "external" }

  ghost predicate Keeps(req: Request, list: seq<Actor>, id: string) {
    || (exists a :: a in list && External(a) && a.id == id)
    || (exists s :: s in req.services && IsBackend(req, s, id))
  }

  /** matrixKeepSet: the columns a post-processor reads back. */
  method MatrixKeepSet(req: Request, list: seq<Actor>) returns (keep: set<string>)
    ensures forall id :: id in keep <==> Keeps(req, list, id)
  {
    keep := {};
    for i := 0 to |list|
      invariant forall id :: id in keep <==> exists k :: 0 <= k < i && External(list[k]) && list[k].id == id
    {
      if ActorKind(list[i]) == "external" {
        keep := keep + {list[i].id};
      }
    }
    assert forall id :: id in keep <==> exists a :: a in list && External(a) && a.id == id;
    var backends := KeptBackends(req);
    keep := keep + backends;
  }

  method KeptBackends(req: Request) returns (keep: set<string>)
    ensures forall id :: id in keep <==> exists s :: s in req.services && IsBackend(req, s, id)
  {
    keep := {};
    if |req.services| > 0 {
      var ipToID := IpToID(req.endpoints);
      for i := 0 to |req.services|
        invariant forall id :: id in keep <==> exists k :: 0 <= k < i && IsBackend(req, req.services[k], id)
      {
        var ids := ServiceBackendIDs(req, req.services[i], ipToID);
        keep := keep + set b | b in ids;
      }
    }
  }

  lemma {:induction false} ColumnSameLog(log: seq<Entry>, m1: Mode, m2: Mode, env: Env, req: Request, list: seq<Actor>,
                                         svc: Service, sources: seq<Actor>)
    requires Settled(log, env, req, list) && WellNamed(req, list)
    requires BackendsKept(req, list, m1) && BackendsKept(req, list, m2)
    requires svc in req.services && forall a :: a in sources ==> a in list
    ensures ColumnLog(log, m1, req, svc, sources) == ColumnLog(log, m2, req, svc, sources)
    decreases sources
  {
    if sources != [] {
      var src := sources[0];
      ColumnStep(log, m1, env, req, list, svc, src);
      ColumnStep(log, m2, env, req, list, svc, src);
      var e := Entry(src.id, Column(svc), VerdictText(Reaches(env, list, req, ByID(list, src.id).value, svc)));
      ColumnSameLog(log + [e], m1, m2, env, req, list, svc, sources[1..]);
    }
  }

  lemma {:induction false} ServiceSameLog(log: seq<Entry>, m1: Mode, m2: Mode, env: Env, req: Request,
      list: seq<Actor>, services: seq<Service>)
    requires Settled(log, env, req, list) && WellNamed(req, list)
    requires BackendsKept(req, list, m1) && BackendsKept(req, list, m2)
    requires forall v :: v in services ==> v in req.services
    ensures ServiceLog(log, m1, req, services, list) == ServiceLog(log, m2, req, services, list)
    decreases services
  {
    if services != [] {
      ColumnSameLog(log, m1, m2, env, req, list, services[0], list);
      ColumnLast(log, m1, env, req, list, services[0], list, "", "");
      ServiceSameLog(ColumnLog(log, m1, req, services[0], list), m1, m2, env, req, list, services[1..]);
    }
  }

  /** Streaming and in-memory runs make the same puts: service columns lose nothing to the dropped columns. */
  lemma StreamedLogEqualsResidentLog(env: Env, m1: Mode, m2: Mode, req: Request, list: seq<Actor>)
    requires WellNamed(req, list) && BackendsKept(req, list, m1) && BackendsKept(req, list, m2)
    ensures FullLog(env, m1, req, list) == FullLog(env, m2, req, list)
  {
    var log := AllPuts(env, list, list);
    AllPutsSources(env, list, list);
    forall s, d ensures Last(log, s, d) ==
        if ByID(list, s).Some? && s != d && ByID(list, d).Some?
        then Some(VerdictText(FlowAllows(env, ByID(list, s).value, ByID(list, d).value))) else None
    {
      LastOfAll(env, list, list, s, d);
    }
    ServiceSameLog(log, m1, m2, env, req, list, req.services);
  }

  // ----- actor report -----

  datatype ActorEntry = ActorEntry(id: string, kind: string, node: string, internet: string)

  predicate ReachesExternal(m: map<string, string>, list: seq<Actor>, id: string) {
    exists e :: e in list && External(e) && Lookup(m, id, e.id) == "allow"
  }

  function ReportEntry(m: map<string, string>, list: seq<Actor>, complete: bool, a: Actor): ActorEntry {
    ActorEntry(a.id, ActorKind(a), a.node,
               if complete && !External(a) && (exists e :: e in list && External(e))
               then (if ReachesExternal(m, list, a.id) then "allow" else "deny") else "")
  }

  predicate Outside(a: Actor) { !a.isHEP && a.role == "external" }

  /** A report entry: what the actor is, and whether it gets out. That is left open when the matrix is partial, there
      is nowhere out, or the actor is outside itself. */
  lemma ReportMeaning(m: map<string, string>, list: seq<Actor>, complete: bool, a: Actor)
    ensures var r := ReportEntry(m, list, complete, a);
            && r.id == a.id && r.node == a.node
            && r.kind == (if a.isHEP then "hep" else if a.role == "external" || a.role == "host"
                          then (if a.role == "host" then "host-unpoliced" else "external") else "workload")
            && (r.internet == "" <==> !complete || Outside(a) || forall e :: e in list ==> !Outside(e))
            && (r.internet == "allow" <==>
                r.internet != ""
                && exists e :: e in list && Outside(e) && a.id + "->" + e.id in m && m[a.id + "->" + e.id] == "allow")
            && (r.internet == "" || r.internet == "allow" || r.internet == "deny")
  {
    forall e: Actor ensures External(e) <==> Outside(e) {
    }
  }

  method Externals(list: seq<Actor>) returns (externals: seq<Actor>)
    ensures forall e :: e in externals <==> e in list && External(e)
  {
    externals := [];
    for i := 0 to |list|
      invariant forall e :: e in externals <==> exists k :: 0 <= k < i && list[k] == e && External(e)
    {
      if ActorKind(list[i]) == "external" {
        externals := externals + [list[i]];
      }
    }
  }

  method Posture(sink: MatrixSink, externals: seq<Actor>, id: string) returns (internet: string)
    requires sink.Valid()
    ensures internet ==
            if exists e :: e in externals && Lookup(Resident(sink.log, sink.mode), id, e.id) == "allow" then "allow"
            else "deny"
  {
    for i := 0 to |externals|
      invariant forall k :: 0 <= k < i ==> Lookup(Resident(sink.log, sink.mode), id, externals[k].id) != "allow"
    {
      var got := sink.Get(id, externals[i].id);
      if got == "allow" {
        return "allow";
      }
    }
    return "deny";
  }

  method Internet(sink: MatrixSink, list: seq<Actor>, externals: seq<Actor>, complete: bool, a: Actor)
    returns (internet: string)
    requires sink.Valid() && forall e :: e in externals <==> e in list && External(e)
    ensures internet == ReportEntry(Resident(sink.log, sink.mode), list, complete, a).internet
  {
    internet := "";
    if complete && ActorKind(a) != "external" && |externals| > 0 {
      assert externals[0] in externals;
      internet := Posture(sink, externals, a.id);
    }
  }

  /** buildActorReport. */
  method BuildActorReport(sink: MatrixSink, list: seq<Actor>, complete: bool) returns (r: seq<ActorEntry>)
    requires sink.Valid()
    ensures |r| == |list|
    ensures forall k :: 0 <= k < |list| ==> r[k] == ReportEntry(Resident(sink.log, sink.mode), list, complete, list[k])
  {
    ghost var m := Resident(sink.log, sink.mode);
    var externals := Externals(list);
    r := [];
    for i := 0 to |list|
      invariant |r| == i && forall k :: 0 <= k < i ==> r[k] == ReportEntry(m, list, complete, list[k])
    {
      var internet := Internet(sink, list, externals, complete, list[i]);
      r := r + [ActorEntry(list[i].id, ActorKind(list[i]), list[i].node, internet)];
    }
  }

  /** Postures read only external columns, so a run that retains them reports the same. */
  lemma SamePostures(log: seq<Entry>, m1: Mode, m2: Mode, list: seq<Actor>, complete: bool, a: Actor)
    requires PlainSources(log) && !HasArrow(a.id)
    requires forall e :: e in list && External(e) ==> Retained(m1, e.id) && Retained(m2, e.id)
    ensures ReportEntry(Resident(log, m1), list, complete, a) == ReportEntry(Resident(log, m2), list, complete, a)
  {
    forall e | e in list && External(e)
      ensures Lookup(Resident(log, m1), a.id, e.id) == Lookup(Resident(log, m2), a.id, e.id)
    {
      PlainLookupIsLast(log, m1, a.id, e.id);
      PlainLookupIsLast(log, m2, a.id, e.id);
    }
  }

  /** The reported posture: some cell of the actor's row towards an external actor allows. */
  lemma PostureMeaning(env: Env, mode: Mode, req: Request, list: seq<Actor>, a: Actor)
    requires WellNamed(req, list) && BackendsKept(req, list, mode) && a in list
    requires forall e :: e in list && External(e) ==> Retained(mode, e.id)
    ensures ReachesExternal(Resident(FullLog(env, mode, req, list), mode), list, a.id) <==>
            exists e :: e in list && External(e) && Cell(env, list, req, a.id, e.id) == Some(true)
  {
    forall e | e in list && External(e)
      ensures Lookup(Resident(FullLog(env, mode, req, list), mode), a.id, e.id) == "allow" <==>
              Cell(env, list, req, a.id, e.id) == Some(true)
    {
      LookupIsCell(env, mode, req, list, a.id, e.id);
    }
  }

  lemma LookupIsCell(env: Env, mode: Mode, req: Request, list: seq<Actor>, s: string, d: string)
    requires WellNamed(req, list) && BackendsKept(req, list, mode) && Retained(mode, d) && !HasArrow(s)
    ensures Lookup(Resident(FullLog(env, mode, req, list), mode), s, d) == "allow" <==>
            Cell(env, list, req, s, d) == Some(true)
  {
    FullMatrixCells(env, mode, req, list, s, d);
    PlainLookupIsLast(FullLog(env, mode, req, list), mode, s, d);
  }

  /** In terms of flows: the last actor of the id reaches the last actor of an external one's id, where no external
      actor is named like a service. */
  lemma PostureByFlows(env: Env, mode: Mode, req: Request, list: seq<Actor>, a: Actor)
    requires WellNamed(req, list) && BackendsKept(req, list, mode) && a in list
    requires forall e :: e in list && External(e) ==> Retained(mode, e.id) && ByColumn(req.services, e.id).None?
    ensures ByID(list, a.id).Some? && forall e :: e in list ==> ByID(list, e.id).Some?
    ensures ReachesExternal(Resident(FullLog(env, mode, req, list), mode), list, a.id) <==>
            exists e :: e in list && External(e) && e.id != a.id
              && FlowAllows(env, ByID(list, a.id).value, ByID(list, e.id).value)
  {
    PostureMeaning(env, mode, req, list, a);
    forall e | e in list ensures ByID(list, e.id).Some? { ByIDOfMember(list, e); }
  }

  // ----- the file -----

  /** A key and a verdict. */
  type Row = (string, string)

  function RowText(r: Row): string { r.0 + ['\t'] + r.1 }

  function FileText(rows: seq<Row>): string {
    if rows == [] then "" else FileText(rows[..|rows| - 1]) + (RowText(rows[|rows| - 1]) + ['\n'])
  }

  function Rows(log: seq<Entry>): (r: seq<Row>)
    ensures |r| == |log|
  {
    seq(|log|, k requires 0 <= k < |log| => (FlowKey(log[k].src, log[k].dst), log[k].verdict))
  }

  lemma {:induction false} LinesAreRows(log: seq<Entry>)
    ensures Lines(log) == FileText(Rows(log))
  {
    if log != [] {
      var n := |log| - 1;
      LinesAreRows(log[..n]);
      assert Rows(log)[..n] == Rows(log[..n]);
      assert Line(log[n]) == RowText(Rows(log)[n]) + ['\n'];
    }
  }

  /** writeMatrixTSV: the rows of a map, each once, in no promised order. */
  method WriteMatrixTSV(m: map<string, string>) returns (text: string, ghost rows: seq<Row>)
    ensures text == FileText(rows)
    ensures Distinct(rows) && forall r :: r in rows <==> r.0 in m && m[r.0] == r.1
  {
    var keys := KeysOf(m.Keys);
    text, rows := "", [];
    for i := 0 to |keys|
      invariant text == FileText(rows)
      invariant |rows| == i && forall k :: 0 <= k < i ==> rows[k] == (keys[k], m[keys[k]])
    {
      var k := keys[i];
      assert k in m;
      text := text + (k + ['\t'] + m[k] + ['\n']);
      rows := rows + [(k, m[k])];
      assert rows[..|rows| - 1] + [rows[|rows| - 1]] == rows;
      assert text == FileText(rows[..|rows| - 1]) + (RowText(rows[|rows| - 1]) + ['\n']);
    }
  }

  /** bufio.ScanLines: a carriage return before the newline is dropped. */
  function DropCR(s: string): string { if s != "" && s[|s| - 1] == '\r' then s[..|s| - 1] else s }

  function ScanLines(text: string): seq<string>
    decreases |text|
  {
    if text == "" then []
    else
      var i := IndexOf(text, '\n');
      [DropCR(text[..i])] + if i < |text| then ScanLines(text[i + 1..]) else []
  }

  /** What a scanned line contributes: the part before the first tab is the key. */
  function Absorb(m: map<string, string>, need: set<string>, line: string): map<string, string> {
    var tab := IndexOf(line, '\t');
    if tab < |line| && line[..tab] in need then m[line[..tab] := line[tab + 1..]] else m
  }

  function AbsorbAll(m: map<string, string>, need: set<string>, lines: seq<string>): map<string, string>
    decreases lines
  {
    if lines == [] then m else AbsorbAll(Absorb(m, need, lines[0]), need, lines[1..])
  }

  /** The text after the first line. */
  function Rest(text: string): string
    requires text != ""
  {
    var i := IndexOf(text, '\n');
    if i < |text| then text[i + 1..] else ""
  }

  lemma ScanStep(m: map<string, string>, need: set<string>, text: string)
    requires text != ""
    ensures |Rest(text)| < |text|
    ensures AbsorbAll(m, need, ScanLines(text)) ==
            AbsorbAll(Absorb(m, need, DropCR(text[..IndexOf(text, '\n')])), need, ScanLines(Rest(text)))
  {
    assert ScanLines(text)[1..] == ScanLines(Rest(text));
  }

  method AbsorbLine(m: map<string, string>, need: set<string>, line: string) returns (next: map<string, string>)
    ensures next == Absorb(m, need, line)
  {
    next := m;
    var tab := IndexOf(line, '\t');
    if tab == |line| {
      return;
    }
    var key := line[..tab];
    if key in need {
      next := next[key := line[tab + 1..]];
    }
  }

  /** The scan of runAssertionsFromMatrixFile. */
  method ReadMatrixFile(text: string, need: set<string>) returns (m: map<string, string>)
    ensures m == AbsorbAll(map[], need, ScanLines(text))
  {
    m := map[];
    var rest := text;
    while rest != ""
      invariant AbsorbAll(m, need, ScanLines(rest)) == AbsorbAll(map[], need, ScanLines(text))
      decreases |rest|
    {
      ScanStep(m, need, rest);
      m := AbsorbLine(m, need, DropCR(rest[..IndexOf(rest, '\n')]));
      rest := Rest(rest);
    }
  }

  /** Rows that survive the line format: no tab or newline in the key, no newline in the verdict, which
      does not end in a carriage return. */
  predicate PlainRow(r: Row) {
    '\t' !in r.0 && '\n' !in r.0 && '\n' !in r.1 && r.1 != "" && r.1[|r.1| - 1] != '\r'
  }

  predicate Ended(text: string) { text == "" || text[|text| - 1] == '\n' }

  lemma {:induction false} ScanAppend(a: string, b: string)
    requires Ended(a)
    ensures ScanLines(a + b) == ScanLines(a) + ScanLines(b)
    decreases |a|
  {
    if a == "" {
      assert a + b == b;
    } else {
      var i := IndexOf(a, '\n');
      assert a[|a| - 1] == '\n';
      assert i < |a|;
      assert a == a[..i] + ['\n'] + a[i + 1..];
      IndexOfAt(a[..i], '\n', a[i + 1..] + b);
      assert a + b == a[..i] + ['\n'] + (a[i + 1..] + b);
      assert (a + b)[..i] == a[..i] && (a + b)[i + 1..] == a[i + 1..] + b;
      ScanAppend(a[i + 1..], b);
      Assoc([DropCR(a[..i])], ScanLines(a[i + 1..]), ScanLines(b));
    }
  }

  lemma ScanFirst(line: string, rest: string)
    requires '\n' !in line
    ensures ScanLines(line + ['\n'] + rest) == [DropCR(line)] + ScanLines(rest)
  {
    var text := line + ['\n'] + rest;
    IndexOfAt(line, '\n', rest);
    assert text[..|line|] == line && text[|line| + 1..] == rest;
  }

  /** A line that ends in carriage return and newline scans as one that ends in a newline. */
  lemma CrLfScans(line: string, rest: string)
    requires '\n' !in line && (line == "" || line[|line| - 1] != '\r')
    ensures ScanLines(line + ['\r'] + ['\n'] + rest) == ScanLines(line + ['\n'] + rest) == [line] + ScanLines(rest)
  {
    assert (line + ['\r'])[..|line|] == line;
    ScanFirst(line, rest);
    ScanFirst(line + ['\r'], rest);
  }

  lemma ScanRow(r: Row)
    requires PlainRow(r)
    ensures ScanLines(RowText(r) + ['\n']) == [RowText(r)]
    ensures IndexOf(RowText(r), '\t') == |r.0|
  {
    IndexOfAt(r.0, '\t', r.1);
    var line := RowText(r);
    assert line[|line| - 1] == r.1[|r.1| - 1];
    IndexOfAt(line, '\n', "");
    assert line + ['\n'] == line + ['\n'] + "";
    assert (line + ['\n'])[..|line|] == line && (line + ['\n'])[|line| + 1..] == "";
  }

  lemma {:induction false} AbsorbAppend(m: map<string, string>, need: set<string>, a: seq<string>, b: seq<string>)
    ensures AbsorbAll(m, need, a + b) == AbsorbAll(AbsorbAll(m, need, a), need, b)
    decreases a
  {
    if a == [] {
      assert a + b == b;
    } else {
      assert (a + b)[1..] == a[1..] + b;
      AbsorbAppend(Absorb(m, need, a[0]), need, a[1..], b);
    }
  }

  /** The needed part of what the rows say, later rows winning. */
  function RowMap(rows: seq<Row>, need: set<string>): map<string, string> {
    if rows == [] then map[]
    else
      var m, r := RowMap(rows[..|rows| - 1], need), rows[|rows| - 1];
      if r.0 in need then m[r.0 := r.1] else m
  }

  /** Reading a file of plain rows back gives the needed rows, the last line winning. */
  lemma {:induction false} ReadBack(rows: seq<Row>, need: set<string>)
    requires forall r :: r in rows ==> PlainRow(r)
    ensures Ended(FileText(rows))
    ensures AbsorbAll(map[], need, ScanLines(FileText(rows))) == RowMap(rows, need)
  {
    if rows != [] {
      var n := |rows| - 1;
      var r, before := rows[n], FileText(rows[..n]);
      ReadBack(rows[..n], need);
      ScanRow(r);
      ScanAppend(before, RowText(r) + ['\n']);
      AbsorbAppend(map[], need, ScanLines(before), [RowText(r)]);
      assert RowText(r)[..|r.0|] == r.0 && RowText(r)[|r.0| + 1..] == r.1;
      assert [RowText(r)][1..] == [];
    }
  }

  /** The needed rows of a log are the needed entries of its resident matrix. */
  lemma {:induction false} RowMapIsResident(log: seq<Entry>, need: set<string>)
    ensures RowMap(Rows(log), need) ==
            map k | k in Resident(log, Mode(false, None)) && k in need :: Resident(log, Mode(false, None))[k]
  {
    if log != [] {
      var n := |log| - 1;
      RowMapIsResident(log[..n], need);
      assert Rows(log)[..n] == Rows(log[..n]);
    }
  }

  lemma {:induction false} RowMapOfMap(rows: seq<Row>, need: set<string>, m: map<string, string>)
    requires forall r :: r in rows ==> r.0 in m && m[r.0] == r.1
    ensures forall k :: k in RowMap(rows, need) ==> k in need && k in m && RowMap(rows, need)[k] == m[k]
    ensures forall k :: k in need && k in m && (k, m[k]) in rows ==> k in RowMap(rows, need)
  {
    if rows != [] {
      var n := |rows| - 1;
      assert rows[n] in rows;
      RowMapOfMap(rows[..n], need, m);
      assert rows == rows[..n] + [rows[n]];
    }
  }

  predicate PlainEntry(e: Entry) {
    '\t' !in e.src && '\n' !in e.src && '\t' !in e.dst && '\n' !in e.dst && e.verdict in {"allow", "deny"}
  }

  /** The streamed file read back is the resident matrix, restricted to the needed keys. */
  lemma StreamReadsBack(log: seq<Entry>, need: set<string>)
    requires forall e :: e in log ==> PlainEntry(e)
    ensures AbsorbAll(map[], need, ScanLines(Lines(log))) ==
            map k | k in Resident(log, Mode(false, None)) && k in need :: Resident(log, Mode(false, None))[k]
  {
    LinesAreRows(log);
    forall r | r in Rows(log) ensures PlainRow(r) {
      var k :| 0 <= k < |log| && Rows(log)[k] == r;
      assert PlainEntry(log[k]);
    }
    ReadBack(Rows(log), need);
    RowMapIsResident(log, need);
  }

  function NeededKeys(assertions: seq<Assertion>): set<string> { set a | a in assertions :: FlowKey(a.from, a.to) }

  /** runAssertionsFromMatrixFile, the file given as its text. */
  method RunAssertionsFromMatrixFile(text: string, assertions: seq<Assertion>) returns (r: Report)
    ensures r.results == Judged(AbsorbAll(map[], NeededKeys(assertions), ScanLines(text)), assertions)
    ensures r.passed == Passes(r.results) && r.passed + r.failed == |assertions|
  {
    var need := NeededKeys(assertions);
    var m := ReadMatrixFile(text, need);
    r := RunAssertionsOnMatrix(m, assertions);
  }

  /** Gating from the streamed file is gating the resident matrix. */
  lemma FileGatingIsMatrixGating(log: seq<Entry>, assertions: seq<Assertion>)
    requires forall e :: e in log ==> PlainEntry(e)
    ensures Judged(AbsorbAll(map[], NeededKeys(assertions), ScanLines(Lines(log))), assertions)
            == Judged(Resident(log, Mode(false, None)), assertions)
  {
    var need := NeededKeys(assertions);
    var m1, m2 := AbsorbAll(map[], need, ScanLines(Lines(log))), Resident(log, Mode(false, None));
    StreamReadsBack(log, need);
    forall a | a in assertions ensures VerdictOf(m1, PairOf(a)) == VerdictOf(m2, PairOf(a)) {
      assert FlowKey(a.from, a.to) in need;
    }
    JudgedReadsOnlyAsserted(m1, m2, assertions);
  }

  /** The same for a map written by writeMatrixTSV, in whatever order. */
  lemma WrittenMapGating(m: map<string, string>, rows: seq<Row>, assertions: seq<Assertion>)
    requires forall r :: r in rows <==> r.0 in m && m[r.0] == r.1
    requires forall k :: k in m ==> PlainRow((k, m[k]))
    ensures Judged(AbsorbAll(map[], NeededKeys(assertions), ScanLines(FileText(rows))), assertions) ==
            Judged(m, assertions)
  {
    var need := NeededKeys(assertions);
    forall r | r in rows ensures PlainRow(r) { assert r == (r.0, m[r.0]); }
    ReadBack(rows, need);
    RowMapOfMap(rows, need, m);
    forall a | a in assertions ensures VerdictOf(RowMap(rows, need), PairOf(a)) == VerdictOf(m, PairOf(a)) {
      var k := FlowKey(a.from, a.to);
      assert k in need;
      assert k in m ==> (k, m[k]) in rows;
    }
    JudgedReadsOnlyAsserted(RowMap(rows, need), m, assertions);
  }
}
