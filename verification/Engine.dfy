/** Evaluate as a whole: the loop that fills the matrix, what it leaves behind, and gating on it. */
module Engine {
  import opened Text
  import opened Addr = Addresses
  import opened Logs
  import opened EndpointPairs
  import opened Checker
  import opened Flows
  import opened Fingerprint
  import opened Matrix
  import opened Collapse
  import opened Topology
  import opened Selection
  import opened Assertions
  import opened Streaming
  import Antrea

  // ----- the probe of a request -----

  function NamedProtocol(s: string): Option<nat> {
    if s == "tcp" then Some(6) else if s == "udp" then Some(17) else if s == "icmp" then Some(1)
    else if s == "icmpv6" then Some(58) else if s == "sctp" then Some(132)
    else if s == "udplite" then Some(136) else None
  }

  /** protocolNumber: a known name, a number up to 255, or TCP. */
  function ProtocolNumber(protocol: string): (n: nat)
    ensures n <= 255
  {
    var s := ToLower(TrimSpace(protocol));
    if NamedProtocol(s).Some? then NamedProtocol(s).value
    else if Atoi(s).Some? && 0 <= Atoi(s).value <= 255 then Atoi(s).value
    else 6
  }

  predicate ProtocolHasL4Ports(p: nat) { p in {6, 17, 132, 136} }

  /** The probe fields of a request, zero or empty where unset. */
  datatype Ask = Ask(protocol: string, port: nat, srcPort: nat, httpMethod: string)

  /** flowFactory, with the defaults Evaluate applies first; the destination port of a protocol without
      ports is 0. */
  function FlowProbe(ask: Ask): Probe {
    var p := ProtocolNumber(if ask.protocol == "" then "tcp" else ask.protocol);
    Probe(p, if ask.srcPort == 0 then 12345 else ask.srcPort,
          if !ProtocolHasL4Ports(p) then 0 else if ask.port == 0 then 8080 else ask.port,
          if ask.httpMethod == "" then None else Some(ask.httpMethod))
  }

  lemma DigitsUntouched(s: string)
    requires s != "" && forall c :: c in s ==> IsDigit(c)
    ensures ToLower(TrimSpace(s)) == s
  {
    assert IsDigit(s[0]) && IsDigit(s[|s| - 1]);
    assert TrimSpace(s) == s;
    forall k | 0 <= k < |s| ensures ToLower(s)[k] == s[k] {
      assert s[k] in s;
    }
  }

  /** The protocol a trimmed, lower-cased text stands for, by name or by number. */
  predicate Denotes(s: string, n: nat) {
    NamedProtocol(s) == Some(n) || (Atoi(s) == Some(n) && n <= 255)
  }

  /** A known name is no number, so at most one protocol is denoted. */
  lemma DenotesOne(s: string, m: nat, n: nat)
    requires Denotes(s, m) && Denotes(s, n)
    ensures m == n
  {
    if NamedProtocol(s).Some? {
      assert s[0] in s && s[1] in s[1..] && !IsDigit(s[0]) && s[0] != '+' && s[0] != '-';
      assert Atoi(s).None?;
    }
  }

  /** The number is the one denoted, in whatever case and padding, and TCP exactly when none is. */
  lemma ProtocolNumberIff(protocol: string, n: nat)
    ensures var s := ToLower(TrimSpace(protocol));
            ProtocolNumber(protocol) == n <==> Denotes(s, n) || (n == 6 && forall k: nat :: !Denotes(s, k))
  {
    var s := ToLower(TrimSpace(protocol));
    assert ProtocolNumber(protocol) == 6 || Denotes(s, ProtocolNumber(protocol));
    if k: nat :| Denotes(s, k) {
      assert Denotes(s, ProtocolNumber(protocol));
      DenotesOne(s, k, ProtocolNumber(protocol));
      if Denotes(s, n) { DenotesOne(s, k, n); }
    }
  }

  /** Wire-style numbers are read back. */
  lemma ProtocolNumberReadsDigits(n: nat)
    requires n <= 255
    ensures ProtocolNumber(Itoa(n)) == n
  {
    var s := Itoa(n);
    DigitsUntouched(s);
    AtoiItoa(n);
    assert Denotes(s, n);
    ProtocolNumberIff(s, n);
  }

  lemma LettersUntouched(s: string)
    requires s != "" && forall c :: c in s ==> 'a' <= c <= 'z' || IsDigit(c)
    ensures ToLower(TrimSpace(s)) == s
  {
    assert s[0] in s && s[|s| - 1] in s;
    assert TrimSpace(s) == s;
    forall k | 0 <= k < |s| ensures ToLower(s)[k] == s[k] {
      assert s[k] in s;
    }
  }

  /** The six protocols known by name. */
  lemma KnownProtocols()
    ensures ProtocolNumber("tcp") == 6 && ProtocolNumber("udp") == 17 && ProtocolNumber("icmp") == 1
    ensures ProtocolNumber("icmpv6") == 58 && ProtocolNumber("sctp") == 132 && ProtocolNumber("udplite") == 136
  {
    LettersUntouched("tcp");
    LettersUntouched("udp");
    LettersUntouched("icmp");
    LettersUntouched("icmpv6");
    LettersUntouched("sctp");
    LettersUntouched("udplite");
  }

  /** TCP, UDP, SCTP and UDPLite. */
  predicate Ported(protocol: nat) { protocol == 6 || protocol == 17 || protocol == 132 || protocol == 136 }

  /** The port a request asks about: its own or 8080, and 0 for a protocol without ports. */
  function AskedPort(ask: Ask): nat {
    if Ported(ProtocolNumber(ask.protocol)) || ask.protocol == "" then (if ask.port != 0 then ask.port else 8080) else 0
  }

  /** The probe of a request: its protocol, TCP when unset; the ports it names or their defaults; and a method exactly
      when it names one. */
  lemma FlowProbeMeaning(ask: Ask)
    ensures var p := FlowProbe(ask);
            && p.protocol == (if ask.protocol == "" then 6 else ProtocolNumber(ask.protocol))
            && p.dstPort == AskedPort(ask)
            && (ask.srcPort != 0 ==> p.srcPort == ask.srcPort) && (ask.srcPort == 0 ==> p.srcPort == 12345)
            && (p.httpMethod.None? <==> ask.httpMethod == "")
            && (p.httpMethod.Some? ==> p.httpMethod.value == ask.httpMethod)
  {
    KnownProtocols();
  }

  // ----- one evaluation -----

  /** What Evaluate is given once policies have become tiers: the request, the graph, and the store. */
  datatype World = World(req: Request, graph: Graph, store: Store, scope: Scope)

  function EnvOf(w: World, probe: Probe): Env { Env(w.store, w.scope, probe, HepIndexOf(w.graph, w.req.hostEndpoints)) }

  function ListOf(w: World): seq<Actor> { Actors(w.graph, w.req) }

  /** Whether an evaluation goes by classes. */
  predicate Collapses(w: World, pairs: seq<MatrixPair>, noCollapse: bool) {
    pairs == [] && HepIndexOf(w.graph, w.req.hostEndpoints) == map[] && !noCollapse
  }

  /** The puts of an evaluation, whichever loop makes them. */
  ghost function Puts(env: Env, req: Request, list: seq<Actor>, pairs: seq<MatrixPair>, mode: Mode): seq<Entry> {
    if pairs != [] then PairPuts(env, list, req, pairs) else FullLog(env, mode, req, list)
  }

  ghost function RunLog(w: World, probe: Probe, pairs: seq<MatrixPair>, mode: Mode): seq<Entry> {
    Puts(EnvOf(w, probe), w.req, ListOf(w), pairs, mode)
  }

  ghost predicate ModeOf(w: World, streaming: bool, mode: Mode) {
    && mode.streaming == streaming
    && (streaming ==> mode.keep.Some? && forall id :: id in mode.keep.value <==> Keeps(w.req, ListOf(w), id))
  }

  /** The sink of a request: streaming keeps only the columns read back. */
  method NewSink(w: World, streaming: bool, list: seq<Actor>) returns (sink: MatrixSink)
    requires list == ListOf(w)
    ensures fresh(sink) && sink.Valid() && sink.log == [] && ModeOf(w, streaming, sink.mode)
  {
    var keep: Option<set<string>> := None;
    if streaming {
      var k := MatrixKeepSet(w.req, list);
      keep := Some(k);
    }
    sink := new MatrixSink(Mode(streaming, keep));
  }

  lemma NothingBefore<T>(log: seq<T>)
    ensures [] + log == log
  {
  }

  /** By class pairs when no node has host endpoints, else pair by pair: the puts are the same. */
  method FillAll(sink: MatrixSink, env: Env, list: seq<Actor>, noCollapse: bool)
    requires env.heps == map[] ==> forall a :: a in list ==> !a.isHEP
    requires env.heps == map[] && !noCollapse ==> Unambiguous(list)
    requires sink.Valid()
    modifies sink
    ensures sink.Valid() && sink.log == old(sink.log) + AllPuts(env, list, list)
  {
    if env.heps == map[] && !noCollapse {
      FillMatrixCollapsed(sink, env, list);
    } else {
      FillMatrixExact(sink, env, list);
    }
  }

  /** The dispatch of Evaluate: requested pairs, or all of them and then the service columns. */
  method FillMatrix(sink: MatrixSink, w: World, env: Env, list: seq<Actor>, pairs: seq<MatrixPair>, noCollapse: bool)
    requires env == EnvOf(w, env.probe) && list == ListOf(w)
    requires env.heps == map[] ==> forall a :: a in list ==> !a.isHEP
    requires Collapses(w, pairs, noCollapse) ==> Unambiguous(list)
    requires sink.Valid() && sink.log == []
    modifies sink
    ensures sink.Valid() && sink.log == RunLog(w, env.probe, pairs, sink.mode)
  {
    if |pairs| > 0 {
      FillMatrixPairs(sink, env, list, w.req, pairs);
      NothingBefore(PairPuts(env, list, w.req, pairs));
    } else {
      FillAll(sink, env, list, noCollapse);
      NothingBefore(AllPuts(env, list, list));
      AddServiceColumns(sink, w.req, list);
    }
  }

  /** Evaluate, from the graph on. */
  method Evaluate(w: World, ask: Ask, pairs: seq<MatrixPair>, streaming: bool, noCollapse: bool)
    returns (sink: MatrixSink, report: seq<ActorEntry>)
    requires Collapses(w, pairs, noCollapse) ==> Unambiguous(ListOf(w))
    ensures fresh(sink) && sink.Valid() && ModeOf(w, streaming, sink.mode)
    ensures sink.log == RunLog(w, FlowProbe(ask), pairs, sink.mode)
    ensures |report| == |ListOf(w)|
    ensures forall k :: 0 <= k < |report| ==>
              report[k] == ReportEntry(Resident(sink.log, sink.mode), ListOf(w), pairs == [], ListOf(w)[k])
  {
    var list, hepsByNode := BuildActors(w.req, w.graph);
    sink := NewSink(w, streaming, list);
    FillMatrix(sink, w, Env(w.store, w.scope, FlowProbe(ask), hepsByNode), list, pairs, noCollapse);
    report := BuildActorReport(sink, list, pairs == []);
  }

  // ----- the requested port decides -----

  /** A destination whose one policy allows one destination port. */
  ghost predicate OnePortWEP(w: World, wep: WEP, id: PolicyID, port: nat) {
    && wep == WEP([Tier("default", "Deny", [id], [])], [])
    && Applies(w.store, w.scope, id)
    && w.store.policies[id].inbound == [ALLOW_ALL.(dst := ANY_SIDE.(ports := [PortRange(port, port)]))]
  }

  lemma OnePortVerdict(w: World, wep: WEP, id: PolicyID, port: nat, f: Flow)
    requires OnePortWEP(w, wep, id, port)
    ensures Allowed(w.store, w.scope, Ingress, wep, f) <==> f.dstPort == port
  {
    var t, r := wep.tiers[0], ALLOW_ALL.(dst := ANY_SIDE.(ports := [PortRange(port, port)]));
    assert id in t.ingress && AnyApplies(w.store, w.scope, t.ingress);
    assert r.dst.ports[0] in r.dst.ports;
    assert RuleMatches(w.store, r, f) <==> f.dstPort == port;
    assert [r][1..] == [] && t.ingress[1..] == [] && wep.tiers[1..] == [];
    assert CheckRules(w.store, [r][1..], f) == None;
    assert CheckPolicies(w.store, w.scope, t.ingress[1..], Ingress, f) == None;
    VerdictSteps(w.store, w.scope, Ingress, wep.tiers, [], f);
  }

  /** Without host endpoints, and with such a destination, the cell that Evaluate puts last for it allows exactly when
      the request asks about that port. */
  lemma AskedPortDecides(w: World, ask: Ask, mode: Mode, src: Actor, dst: Actor, id: PolicyID, port: nat)
    requires HepIndexOf(w.graph, w.req.hostEndpoints) == map[]
    requires WellNamed(w.req, ListOf(w)) && BackendsKept(w.req, ListOf(w), mode)
    requires ByID(ListOf(w), src.id) == Some(src) && ByID(ListOf(w), dst.id) == Some(dst) && src.id != dst.id
    requires ByColumn(w.req.services, dst.id).None?
    requires src.unpoliced && !src.isHEP && !dst.unpoliced && !dst.isHEP && OnePortWEP(w, dst.wep, id, port)
    ensures Last(RunLog(w, FlowProbe(ask), [], mode), src.id, dst.id) ==
            Some(if AskedPort(ask) == port then "allow" else "deny")
  {
    var probe := FlowProbe(ask);
    FlowProbeMeaning(ask);
    FullMatrixCells(EnvOf(w, probe), mode, w.req, ListOf(w), src.id, dst.id);
    NoHepsTwoLegs(EnvOf(w, probe), src, dst);
    OnePortVerdict(w, dst.wep, id, port, MkFlow(probe, src, dst));
  }

  // ----- names -----

  /** No id and no service column holds an arrow. */
  predicate Arrowless(req: Request, list: seq<Actor>) {
    (forall a :: a in list ==> !HasArrow(a.id)) && (forall s :: s in req.services ==> !HasArrow(Column(s)))
  }

  predicate IsActor(list: seq<Actor>, id: string) { exists a :: a in list && a.id == id }

  predicate IsColumn(req: Request, id: string) { exists s :: s in req.services && Column(s) == id }

  /** From an actor to an actor or a service, and a verdict. */
  predicate NamedEntry(e: Entry, req: Request, list: seq<Actor>) {
    IsActor(list, e.src) && (IsActor(list, e.dst) || IsColumn(req, e.dst)) && e.verdict in {"allow", "deny"}
  }

  predicate Named(log: seq<Entry>, req: Request, list: seq<Actor>) { forall e :: e in log ==> NamedEntry(e, req, list) }

  lemma {:induction false} PairPutsNamed(env: Env, req: Request, list: seq<Actor>, pairs: seq<MatrixPair>)
    ensures Named(PairPuts(env, list, req, pairs), req, list)
  {
    if pairs != [] {
      PairPutsNamed(env, req, list, pairs[..|pairs| - 1]);
      assert Named(CellPut(env, list, req, pairs[|pairs| - 1]), req, list);
    }
  }

  lemma {:induction false} RowNamed(env: Env, req: Request, list: seq<Actor>, row: seq<Actor>, src: Actor)
    requires src in list && forall a :: a in row ==> a in list
    ensures Named(RowPuts(env, row, src), req, list)
  {
    if row != [] { RowNamed(env, req, list, row[1..], src); }
  }

  lemma {:induction false} AllPutsNamed(env: Env, req: Request, list: seq<Actor>, sources: seq<Actor>)
    requires forall a :: a in sources ==> a in list
    ensures Named(AllPuts(env, list, sources), req, list)
  {
    if sources != [] {
      RowNamed(env, req, list, list, sources[0]);
      AllPutsNamed(env, req, list, sources[1..]);
    }
  }

  lemma {:induction false} ColumnNamed(log: seq<Entry>, mode: Mode, req: Request, svc: Service, list: seq<Actor>,
      sources: seq<Actor>)
    requires Named(log, req, list) && svc in req.services && forall a :: a in sources ==> a in list
    ensures Named(ColumnLog(log, mode, req, svc, sources), req, list)
    decreases sources
  {
    if sources != [] {
      var allow := ColumnAllows(Resident(log, mode), req, svc, sources[0].id);
      ColumnNamed(log + [Entry(sources[0].id, Column(svc), VerdictText(allow))], mode, req, svc, list, sources[1..]);
    }
  }

  lemma {:induction false} ServicesNamed(log: seq<Entry>, mode: Mode, req: Request, services: seq<Service>,
      list: seq<Actor>)
    requires Named(log, req, list) && forall s :: s in services ==> s in req.services
    ensures Named(ServiceLog(log, mode, req, services, list), req, list)
    decreases services
  {
    if services != [] {
      ColumnNamed(log, mode, req, services[0], list, list);
      ServicesNamed(ColumnLog(log, mode, req, services[0], list), mode, req, services[1..], list);
    }
  }

  /** The entries of every evaluation are named so. */
  lemma PutsNamed(env: Env, req: Request, list: seq<Actor>, pairs: seq<MatrixPair>, mode: Mode)
    ensures Named(Puts(env, req, list, pairs, mode), req, list)
  {
    PairPutsNamed(env, req, list, pairs);
    AllPutsNamed(env, req, list, list);
    ServicesNamed(AllPuts(env, list, list), mode, req, req.services, list);
  }

  lemma BackendInList(w: World, svc: Service, id: string)
    requires IsBackend(w.req, svc, id)
    ensures ByID(ListOf(w), id).Some?
  {
    BackendIsEndpoint(w.req, svc, id);
    var e :| e in w.req.endpoints && e.id == id;
    var k :| 0 <= k < |w.req.endpoints| && w.req.endpoints[k] == e;
    var a := EndpointRows(w.graph, w.req.endpoints)[k];
    assert a in ListOf(w) && a.id == id;
    ByIDOfMember(ListOf(w), a);
  }

  /** The keep set holds every column read back: all backends, all external actors. */
  lemma KeepSetSuffices(w: World, streaming: bool, mode: Mode)
    requires ModeOf(w, streaming, mode)
    ensures BackendsKept(w.req, ListOf(w), mode)
    ensures forall e :: e in ListOf(w) && External(e) ==> Retained(mode, e.id)
  {
    forall s, b | s in w.req.services && IsBackend(w.req, s, b) ensures ByID(ListOf(w), b).Some? && Retained(mode, b) {
      BackendInList(w, s, b);
      assert Keeps(w.req, ListOf(w), b);
    }
    forall e | e in ListOf(w) && External(e) ensures Retained(mode, e.id) {
      assert Keeps(w.req, ListOf(w), e.id);
    }
  }

  // ----- streaming changes nothing -----

  /** A streamed run writes the very puts of an in-memory run, and reports the same postures. */
  lemma StreamingIsTransparent(w: World, probe: Probe, mode: Mode, memory: Mode, a: Actor)
    requires WellNamed(w.req, ListOf(w)) && ModeOf(w, true, mode) && ModeOf(w, false, memory) && a in ListOf(w)
    ensures RunLog(w, probe, [], mode) == RunLog(w, probe, [], memory)
    ensures ReportEntry(Resident(RunLog(w, probe, [], mode), mode), ListOf(w), true, a)
            == ReportEntry(Resident(RunLog(w, probe, [], memory), memory), ListOf(w), true, a)
  {
    var env, list := EnvOf(w, probe), ListOf(w);
    KeepSetSuffices(w, true, mode);
    KeepSetSuffices(w, false, memory);
    StreamedLogEqualsResidentLog(env, mode, memory, w.req, list);
    FullMatrixCells(env, memory, w.req, list, a.id, a.id);
    SamePostures(RunLog(w, probe, [], memory), mode, memory, list, true, a);
  }

  // ----- partial evaluations are restrictions, so assertions may be grouped -----

  const IN_MEMORY := Mode(false, None)

  /** What a request for pairs, or for everything, leaves in Response.Matrix. */
  ghost function MatrixOf(env: Env, req: Request, list: seq<Actor>, pairs: seq<MatrixPair>): map<string, string> {
    Resident(Puts(env, req, list, pairs, IN_MEMORY), IN_MEMORY)
  }

  /** What either holds for a pair of names. */
  ghost function CellVerdict(env: Env, req: Request, list: seq<Actor>, p: MatrixPair): Option<string> {
    if HasArrow(p.from) then None else CellText(Cell(env, list, req, p.from, p.to))
  }

  /** A requested pair reads as its cell, whatever else was requested. */
  lemma PartialVerdict(env: Env, req: Request, list: seq<Actor>, pairs: seq<MatrixPair>, p: MatrixPair)
    requires Arrowless(req, list) && p in pairs
    ensures VerdictOf(MatrixOf(env, req, list, pairs), p) == CellVerdict(env, req, list, p)
  {
    PutsNamed(env, req, list, pairs, IN_MEMORY);
    if HasArrow(p.from) {
      ArrowedKeyAbsent(PairPuts(env, list, req, pairs), IN_MEMORY, p.from, p.to);
    } else {
      PlainLookupIsLast(PairPuts(env, list, req, pairs), IN_MEMORY, p.from, p.to);
      PartialMatrixCells(env, list, req, pairs, p.from, p.to);
    }
  }

  // ----- gating from the streamed file -----

  /** Ids and service columns that the line format keeps apart: no tab, no newline. */
  predicate LineSafe(req: Request, list: seq<Actor>) {
    && (forall a :: a in list ==> '\t' !in a.id && '\n' !in a.id)
    && (forall s :: s in req.services ==> '\t' !in Column(s) && '\n' !in Column(s))
  }

  /** What a streamed evaluation leaves in its file gates as the in-memory matrix of the same evaluation does:
      all pairs or requested ones, for any assertions. */
  lemma StreamedFileGating(w: World, probe: Probe, pairs: seq<MatrixPair>, mode: Mode, assertions: seq<Assertion>)
    requires LineSafe(w.req, ListOf(w)) && ModeOf(w, true, mode)
    requires pairs == [] ==> WellNamed(w.req, ListOf(w))
    ensures var file := Lines(RunLog(w, probe, pairs, mode));
            Judged(AbsorbAll(map[], NeededKeys(assertions), ScanLines(file)), assertions)
            == Judged(MatrixOf(EnvOf(w, probe), w.req, ListOf(w), pairs), assertions)
  {
    var log := RunLog(w, probe, pairs, mode);
    PutsNamed(EnvOf(w, probe), w.req, ListOf(w), pairs, mode);
    forall e | e in log ensures PlainEntry(e) { assert NamedEntry(e, w.req, ListOf(w)); }
    FileGatingIsMatrixGating(log, assertions);
    if pairs == [] {
      KeepSetSuffices(w, true, mode);
      KeepSetSuffices(w, false, IN_MEMORY);
      StreamedLogEqualsResidentLog(EnvOf(w, probe), mode, IN_MEMORY, w.req, ListOf(w));
    }
  }

  /** The Calico provider as RunAssertions calls it, for any reading of probe keys. */
  ghost function CalicoEngine(w: World, probeOf: ProbeKey -> Probe): Assertions.Engine {
    (k: ProbeKey, pairs: seq<MatrixPair>) => Response(MatrixOf(EnvOf(w, probeOf(k)), w.req, ListOf(w), pairs), [], [])
  }

  /** It is an engine for which grouping is sound. */
  lemma CalicoEngineIsPairwise(w: World, probeOf: ProbeKey -> Probe)
    requires Arrowless(w.req, ListOf(w))
    ensures PairwiseEngine(CalicoEngine(w, probeOf))
  {
    var eval := CalicoEngine(w, probeOf);
    forall k, pairs: seq<MatrixPair>, p | p in pairs ensures Unaffected(eval, k, pairs, p) {
      PartialVerdict(EnvOf(w, probeOf(k)), w.req, ListOf(w), pairs, p);
      PartialVerdict(EnvOf(w, probeOf(k)), w.req, ListOf(w), [p], p);
    }
  }

  /** Grouped gating gives each assertion the result of gating it, alone, against the full matrix of its
      probe: service columns included, pairs never requested playing no part. */
  lemma GroupedGatingIsFullGating(w: World, probeOf: ProbeKey -> Probe, d: Defaults, assertions: seq<Assertion>, i: nat)
    requires Arrowless(w.req, ListOf(w)) && WellNamed(w.req, ListOf(w)) && i < |assertions|
    ensures var a := assertions[i];
            Assertions.Grouped(CalicoEngine(w, probeOf), d, assertions, a)
            == Judge(a, MatrixOf(EnvOf(w, probeOf(Assertions.ProbeOf(a, d))), w.req, ListOf(w), []))
  {
    var a := assertions[i];
    var env, list := EnvOf(w, probeOf(Assertions.ProbeOf(a, d))), ListOf(w);
    CalicoEngineIsPairwise(w, probeOf);
    GroupedEqualsAlone(CalicoEngine(w, probeOf), d, assertions, i);
    PartialVerdict(env, w.req, list, [PairOf(a)], PairOf(a));
    KeepSetSuffices(w, false, IN_MEMORY);
    FullVerdict(env, w.req, list, PairOf(a));
    SameVerdictSameResult(a, MatrixOf(env, w.req, list, [PairOf(a)]), MatrixOf(env, w.req, list, []));
  }

  lemma SameVerdictSameResult(a: Assertion, m1: map<string, string>, m2: map<string, string>)
    requires VerdictOf(m1, PairOf(a)) == VerdictOf(m2, PairOf(a))
    ensures Judge(a, m1) == Judge(a, m2)
  {
  }

  lemma FullVerdict(env: Env, req: Request, list: seq<Actor>, p: MatrixPair)
    requires Arrowless(req, list) && WellNamed(req, list) && BackendsKept(req, list, IN_MEMORY)
    ensures VerdictOf(MatrixOf(env, req, list, []), p) == CellVerdict(env, req, list, p)
  {
    var log := FullLog(env, IN_MEMORY, req, list);
    if HasArrow(p.from) {
      PutsNamed(env, req, list, [], IN_MEMORY);
      ArrowedKeyAbsent(log, IN_MEMORY, p.from, p.to);
    } else {
      FullMatrixCells(env, IN_MEMORY, req, list, p.from, p.to);
      PlainLookupIsLast(log, IN_MEMORY, p.from, p.to);
    }
  }

  /** The Antrea provider is such an engine as well. */
  ghost function AntreaEngine(ps: seq<Antrea.Policy>, endpoints: seq<Antrea.Endpoint>,
      parseIP: string -> Option<IP>): Assertions.Engine
  {
    (k: ProbeKey, pairs: seq<MatrixPair>) =>
      Response(Antrea.Matrix(ps, endpoints, Antrea.ProbeOf(k.proto, k.port, parseIP), pairs), [], [])
  }

  lemma AntreaEngineIsPairwise(ps: seq<Antrea.Policy>, endpoints: seq<Antrea.Endpoint>, parseIP: string -> Option<IP>)
    requires Antrea.PlainIds(endpoints)
    ensures PairwiseEngine(AntreaEngine(ps, endpoints, parseIP))
  {
    var eval := AntreaEngine(ps, endpoints, parseIP);
    forall k, pairs: seq<MatrixPair>, p | p in pairs ensures Unaffected(eval, k, pairs, p) {
      var probe := Antrea.ProbeOf(k.proto, k.port, parseIP);
      Antrea.PartialMatrixIsRestriction(ps, endpoints, probe, pairs, p.from, p.to);
      Antrea.PartialMatrixIsRestriction(ps, endpoints, probe, [p], p.from, p.to);
    }
  }
}
