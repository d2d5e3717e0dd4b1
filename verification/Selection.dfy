/** The full matrix with its service columns, the partial matrix of requested pairs, and the reference
    both are held against: one cell at a time. */
module Selection {
  import opened Text
  import opened Logs
  import opened EndpointPairs
  import opened Flows
  import opened Matrix
  import opened Topology

  // ----- the reference: one cell -----

  /** The actor an id stands for: the last of that id. */
  function ByID(list: seq<Actor>, id: string): (r: Option<Actor>)
    ensures r.Some? ==> r.value in list && r.value.id == id
  {
    if list == [] then None
    else
      var r := ByID(list[1..], id);
      if r.Some? then r else if list[0].id == id then Some(list[0]) else None
  }

  /** byID holds what ids stand for. */
  ghost predicate MapsActors(byID: map<string, Actor>, list: seq<Actor>) {
    forall id :: (if id in byID then Some(byID[id]) else None) == ByID(list, id)
  }

  ghost predicate MapsServices(m: map<string, Service>, services: seq<Service>) {
    forall c :: (if c in m then Some(m[c]) else None) == ByColumn(services, c)
  }

  /** The service a column name stands for: the last of that name. */
  function ByColumn(services: seq<Service>, col: string): (r: Option<Service>)
    ensures r.Some? ==> r.value in services && Column(r.value) == col
    ensures r.None? ==> forall s :: s in services ==> Column(s) != col
  {
    if services == [] then None
    else
      var r := ByColumn(services[1..], col);
      if r.Some? then r else if Column(services[0]) == col then Some(services[0]) else None
  }

  /** A service is reachable when some backend is, a backend reaching itself trivially. */
  ghost predicate Reaches(env: Env, list: seq<Actor>, req: Request, src: Actor, svc: Service) {
    exists b :: IsBackend(req, svc, b) && ReachesId(env, list, src, b)
  }

  ghost predicate ReachesId(env: Env, list: seq<Actor>, src: Actor, id: string) {
    id == src.id || (ByID(list, id).Some? && FlowAllows(env, src, ByID(list, id).value))
  }

  /** The verdict of one ordered pair of names, None where the matrix has no such cell. */
  ghost function Cell(env: Env, list: seq<Actor>, req: Request, src: string, dst: string): Option<bool> {
    if ByID(list, src).None? then None
    else
      var s := ByID(list, src).value;
      var svc := ByColumn(req.services, dst);
      if svc.Some? then Some(Reaches(env, list, req, s, svc.value))
      else
        var d := ByID(list, dst);
        if d.None? || src == dst then None else Some(FlowAllows(env, s, d.value))
  }

  function CellText(c: Option<bool>): Option<string> { if c.Some? then Some(VerdictText(c.value)) else None }

  // ----- logs -----

  lemma {:induction false} LastOfRow(env: Env, list: seq<Actor>, src: Actor, s: string, d: string)
    ensures Last(RowPuts(env, list, src), s, d) ==
            if s == src.id && s != d && ByID(list, d).Some?
                then Some(VerdictText(FlowAllows(env, src, ByID(list, d).value)))
            else None
  {
    if list != [] {
      LastOfRow(env, list[1..], src, s, d);
      var head := if src.id == list[0].id then [] else [PairEntry(env, src, list[0])];
      LastAppend(head, RowPuts(env, list[1..], src), s, d);
      LastOne(PairEntry(env, src, list[0]), s, d);
    }
  }

  /** The pair loop leaves, for each ordered pair of distinct ids, the verdict of their last actors. */
  lemma {:induction false} LastOfAll(env: Env, list: seq<Actor>, sources: seq<Actor>, s: string, d: string)
    ensures Last(AllPuts(env, list, sources), s, d) ==
            if ByID(sources, s).Some? && s != d && ByID(list, d).Some?
            then Some(VerdictText(FlowAllows(env, ByID(sources, s).value, ByID(list, d).value)))
            else None
  {
    if sources != [] {
      LastOfAll(env, list, sources[1..], s, d);
      LastOfRow(env, list, sources[0], s, d);
      LastAppend(RowPuts(env, list, sources[0]), AllPuts(env, list, sources[1..]), s, d);
    }
  }

  // ----- service columns -----

  ghost predicate ColumnAllows(m: map<string, string>, req: Request, svc: Service, src: string) {
    exists b :: IsBackend(req, svc, b) && (b == src || Lookup(m, src, b) == "allow")
  }

  /** One service's column, put source by source; each verdict reads what is resident at that moment. */
  ghost function ColumnLog(log: seq<Entry>, mode: Mode, req: Request, svc: Service, sources: seq<Actor>): seq<Entry>
    decreases sources
  {
    if sources == [] then log
    else
      var allow := ColumnAllows(Resident(log, mode), req, svc, sources[0].id);
      ColumnLog(log + [Entry(sources[0].id, Column(svc), VerdictText(allow))], mode, req, svc, sources[1..])
  }

  ghost function ServiceLog(log: seq<Entry>, mode: Mode, req: Request, services: seq<Service>,
      list: seq<Actor>): seq<Entry>
    decreases services
  {
    if services == [] then log
    else ServiceLog(ColumnLog(log, mode, req, services[0], list), mode, req, services[1..], list)
  }

  method AddColumn(sink: MatrixSink, req: Request, svc: Service, backends: seq<string>, list: seq<Actor>)
    requires sink.Valid() && forall b :: b in backends <==> IsBackend(req, svc, b)
    modifies sink
    ensures sink.Valid() && sink.log == ColumnLog(old(sink.log), sink.mode, req, svc, list)
  {
    ghost var column := ColumnLog(sink.log, sink.mode, req, svc, list);
    assert list[0..] == list;
    for i := 0 to |list|
      invariant sink.Valid() && ColumnLog(sink.log, sink.mode, req, svc, list[i..]) == column
    {
      ColumnNext(sink.log, sink.mode, req, svc, list, i);
      PutServiceCell(sink, req, svc, backends, list[i].id);
    }
  }

  lemma ColumnNext(log: seq<Entry>, mode: Mode, req: Request, svc: Service, list: seq<Actor>, i: nat)
    requires i < |list|
    ensures var allow := ColumnAllows(Resident(log, mode), req, svc, list[i].id);
            var e := Entry(list[i].id, Column(svc), VerdictText(allow));
            ColumnLog(log, mode, req, svc, list[i..]) == ColumnLog(log + [e], mode, req, svc, list[i + 1..])
  {
    assert list[i..][0] == list[i] && list[i..][1..] == list[i + 1..];
  }

  method PutServiceCell(sink: MatrixSink, req: Request, svc: Service, backends: seq<string>, src: string)
    requires sink.Valid() && forall b :: b in backends <==> IsBackend(req, svc, b)
    modifies sink
    ensures sink.Valid()
    ensures sink.log == old(sink.log) +
            [Entry(src, Column(svc), VerdictText(ColumnAllows(Resident(old(sink.log), sink.mode), req, svc, src)))]
  {
    var allow := AnyBackend(sink, backends, src);
    sink.Put(src, "svc/" + svc.ns + "/" + svc.name, VerdictText(allow));
  }

  method AnyBackend(sink: MatrixSink, backends: seq<string>, src: string) returns (allow: bool)
    requires sink.Valid()
    ensures allow <==>
            exists b :: b in backends && (b == src || Lookup(Resident(sink.log, sink.mode), src, b) == "allow")
  {
    allow := false;
    for i := 0 to |backends|
      invariant !allow && forall k :: 0 <= k < i ==>
                  backends[k] != src && Lookup(Resident(sink.log, sink.mode), src, backends[k]) != "allow"
    {
      var got := sink.Get(src, backends[i]);
      if backends[i] == src || got == "allow" {
        return true;
      }
    }
  }

  /** addServiceColumns. */
  method AddServiceColumns(sink: MatrixSink, req: Request, list: seq<Actor>)
    requires sink.Valid()
    modifies sink
    ensures sink.Valid() && sink.log == ServiceLog(old(sink.log), sink.mode, req, req.services, list)
  {
    var ipToID := IpToID(req.endpoints);
    var services := req.services;
    for i := 0 to |services|
      invariant sink.Valid()
      invariant ServiceLog(sink.log, sink.mode, req, services[i..], list) ==
                ServiceLog(old(sink.log), sink.mode, req, services, list)
    {
      assert services[i..][0] == services[i] && services[i..][1..] == services[i + 1..];
      var backends := ServiceBackendIDs(req, services[i], ipToID);
      AddColumn(sink, req, services[i], backends, list);
    }
  }

  // ----- the full matrix, cell by cell -----

  /** No id holds an arrow, and no backend is named like a service column, which would overwrite its own. */
  ghost predicate WellNamed(req: Request, list: seq<Actor>) {
    && (forall a :: a in list ==> !HasArrow(a.id))
    && (forall s, b :: s in req.services && IsBackend(req, s, b) ==> ByColumn(req.services, b).None?)
  }

  /** Every backend is a row, and its column is resident. */
  ghost predicate BackendsKept(req: Request, list: seq<Actor>, mode: Mode) {
    forall s, b :: s in req.services && IsBackend(req, s, b) ==> ByID(list, b).Some? && Retained(mode, b)
  }

  /** The log agrees with the cells on every actor column that is no service column as well. */
  ghost predicate ActorCells(log: seq<Entry>, env: Env, req: Request, list: seq<Actor>) {
    forall s, d :: ByID(list, d).Some? && ByColumn(req.services, d).None? ==>
      Last(log, s, d) == if ByID(list, s).Some? && s != d
                         then Some(VerdictText(FlowAllows(env, ByID(list, s).value, ByID(list, d).value))) else None
  }

  /** The state of the log while columns are added: actor cells as before, plain sources. */
  ghost predicate Settled(log: seq<Entry>, env: Env, req: Request, list: seq<Actor>) {
    PlainSources(log) && ActorCells(log, env, req, list)
  }

  lemma ColumnVerdict(log: seq<Entry>, mode: Mode, env: Env, req: Request, list: seq<Actor>, svc: Service, src: Actor)
    requires Settled(log, env, req, list) && WellNamed(req, list) && BackendsKept(req, list, mode)
    requires svc in req.services && src in list
    ensures ByID(list, src.id).Some?
    ensures ColumnAllows(Resident(log, mode), req, svc, src.id) <==>
            Reaches(env, list, req, ByID(list, src.id).value, svc)
  {
    ByIDOfMember(list, src);
    var s := ByID(list, src.id).value;
    forall b | IsBackend(req, svc, b) && b != src.id
      ensures Lookup(Resident(log, mode), src.id, b) == "allow" <==> FlowAllows(env, s, ByID(list, b).value)
    {
      PlainLookupIsLast(log, mode, src.id, b);
    }
  }

  lemma {:induction false} ByIDOfMember(list: seq<Actor>, a: Actor)
    requires a in list
    ensures ByID(list, a.id).Some?
  {
    if a != list[0] { ByIDOfMember(list[1..], a); }
  }

  lemma ColumnStep(log: seq<Entry>, mode: Mode, env: Env, req: Request, list: seq<Actor>, svc: Service, src: Actor)
    requires Settled(log, env, req, list) && WellNamed(req, list) && BackendsKept(req, list, mode)
    requires svc in req.services && src in list
    ensures ByID(list, src.id).Some?
    ensures var e := Entry(src.id, Column(svc), VerdictText(Reaches(env, list, req, ByID(list, src.id).value, svc)));
            && Entry(src.id, Column(svc), VerdictText(ColumnAllows(Resident(log, mode), req, svc, src.id))) == e
            && Settled(log + [e], env, req, list)
  {
    ColumnVerdict(log, mode, env, req, list, svc, src);
    var e := Entry(src.id, Column(svc), VerdictText(Reaches(env, list, req, ByID(list, src.id).value, svc)));
    forall s, d | ByID(list, d).Some? && ByColumn(req.services, d).None?
      ensures Last(log + [e], s, d) == Last(log, s, d)
    {
      LastAppend(log, [e], s, d);
      LastOne(e, s, d);
    }
  }

  /** After one column: its cells are right, all others as before. */
  lemma {:induction false} ColumnLast(log: seq<Entry>, mode: Mode, env: Env, req: Request, list: seq<Actor>,
      svc: Service, sources: seq<Actor>, s: string, d: string)
    requires Settled(log, env, req, list) && WellNamed(req, list) && BackendsKept(req, list, mode)
    requires svc in req.services && forall a :: a in sources ==> a in list
    ensures var out := ColumnLog(log, mode, req, svc, sources);
            && Settled(out, env, req, list)
            && Last(out, s, d) ==
               if d == Column(svc) && ByID(sources, s).Some? && ByID(list, s).Some?
               then Some(VerdictText(Reaches(env, list, req, ByID(list, s).value, svc))) else Last(log, s, d)
    decreases sources
  {
    if sources != [] {
      var src := sources[0];
      ColumnStep(log, mode, env, req, list, svc, src);
      var e := Entry(src.id, Column(svc), VerdictText(Reaches(env, list, req, ByID(list, src.id).value, svc)));
      ColumnLast(log + [e], mode, env, req, list, svc, sources[1..], s, d);
      LastAppend(log, [e], s, d);
      LastOne(e, s, d);
    }
  }

  lemma {:induction false} ServiceLast(log: seq<Entry>, mode: Mode, env: Env, req: Request, list: seq<Actor>,
                                       services: seq<Service>, s: string, d: string)
    requires Settled(log, env, req, list) && WellNamed(req, list) && BackendsKept(req, list, mode)
    requires forall v :: v in services ==> v in req.services
    ensures var out := ServiceLog(log, mode, req, services, list);
            && Settled(out, env, req, list)
            && Last(out, s, d) ==
               if ByColumn(services, d).Some? && ByID(list, s).Some?
               then Some(VerdictText(Reaches(env, list, req, ByID(list, s).value, ByColumn(services, d).value)))
                   else Last(log, s, d)
    decreases services
  {
    if services != [] {
      ColumnLast(log, mode, env, req, list, services[0], list, s, d);
      ServiceLast(ColumnLog(log, mode, req, services[0], list), mode, env, req, list, services[1..], s, d);
    }
  }

  lemma {:induction false} AllPutsSources(env: Env, list: seq<Actor>, sources: seq<Actor>)
    requires forall a :: a in sources ==> !HasArrow(a.id)
    ensures PlainSources(AllPuts(env, list, sources))
  {
    if sources != [] {
      AllPutsSources(env, list, sources[1..]);
      RowSources(env, list, sources[0]);
    }
  }

  lemma {:induction false} RowSources(env: Env, list: seq<Actor>, src: Actor)
    ensures forall e :: e in RowPuts(env, list, src) ==> e.src == src.id
  {
    if list != [] { RowSources(env, list[1..], src); }
  }

  ghost function FullLog(env: Env, mode: Mode, req: Request, list: seq<Actor>): seq<Entry> {
    ServiceLog(AllPuts(env, list, list), mode, req, req.services, list)
  }

  /** The full matrix holds exactly the reference cells, resident or streamed. */
  lemma FullMatrixCells(env: Env, mode: Mode, req: Request, list: seq<Actor>, s: string, d: string)
    requires WellNamed(req, list) && BackendsKept(req, list, mode)
    ensures Last(FullLog(env, mode, req, list), s, d) == CellText(Cell(env, list, req, s, d))
    ensures PlainSources(FullLog(env, mode, req, list))
  {
    var log := AllPuts(env, list, list);
    AllPutsSources(env, list, list);
    forall s, d ensures Last(log, s, d) ==
        if ByID(list, s).Some? && s != d && ByID(list, d).Some?
        then Some(VerdictText(FlowAllows(env, ByID(list, s).value, ByID(list, d).value))) else None
    {
      LastOfAll(env, list, list, s, d);
    }
    ServiceLast(log, mode, env, req, list, req.services, s, d);
  }

  lemma ColumnParts(a: Service, b: Service)
    requires '/' !in a.ns && '/' !in b.ns && Column(a) == Column(b)
    ensures a.ns == b.ns && a.name == b.name
  {
    var ta, tb := Column(a)[4..], Column(b)[4..];
    assert ta == a.ns + ['/'] + a.name && tb == b.ns + ['/'] + b.name;
    IndexOfAt(a.ns, '/', a.name);
    IndexOfAt(b.ns, '/', b.name);
    assert a.ns == ta[..|a.ns|] && b.ns == tb[..|b.ns|] && a.name == ta[|a.ns| + 1..] && b.name == tb[|b.ns| + 1..];
  }

  /** The service is the last of its namespace and name. */
  predicate LastNamed(services: seq<Service>, n: nat) {
    && n < |services| && (forall s :: s in services ==> '/' !in s.ns)
    && forall m :: n < m < |services| ==> services[m].ns != services[n].ns || services[m].name != services[n].name
  }

  lemma {:induction false} ByColumnOfLast(services: seq<Service>, n: nat)
    requires LastNamed(services, n)
    ensures ByColumn(services, Column(services[n])) == Some(services[n])
  {
    var rest := services[1..];
    forall s | s in rest ensures s in services {
    }
    if n > 0 {
      assert forall m :: 0 <= m < |rest| ==> rest[m] == services[m + 1];
      ByColumnOfLast(rest, n - 1);
    } else {
      var r := ByColumn(rest, Column(services[0]));
      if r.Some? {
        var m :| 0 <= m < |rest| && rest[m] == r.value;
        assert services[m + 1] == r.value;
        ColumnParts(r.value, services[0]);
      }
    }
  }

  /** The cell of an actor and a service, under the service's text: whether the actor backs it or reaches a backend. */
  lemma ServiceCell(env: Env, mode: Mode, req: Request, list: seq<Actor>, a: Actor, n: nat)
    requires WellNamed(req, list) && BackendsKept(req, list, mode) && a in list && LastNamed(req.services, n)
    requires Retained(mode, "svc/" + req.services[n].ns + "/" + req.services[n].name)
    ensures ByID(list, a.id).Some?
    ensures var svc := req.services[n];
            var m, key := Resident(FullLog(env, mode, req, list), mode), a.id + "->svc/" + svc.ns + "/" + svc.name;
            && key in m && (m[key] == "allow" || m[key] == "deny")
            && (m[key] == "allow" <==> Reaches(env, list, req, ByID(list, a.id).value, svc))
  {
    var svc := req.services[n];
    ByIDOfMember(list, a);
    ByColumnOfLast(req.services, n);
    FullMatrixCells(env, mode, req, list, a.id, Column(svc));
    PlainLookupIsLast(FullLog(env, mode, req, list), mode, a.id, Column(svc));
    assert FlowKey(a.id, Column(svc)) == a.id + "->svc/" + svc.ns + "/" + svc.name;
  }

  // ----- the partial matrix -----

  /** The puts of fillMatrixPairs: each requested pair that has a cell, once. */
  ghost function PairPuts(env: Env, list: seq<Actor>, req: Request, pairs: seq<MatrixPair>): seq<Entry> {
    if pairs == [] then []
    else
      var n := |pairs| - 1;
      if pairs[n] in pairs[..n] then PairPuts(env, list, req, pairs[..n])
      else PairPuts(env, list, req, pairs[..n]) + CellPut(env, list, req, pairs[n])
  }

  /** The local closures of fillMatrixPairs: verdicts cached by pair of ids, backends by column. */
  class PairCache {
    ghost const env: Env
    ghost const list: seq<Actor>
    ghost const req: Request
    var cache: map<MatrixPair, bool>
    var backends: map<string, seq<string>>

    ghost predicate Valid()
      reads this
    {
      && (forall p :: p in cache ==>
            (ByID(list, p.from).Some? && ByID(list, p.to).Some?
             && cache[p] == FlowAllows(env, ByID(list, p.from).value, ByID(list, p.to).value)))
      && (forall c :: c in backends ==>
            (ByColumn(req.services, c).Some?
             && forall b :: b in backends[c] <==> IsBackend(req, ByColumn(req.services, c).value, b)))
    }

    constructor (ghost env: Env, ghost list: seq<Actor>, ghost req: Request)
      ensures Valid() && this.env == env && this.list == list && this.req == req
    {
      this.env, this.list, this.req := env, list, req;
      cache, backends := map[], map[];
    }

    method Allows(e: Env, src: Actor, dst: Actor) returns (allow: bool)
      requires Valid() && e == env && ByID(list, src.id) == Some(src) && ByID(list, dst.id) == Some(dst)
      modifies this
      ensures Valid() && allow == FlowAllows(env, src, dst)
      ensures MatrixPair(src.id, dst.id) in cache
    {
      var key := MatrixPair(src.id, dst.id);
      if key in cache {
        return cache[key];
      }
      var eot;
      allow, eot := EvalFlow(e, src, dst);
      cache := cache[key := allow];
    }

    method Backends(r: Request, svc: Service, ipToID: map<string, string>) returns (ids: seq<string>)
      requires Valid() && r == req && ByColumn(req.services, Column(svc)) == Some(svc)
      requires MapsIPs(ipToID, r.endpoints)
      modifies this
      ensures Valid() && forall b :: b in ids <==> IsBackend(req, svc, b)
      ensures Column(svc) in backends
    {
      if Column(svc) in backends {
        return backends[Column(svc)];
      }
      ids := ServiceBackendIDs(r, svc, ipToID);
      backends := backends[Column(svc) := ids];
    }
  }

  /** One backend of reachesService: the source itself, or a known actor that the source reaches. */
  method ReachesBackend(c: PairCache, env: Env, list: seq<Actor>, byID: map<string, Actor>, src: Actor, id: string)
    returns (ok: bool)
    requires c.Valid() && c.env == env && c.list == list && ByID(list, src.id) == Some(src)
    requires MapsActors(byID, list)
    modifies c
    ensures c.Valid() && (ok <==> ReachesId(env, list, src, id))
  {
    ok := id == src.id;
    if !ok && id in byID {
      ok := c.Allows(env, src, byID[id]);
    }
  }

  method ReachesService(c: PairCache, env: Env, list: seq<Actor>, byID: map<string, Actor>, src: Actor,
      ids: seq<string>, ghost svc: Service)
    returns (allow: bool)
    requires c.Valid() && c.env == env && c.list == list && ByID(list, src.id) == Some(src)
    requires MapsActors(byID, list)
    requires forall b :: b in ids <==> IsBackend(c.req, svc, b)
    modifies c
    ensures c.Valid() && (allow <==> Reaches(env, list, c.req, src, svc))
  {
    allow := false;
    for i := 0 to |ids|
      invariant c.Valid() && !allow
      invariant forall k :: 0 <= k < i ==> !ReachesId(env, list, src, ids[k])
    {
      var ok := ReachesBackend(c, env, list, byID, src, ids[i]);
      if ok {
        assert ids[i] in ids;
        return true;
      }
    }
  }

  method IndexByID(list: seq<Actor>) returns (byID: map<string, Actor>)
    ensures MapsActors(byID, list)
  {
    byID := map[];
    for i := 0 to |list|
      invariant MapsActors(byID, list[..i])
    {
      ByIDSnoc(list[..i], list[i]);
      assert list[..i + 1] == list[..i] + [list[i]];
      byID := byID[list[i].id := list[i]];
    }
    assert list[..|list|] == list;
  }

  lemma {:induction false} ByIDSnoc(list: seq<Actor>, a: Actor)
    ensures forall id :: ByID(list + [a], id) == if a.id == id then Some(a) else ByID(list, id)
  {
    if list != [] {
      ByIDSnoc(list[1..], a);
      assert (list + [a])[1..] == list[1..] + [a];
    }
  }

  method IndexServices(services: seq<Service>) returns (m: map<string, Service>)
    ensures MapsServices(m, services)
  {
    m := map[];
    for i := 0 to |services|
      invariant MapsServices(m, services[..i])
    {
      ByColumnSnoc(services[..i], services[i]);
      assert services[..i + 1] == services[..i] + [services[i]];
      m := m[Column(services[i]) := services[i]];
    }
    assert services[..|services|] == services;
  }

  lemma {:induction false} ByColumnSnoc(services: seq<Service>, v: Service)
    ensures forall c :: ByColumn(services + [v], c) == if Column(v) == c then Some(v) else ByColumn(services, c)
  {
    if services != [] {
      ByColumnSnoc(services[1..], v);
      assert (services + [v])[1..] == services[1..] + [v];
    }
  }

  /** One requested pair: its cell, or nothing. */
  method EvalPair(c: PairCache, env: Env, list: seq<Actor>, req: Request, byID: map<string, Actor>,
                  services: map<string, Service>, ipToID: map<string, string>, pair: MatrixPair)
    returns (cell: Option<bool>)
    requires c.Valid() && c.env == env && c.list == list && c.req == req
    requires MapsActors(byID, list)
    requires MapsServices(services, req.services)
    requires MapsIPs(ipToID, req.endpoints)
    modifies c
    ensures c.Valid() && cell == Cell(env, list, req, pair.from, pair.to)
  {
    if pair.from !in byID {
      return None;
    }
    var src := byID[pair.from];
    if pair.to in services {
      var svc := services[pair.to];
      var ids := c.Backends(req, svc, ipToID);
      var allow := ReachesService(c, env, list, byID, src, ids, svc);
      return Some(allow);
    }
    if pair.to !in byID || src.id == pair.to {
      return None;
    }
    var allow := c.Allows(env, src, byID[pair.to]);
    return Some(allow);
  }

  ghost function CellPut(env: Env, list: seq<Actor>, req: Request, pair: MatrixPair): seq<Entry> {
    var c := Cell(env, list, req, pair.from, pair.to);
    if c.None? then [] else [Entry(pair.from, pair.to, VerdictText(c.value))]
  }

  method PutPair(sink: MatrixSink, c: PairCache, env: Env, list: seq<Actor>, req: Request, byID: map<string, Actor>,
                 services: map<string, Service>, ipToID: map<string, string>, pair: MatrixPair)
    requires sink.Valid() && c.Valid() && c.env == env && c.list == list && c.req == req
    requires MapsActors(byID, list)
    requires MapsServices(services, req.services)
    requires MapsIPs(ipToID, req.endpoints)
    modifies sink, c
    ensures sink.Valid() && c.Valid() && sink.log == old(sink.log) + CellPut(env, list, req, pair)
  {
    var cell := EvalPair(c, env, list, req, byID, services, ipToID, pair);
    if cell.Some? {
      sink.Put(pair.from, pair.to, VerdictText(cell.value));
    }
  }

  lemma PairPutsStep(env: Env, list: seq<Actor>, req: Request, pairs: seq<MatrixPair>, i: nat)
    requires i < |pairs|
    ensures PairPuts(env, list, req, pairs[..i + 1]) ==
            if pairs[i] in pairs[..i] then PairPuts(env, list, req, pairs[..i])
            else PairPuts(env, list, req, pairs[..i]) + CellPut(env, list, req, pairs[i])
  {
    assert pairs[..i + 1][..i] == pairs[..i] && pairs[..i + 1][i] == pairs[i];
  }

  /** The loop of fillMatrixPairs over the requested pairs. */
  method PutPairs(sink: MatrixSink, c: PairCache, env: Env, list: seq<Actor>, req: Request, byID: map<string, Actor>,
                  services: map<string, Service>, ipToID: map<string, string>, pairs: seq<MatrixPair>)
    requires sink.Valid() && c.Valid() && c.env == env && c.list == list && c.req == req
    requires MapsActors(byID, list)
    requires MapsServices(services, req.services)
    requires MapsIPs(ipToID, req.endpoints)
    modifies sink, c
    ensures sink.Valid() && sink.log == old(sink.log) + PairPuts(env, list, req, pairs)
  {
    var seen: set<MatrixPair> := {};
    ghost var start := sink.log;
    for i := 0 to |pairs|
      invariant sink.Valid() && c.Valid() && sink.log == start + PairPuts(env, list, req, pairs[..i])
      invariant Seen(seen, byID, pairs[..i])
    {
      var pair := pairs[i];
      PairPutsNext(start, env, list, req, byID, pairs, i);
      SeenStep(seen, byID, pairs, i);
      if pair.from in byID && pair !in seen {
        seen := seen + {pair};
        PutPair(sink, c, env, list, req, byID, services, ipToID, pair);
      }
    }
    assert pairs[..|pairs|] == pairs;
  }

  lemma PairPutsNext(start: seq<Entry>, env: Env, list: seq<Actor>, req: Request, byID: map<string, Actor>,
      pairs: seq<MatrixPair>, i: nat)
    requires i < |pairs| && MapsActors(byID, list)
    ensures start + PairPuts(env, list, req, pairs[..i + 1]) ==
            if pairs[i] in pairs[..i] || pairs[i].from !in byID then start + PairPuts(env, list, req, pairs[..i])
            else start + PairPuts(env, list, req, pairs[..i]) + CellPut(env, list, req, pairs[i])
  {
    PairPutsStep(env, list, req, pairs, i);
    Assoc(start, PairPuts(env, list, req, pairs[..i]), CellPut(env, list, req, pairs[i]));
    UnknownHasNoCell(env, list, req, byID, PairPuts(env, list, req, pairs[..i]), pairs[i]);
  }

  /** The pairs whose source is known, taken up so far. */
  ghost predicate Seen(seen: set<MatrixPair>, byID: map<string, Actor>, pairs: seq<MatrixPair>) {
    forall p: MatrixPair :: p in seen <==> p in pairs && p.from in byID
  }

  lemma SeenStep(seen: set<MatrixPair>, byID: map<string, Actor>, pairs: seq<MatrixPair>, i: nat)
    requires i < |pairs| && Seen(seen, byID, pairs[..i])
    ensures var p := pairs[i];
            Seen(if p.from in byID && p !in seen then seen + {p} else seen, byID, pairs[..i + 1])
  {
    assert pairs[..i + 1] == pairs[..i] + [pairs[i]];
  }

  lemma UnknownHasNoCell(env: Env, list: seq<Actor>, req: Request, byID: map<string, Actor>, done: seq<Entry>,
      pair: MatrixPair)
    requires MapsActors(byID, list)
    ensures pair.from !in byID ==> done + CellPut(env, list, req, pair) == done
  {
  }

  /** fillMatrixPairs: verdicts are cached, duplicates skipped, unknown ids and self-pairs left out. */
  method FillMatrixPairs(sink: MatrixSink, env: Env, list: seq<Actor>, req: Request, pairs: seq<MatrixPair>)
    requires sink.Valid()
    modifies sink
    ensures sink.Valid() && sink.log == old(sink.log) + PairPuts(env, list, req, pairs)
  {
    var byID := IndexByID(list);
    var services := IndexServices(req.services);
    var ipToID := IpToID(req.endpoints);
    var c := new PairCache(env, list, req);
    PutPairs(sink, c, env, list, req, byID, services, ipToID, pairs);
  }

  lemma CellPutLast(env: Env, list: seq<Actor>, req: Request, p: MatrixPair, s: string, d: string)
    ensures Last(CellPut(env, list, req, p), s, d) ==
            if p == MatrixPair(s, d) then CellText(Cell(env, list, req, s, d)) else None
  {
    var c := Cell(env, list, req, p.from, p.to);
    if c.Some? {
      LastOne(Entry(p.from, p.to, VerdictText(c.value)), s, d);
    }
  }

  lemma {:induction false} PartialMatrixCells(env: Env, list: seq<Actor>, req: Request, pairs: seq<MatrixPair>,
      s: string, d: string)
    ensures Last(PairPuts(env, list, req, pairs), s, d) ==
            if MatrixPair(s, d) in pairs then CellText(Cell(env, list, req, s, d)) else None
  {
    if pairs != [] {
      var n := |pairs| - 1;
      var before, last := pairs[..n], pairs[n];
      PartialMatrixCells(env, list, req, before, s, d);
      InSnoc(pairs, n, MatrixPair(s, d));
      if last !in before {
        CellPutLast(env, list, req, last, s, d);
        LastAppend(PairPuts(env, list, req, before), CellPut(env, list, req, last), s, d);
      } else {
        assert PairPuts(env, list, req, pairs) == PairPuts(env, list, req, before);
      }
    }
  }

  /** A partial matrix is the full matrix restricted to the requested pairs: same cells, same verdicts. */
  lemma PartialIsRestriction(env: Env, mode: Mode, req: Request, list: seq<Actor>, pairs: seq<MatrixPair>,
      s: string, d: string)
    requires WellNamed(req, list) && BackendsKept(req, list, mode)
    ensures Last(PairPuts(env, list, req, pairs), s, d) ==
            if MatrixPair(s, d) in pairs then Last(FullLog(env, mode, req, list), s, d) else None
  {
    FullMatrixCells(env, mode, req, list, s, d);
    PartialMatrixCells(env, list, req, pairs, s, d);
  }

  // ----- a backend named like a service -----

  /** Two services and two actors: the first service has no backend, and the second one's is an actor named like the
      first service. */
  ghost predicate Shadowed(req: Request, list: seq<Actor>, other: Service, svc: Service, x: Actor, y: Actor) {
    && req.services == [other, svc] && list == [x, y] && x.id != y.id && !HasArrow(x.id) && !HasArrow(y.id)
    && Column(other) == y.id && Column(svc) != y.id
    && forall b :: !IsBackend(req, other, b) && (IsBackend(req, svc, b) <==> b == y.id)
  }

  /** The column of a service that has no backend denies everywhere. */
  lemma {:induction false} EmptyColumn(log: seq<Entry>, mode: Mode, req: Request, svc: Service, sources: seq<Actor>,
                                       s: string, d: string)
    requires forall b :: !IsBackend(req, svc, b)
    requires PlainSources(log) && forall a :: a in sources ==> !HasArrow(a.id)
    ensures PlainSources(ColumnLog(log, mode, req, svc, sources))
    ensures Last(ColumnLog(log, mode, req, svc, sources), s, d) ==
            if d == Column(svc) && ByID(sources, s).Some? then Some("deny") else Last(log, s, d)
    decreases sources
  {
    if sources != [] {
      var e := Entry(sources[0].id, Column(svc), "deny");
      LastAppend(log, [e], s, d);
      LastOne(e, s, d);
      EmptyColumn(log + [e], mode, req, svc, sources[1..], s, d);
    }
  }

  /** Then the full matrix denies x the second service although its backend is reachable, since the first service's
      column has overwritten the backend's; a request for that pair alone answers right. */
  lemma BackendColumnOverwritten(env: Env, req: Request, list: seq<Actor>, other: Service, svc: Service, x: Actor,
                                 y: Actor, mode: Mode)
    requires Shadowed(req, list, other, svc, x, y) && FlowAllows(env, x, y) && !mode.streaming
    ensures Last(FullLog(env, mode, req, list), x.id, Column(svc)) == Some("deny")
    ensures Last(PairPuts(env, list, req, [MatrixPair(x.id, Column(svc))]), x.id, Column(svc)) == Some("allow")
  {
    var log := ColumnLog(AllPuts(env, list, list), mode, req, other, list);
    ReachedThroughShadow(env, req, list, other, svc, x, y, mode);
    ColumnOfTwo(log, mode, req, svc, x, y);
    TwoColumns(AllPuts(env, list, list), mode, req, other, svc, list);
    PartialMatrixCells(env, list, req, [MatrixPair(x.id, Column(svc))], x.id, Column(svc));
    TwoServices(env, req, list, other, svc, x, y);
  }

  /** The second column reads the first one's deny where it looks for the backend. */
  lemma ReachedThroughShadow(env: Env, req: Request, list: seq<Actor>, other: Service, svc: Service, x: Actor,
                             y: Actor, mode: Mode)
    requires Shadowed(req, list, other, svc, x, y) && !mode.streaming
    ensures !ColumnAllows(Resident(ColumnLog(AllPuts(env, list, list), mode, req, other, list), mode), req, svc, x.id)
  {
    var puts := AllPuts(env, list, list);
    AllPutsSources(env, list, list);
    ByIDOfMember(list, x);
    EmptyColumn(puts, mode, req, other, list, x.id, y.id);
    PlainLookupIsLast(ColumnLog(puts, mode, req, other, list), mode, x.id, y.id);
  }

  lemma TwoColumns(log: seq<Entry>, mode: Mode, req: Request, a: Service, b: Service, list: seq<Actor>)
    ensures ServiceLog(log, mode, req, [a, b], list)
            == ColumnLog(ColumnLog(log, mode, req, a, list), mode, req, b, list)
  {
    var first := ColumnLog(log, mode, req, a, list);
    assert [a, b][1..] == [b] && [b][1..] == [];
    assert ServiceLog(first, mode, req, [b], list) == ColumnLog(first, mode, req, b, list);
  }

  lemma ColumnOfTwo(log: seq<Entry>, mode: Mode, req: Request, svc: Service, x: Actor, y: Actor)
    requires x.id != y.id
    ensures Last(ColumnLog(log, mode, req, svc, [x, y]), x.id, Column(svc)) ==
            Some(VerdictText(ColumnAllows(Resident(log, mode), req, svc, x.id)))
  {
    var e := Entry(x.id, Column(svc), VerdictText(ColumnAllows(Resident(log, mode), req, svc, x.id)));
    var e' := Entry(y.id, Column(svc), VerdictText(ColumnAllows(Resident(log + [e], mode), req, svc, y.id)));
    assert [x, y][1..] == [y] && [y][1..] == [];
    assert ColumnLog(log + [e], mode, req, svc, [y]) == log + [e] + [e'];
    LastOfTwo(log, e, e');
  }

  lemma LastOfTwo(log: seq<Entry>, e1: Entry, e2: Entry)
    requires e1.src != e2.src
    ensures Last(log + [e1] + [e2], e1.src, e1.dst) == Some(e1.verdict)
  {
    LastAppend(log + [e1], [e2], e1.src, e1.dst);
    LastAppend(log, [e1], e1.src, e1.dst);
    LastOne(e1, e1.src, e1.dst);
    LastOne(e2, e1.src, e1.dst);
  }

  lemma TwoServices(env: Env, req: Request, list: seq<Actor>, other: Service, svc: Service, x: Actor, y: Actor)
    requires Shadowed(req, list, other, svc, x, y) && FlowAllows(env, x, y)
    ensures Cell(env, list, req, x.id, Column(svc)) == Some(true)
  {
    ActorsOfTwo(x, y);
    assert IsBackend(req, svc, y.id) && ReachesId(env, list, x, y.id);
    assert req.services[1..] == [svc] && [svc][1..] == [];
    assert ByColumn([svc], Column(svc)) == Some(svc);
  }

  lemma ActorsOfTwo(x: Actor, y: Actor)
    requires x.id != y.id
    ensures ByID([x, y], x.id) == Some(x) && ByID([x, y], y.id) == Some(y)
  {
    assert [x, y][1..] == [y] && [y][1..] == [];
    assert ByID([y], x.id) == None && ByID([y], y.id) == Some(y);
  }
}
