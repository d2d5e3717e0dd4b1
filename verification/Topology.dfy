/** Requests as the evaluation sees them: endpoints, host endpoints, services with the endpoints behind them,
    and the actor list built from all of these. */
module Topology {
  import opened Text
  import opened Addr = Addresses
  import opened Checker
  import opened Flows

  datatype Endpoint = Endpoint(id: string, ns: string, ip: string, labels: map<string, string>,
                               node: string, unpoliced: bool, role: string)

  datatype HostEndpoint = HostEndpoint(name: string, node: string, interfaceName: string, expectedIPs: seq<string>)

  datatype Service = Service(ns: string, name: string, selector: map<string, string>)

  datatype EndpointSlice = EndpointSlice(ns: string, serviceName: string, addresses: seq<string>)

  datatype Request = Request(endpoints: seq<Endpoint>, hostEndpoints: seq<HostEndpoint>,
                             services: seq<Service>, slices: seq<EndpointSlice>)

  function Column(svc: Service): string { "svc/" + svc.ns + "/" + svc.name }

  // ----- service backends -----

  function Label(labels: map<string, string>, k: string): string { if k in labels then labels[k] else "" }

  /** labelsMatch: an empty selector selects nothing. */
  predicate LabelsMatch(have: map<string, string>, want: map<string, string>) {
    |want| > 0 && forall k :: k in want ==> Label(have, k) == want[k]
  }

  predicate Selected(svc: Service, e: Endpoint, addr: string) {
    e.ns == svc.ns && LabelsMatch(e.labels, svc.selector) && e.ip == addr
  }

  predicate Explicit(req: Request, svc: Service) {
    exists s :: s in req.slices && s.serviceName == svc.name && s.ns == svc.ns
  }

  /** The addresses behind a service: its slices when it has any, else the endpoints it selects. */
  predicate IsAddress(req: Request, svc: Service, addr: string) {
    if Explicit(req, svc) then
      exists s :: s in req.slices && s.serviceName == svc.name && s.ns == svc.ns && addr in s.addresses
    else
      addr != "" && exists e :: e in req.endpoints && Selected(svc, e, addr)
  }

  /** ipToID: the last endpoint with the address. */
  function IdOfIP(endpoints: seq<Endpoint>, ip: string): Option<string> {
    if endpoints == [] then None
    else
      var e := endpoints[|endpoints| - 1];
      if e.ip != "" && e.ip == ip then Some(e.id) else IdOfIP(endpoints[..|endpoints| - 1], ip)
  }

  predicate IsBackend(req: Request, svc: Service, id: string) {
    exists e :: e in req.endpoints && IsAddress(req, svc, e.ip) && IdOfIP(req.endpoints, e.ip) == Some(id)
  }

  ghost predicate MapsIPs(m: map<string, string>, endpoints: seq<Endpoint>) {
    forall ip :: (if ip in m then Some(m[ip]) else None) == IdOfIP(endpoints, ip)
  }

  method IpToID(endpoints: seq<Endpoint>) returns (m: map<string, string>)
    ensures MapsIPs(m, endpoints)
  {
    m := map[];
    for i := 0 to |endpoints|
      invariant MapsIPs(m, endpoints[..i])
    {
      assert endpoints[..i + 1][..i] == endpoints[..i];
      if endpoints[i].ip != "" {
        m := m[endpoints[i].ip := endpoints[i].id];
      }
    }
    assert endpoints[..|endpoints|] == endpoints;
  }

  lemma {:induction false} IdOfIPKnown(endpoints: seq<Endpoint>, ip: string)
    ensures IdOfIP(endpoints, ip).Some? ==>
              exists e :: e in endpoints && e.ip == ip && e.id == IdOfIP(endpoints, ip).value
    ensures ip != "" && (exists e :: e in endpoints && e.ip == ip) ==> IdOfIP(endpoints, ip).Some?
  {
    if endpoints != [] {
      var n := |endpoints| - 1;
      IdOfIPKnown(endpoints[..n], ip);
      assert endpoints == endpoints[..n] + [endpoints[n]];
    }
  }

  method ServiceAddresses(req: Request, svc: Service) returns (addrs: seq<string>)
    ensures forall a :: a in addrs <==> IsAddress(req, svc, a)
  {
    addrs := [];
    var explicit := false;
    for i := 0 to |req.slices|
      invariant explicit <==>
                exists k :: 0 <= k < i && req.slices[k].serviceName == svc.name && req.slices[k].ns == svc.ns
      invariant forall a :: a in addrs <==>
                  exists k :: 0 <= k < i && req.slices[k].serviceName == svc.name && req.slices[k].ns == svc.ns
                    && a in req.slices[k].addresses
    {
      var s := req.slices[i];
      if s.serviceName == svc.name && s.ns == svc.ns {
        addrs := addrs + s.addresses;
        explicit := true;
      }
    }
    if !explicit {
      addrs := AutoSlice(req, svc);
    }
  }

  /** autoSliceForService. */
  method AutoSlice(req: Request, svc: Service) returns (addrs: seq<string>)
    ensures forall a :: a in addrs <==> a != "" && exists e :: e in req.endpoints && Selected(svc, e, a)
  {
    addrs := [];
    for i := 0 to |req.endpoints|
      invariant forall a :: a in addrs <==>
                  a != "" && exists k :: 0 <= k < i && Selected(svc, req.endpoints[k], a)
    {
      var e := req.endpoints[i];
      if e.ns == svc.ns && LabelsMatch(e.labels, svc.selector) && e.ip != "" {
        addrs := addrs + [e.ip];
      }
    }
  }

  /** serviceBackendIDs: each backend once. */
  method ServiceBackendIDs(req: Request, svc: Service, ipToID: map<string, string>) returns (ids: seq<string>)
    requires MapsIPs(ipToID, req.endpoints)
    ensures Distinct(ids) && forall id :: id in ids <==> IsBackend(req, svc, id)
  {
    var addrs := ServiceAddresses(req, svc);
    ids := [];
    for i := 0 to |addrs|
      invariant Distinct(ids)
      invariant forall id :: id in ids <==> exists k :: 0 <= k < i && IdOfIP(req.endpoints, addrs[k]) == Some(id)
    {
      if addrs[i] in ipToID && ipToID[addrs[i]] !in ids {
        ids := ids + [ipToID[addrs[i]]];
      }
    }
    forall id ensures id in ids <==> IsBackend(req, svc, id) {
      BackendByAddress(req, svc, addrs, id);
    }
  }

  lemma BackendByAddress(req: Request, svc: Service, addrs: seq<string>, id: string)
    requires forall a :: a in addrs <==> IsAddress(req, svc, a)
    ensures (exists k :: 0 <= k < |addrs| && IdOfIP(req.endpoints, addrs[k]) == Some(id)) <==> IsBackend(req, svc, id)
  {
    if k :| 0 <= k < |addrs| && IdOfIP(req.endpoints, addrs[k]) == Some(id) {
      IdOfIPKnown(req.endpoints, addrs[k]);
      var e :| e in req.endpoints && e.ip == addrs[k] && e.id == id;
      assert addrs[k] in addrs;
    }
    if e :| e in req.endpoints && IsAddress(req, svc, e.ip) && IdOfIP(req.endpoints, e.ip) == Some(id) {
      assert e.ip in addrs;
      var k :| 0 <= k < |addrs| && addrs[k] == e.ip;
    }
  }

  lemma BackendIsEndpoint(req: Request, svc: Service, id: string)
    requires IsBackend(req, svc, id)
    ensures exists e :: e in req.endpoints && e.id == id
  {
    var e :| e in req.endpoints && IsAddress(req, svc, e.ip) && IdOfIP(req.endpoints, e.ip) == Some(id);
    IdOfIPKnown(req.endpoints, e.ip);
  }

  // ----- actors -----

  /** What the calc graph computed per endpoint, and net.ParseIP (None for an unparsable text). */
  datatype Graph = Graph(wepByID: map<string, WEP>, hepByName: map<string, HEP>, parseIP: string -> Option<IP>)

  const NIL_IP := IP("<nil>", [])
  const EMPTY_WEP := WEP([], [])
  const EMPTY_HEP := HEP([], [], [], [], [])

  function EndpointActor(g: Graph, e: Endpoint): Actor {
    Actor(e.id, false, if g.parseIP(e.ip).Some? then g.parseIP(e.ip).value else NIL_IP, e.node,
          if e.id in g.wepByID then g.wepByID[e.id] else EMPTY_WEP, EMPTY_HEP, e.unpoliced, e.role)
  }

  /** The address of a host endpoint: its first expected one, when that parses. */
  function HostIP(g: Graph, h: HostEndpoint): Option<IP> {
    if h.expectedIPs == [] then None else g.parseIP(h.expectedIPs[0])
  }

  /** doNotTrack policy is dropped on an all-interfaces host endpoint, and on every other one of its name,
      since the graph's object is shared. */
  function EffectiveHEP(g: Graph, all: seq<HostEndpoint>, name: string): HEP
    requires name in g.hepByName
  {
    if exists h :: h in all && h.name == name && h.interfaceName == "*" then g.hepByName[name].(untrackedTiers := [])
    else g.hepByName[name]
  }

  function HostActor(g: Graph, all: seq<HostEndpoint>, h: HostEndpoint): Actor
    requires h.name in g.hepByName
  {
    var ip := HostIP(g, h);
    Actor("host/" + h.name, true, if ip.Some? then ip.value else NIL_IP, h.node, EMPTY_WEP,
          EffectiveHEP(g, all, h.name), false, "")
  }

  /** Every known host endpoint is indexed on its node, in input order, whether or not it has an address. */
  function HepsOfNode(g: Graph, all: seq<HostEndpoint>, n: nat, node: string): seq<Actor>
    requires n <= |all|
  {
    if n == 0 then []
    else
      var h := all[n - 1];
      HepsOfNode(g, all, n - 1, node) + if h.name in g.hepByName && h.node == node then [HostActor(g, all, h)] else []
  }

  /** hepsByNode: the nodes that have host endpoints. */
  function HepIndexOf(g: Graph, all: seq<HostEndpoint>): HepIndex {
    map n | n in (set h | h in all :: h.node) && HepsOfNode(g, all, |all|, n) != [] :: HepsOfNode(g, all, |all|, n)
  }

  /** The host endpoints that become rows and columns: the known ones with an address. */
  function HostRows(g: Graph, all: seq<HostEndpoint>, n: nat): seq<Actor>
    requires n <= |all|
  {
    if n == 0 then []
    else
      var h := all[n - 1];
      HostRows(g, all, n - 1) + if h.name in g.hepByName && HostIP(g, h).Some? then [HostActor(g, all, h)] else []
  }

  function EndpointRows(g: Graph, es: seq<Endpoint>): (r: seq<Actor>)
    ensures |r| == |es|
  {
    seq(|es|, k requires 0 <= k < |es| => EndpointActor(g, es[k]))
  }

  /** The rows and columns of the matrix: workloads in input order, then host endpoints. */
  function Actors(g: Graph, req: Request): seq<Actor> {
    EndpointRows(g, req.endpoints) + HostRows(g, req.hostEndpoints, |req.hostEndpoints|)
  }

  /** buildActors. */
  method BuildActors(req: Request, g: Graph) returns (list: seq<Actor>, hepsByNode: HepIndex)
    ensures list == Actors(g, req)
    ensures hepsByNode == HepIndexOf(g, req.hostEndpoints)
    ensures hepsByNode == map[] ==> forall a :: a in list ==> !a.isHEP
  {
    list, hepsByNode := [], map[];
    for i := 0 to |req.endpoints|
      invariant |list| == i && forall k :: 0 <= k < i ==> list[k] == EndpointActor(g, req.endpoints[k])
    {
      list := list + [EndpointActor(g, req.endpoints[i])];
    }
    var rows;
    rows, hepsByNode := BuildHostActors(req.hostEndpoints, g);
    list := list + rows;
  }

  /** The index after the first n host endpoints: no node is listed without a host endpoint. */
  ghost predicate IndexedHeps(heps: HepIndex, g: Graph, hs: seq<HostEndpoint>, n: nat)
    requires n <= |hs|
  {
    && (forall node :: HepsOn(heps, node) == HepsOfNode(g, hs, n, node))
    && (forall node :: node in heps ==> heps[node] != [])
  }

  lemma IndexedHepsStep(heps: HepIndex, g: Graph, hs: seq<HostEndpoint>, i: nat)
    requires i < |hs| && IndexedHeps(heps, g, hs, i)
    ensures var h := hs[i];
            IndexedHeps(if h.name in g.hepByName
                then heps[h.node := HepsOn(heps, h.node) + [HostActor(g, hs, h)]] else heps, g, hs, i + 1)
  {
    var h := hs[i];
    var next := if h.name in g.hepByName then heps[h.node := HepsOn(heps, h.node) + [HostActor(g, hs, h)]] else heps;
    forall node ensures HepsOn(next, node) == HepsOfNode(g, hs, i + 1, node) {
      assert HepsOn(heps, node) == HepsOfNode(g, hs, i, node);
    }
  }

  lemma {:induction false} HepNodesKnown(g: Graph, hs: seq<HostEndpoint>, n: nat, node: string)
    requires n <= |hs| && HepsOfNode(g, hs, n, node) != []
    ensures exists h :: h in hs && h.node == node
  {
    if HepsOfNode(g, hs, n - 1, node) != [] {
      HepNodesKnown(g, hs, n - 1, node);
    } else {
      assert hs[n - 1] in hs;
    }
  }

  lemma IndexedHepsAll(heps: HepIndex, g: Graph, hs: seq<HostEndpoint>)
    requires IndexedHeps(heps, g, hs, |hs|)
    ensures heps == HepIndexOf(g, hs)
  {
    forall node | HepsOfNode(g, hs, |hs|, node) != [] ensures node in (set h | h in hs :: h.node) {
      HepNodesKnown(g, hs, |hs|, node);
    }
    forall node ensures node in heps <==> node in HepIndexOf(g, hs) {
      assert HepsOn(heps, node) == HepsOfNode(g, hs, |hs|, node);
    }
  }

  method BuildHostActors(hs: seq<HostEndpoint>, g: Graph) returns (rows: seq<Actor>, hepsByNode: HepIndex)
    ensures rows == HostRows(g, hs, |hs|)
    ensures hepsByNode == HepIndexOf(g, hs)
    ensures hepsByNode == map[] ==> rows == []
  {
    rows, hepsByNode := [], map[];
    for i := 0 to |hs|
      invariant rows == HostRows(g, hs, i)
      invariant IndexedHeps(hepsByNode, g, hs, i)
      invariant hepsByNode == map[] ==> rows == []
    {
      var h := hs[i];
      IndexedHepsStep(hepsByNode, g, hs, i);
      if h.name in g.hepByName {
        var a := HostActor(g, hs, h);
        hepsByNode := hepsByNode[h.node := HepsOn(hepsByNode, h.node) + [a]];
        assert h.node in hepsByNode;
        if HostIP(g, h).Some? {
          rows := rows + [a];
        }
      }
    }
    IndexedHepsAll(hepsByNode, g, hs);
  }

  // ----- which host endpoints take part, and how -----

  ghost predicate KnownHost(g: Graph, hs: seq<HostEndpoint>, h: HostEndpoint) { h in hs && h.name in g.hepByName }

  lemma {:induction false} HostMembers(g: Graph, hs: seq<HostEndpoint>, n: nat, node: string, a: Actor)
    requires n <= |hs|
    ensures a in HepsOfNode(g, hs, n, node) <==>
            exists k :: 0 <= k < n && hs[k].name in g.hepByName && hs[k].node == node && a == HostActor(g, hs, hs[k])
  {
    if n > 0 { HostMembers(g, hs, n - 1, node, a); }
  }

  lemma {:induction false} RowMembers(g: Graph, hs: seq<HostEndpoint>, n: nat, a: Actor)
    requires n <= |hs|
    ensures a in HostRows(g, hs, n) <==>
            exists k :: 0 <= k < n
              && hs[k].name in g.hepByName && HostIP(g, hs[k]).Some? && a == HostActor(g, hs, hs[k])
  {
    if n > 0 { RowMembers(g, hs, n - 1, a); }
  }

  /** A host endpoint gates its node's flows when the graph knows it; it is a row only with an address too,
      and then it is among the host endpoints of its own node. */
  lemma HostEndpointsTakePart(g: Graph, hs: seq<HostEndpoint>, node: string, a: Actor)
    ensures a in HepsOn(HepIndexOf(g, hs), node) <==>
            exists h :: KnownHost(g, hs, h) && h.node == node && a == HostActor(g, hs, h)
    ensures a in HostRows(g, hs, |hs|) <==>
            exists h :: KnownHost(g, hs, h) && HostIP(g, h).Some? && a == HostActor(g, hs, h)
    ensures a in HostRows(g, hs, |hs|) ==> a in HepsOn(HepIndexOf(g, hs), a.node)
  {
    HostMembers(g, hs, |hs|, node, a);
    HostMembers(g, hs, |hs|, a.node, a);
    RowMembers(g, hs, |hs|, a);
    IndexOfNode(g, hs, node);
    IndexOfNode(g, hs, a.node);
    if h :| KnownHost(g, hs, h) && a == HostActor(g, hs, h) {
      var k :| 0 <= k < |hs| && hs[k] == h;
    }
  }

  lemma IndexOfNode(g: Graph, hs: seq<HostEndpoint>, node: string)
    ensures HepsOn(HepIndexOf(g, hs), node) == HepsOfNode(g, hs, |hs|, node)
  {
    if HepsOfNode(g, hs, |hs|, node) != [] {
      HepNodesKnown(g, hs, |hs|, node);
    }
  }

  // ----- backends and actors, field by field -----

  /** A selector with labels, each of which the endpoint carries; an absent label is an empty one. */
  lemma LabelsMeaning(have: map<string, string>, want: map<string, string>)
    ensures LabelsMatch(have, want) <==>
            want != map[] && forall k :: k in want ==> if k in have then have[k] == want[k] else want[k] == ""
  {
    assert |want| == 0 <==> want == map[];
  }

  /** The n-th endpoint has this id and address, and no later one has the address. */
  predicate LastAt(endpoints: seq<Endpoint>, n: nat, id: string, ip: string) {
    && n < |endpoints| && endpoints[n].id == id && endpoints[n].ip == ip && ip != ""
    && forall m :: n < m < |endpoints| ==> endpoints[m].ip != ip
  }

  lemma {:induction false} IdOfIPMeaning(endpoints: seq<Endpoint>, ip: string, id: string)
    ensures IdOfIP(endpoints, ip) == Some(id) <==> exists n: nat :: LastAt(endpoints, n, id, ip)
  {
    if endpoints != [] {
      var before, k := endpoints[..|endpoints| - 1], |endpoints| - 1;
      IdOfIPMeaning(before, ip, id);
      assert endpoints[k].ip == ip != "" && endpoints[k].id == id ==> LastAt(endpoints, k, id, ip);
      forall n: nat | n < k
        ensures LastAt(endpoints, n, id, ip) <==> LastAt(before, n, id, ip) && endpoints[k].ip != ip
      {
      }
    }
  }

  /** The endpoint carries every label of a selector that has some; an absent label is an empty one. */
  predicate Carries(e: Endpoint, selector: map<string, string>) {
    selector != map[]
    && forall k :: k in selector ==> if k in e.labels then e.labels[k] == selector[k] else selector[k] == ""
  }

  /** Whether a service stands behind an address: by the slices of its name where there are any, else by its
      selector in its namespace. */
  ghost predicate Serves(req: Request, svc: Service, ip: string) {
    if exists s :: s in req.slices && s.serviceName == svc.name && s.ns == svc.ns then
      exists s :: s in req.slices && s.serviceName == svc.name && s.ns == svc.ns && ip in s.addresses
    else
      exists e :: e in req.endpoints && e.ip == ip && e.ns == svc.ns && Carries(e, svc.selector)
  }

  lemma ServesMeaning(req: Request, svc: Service, ip: string)
    requires ip != ""
    ensures IsAddress(req, svc, ip) <==> Serves(req, svc, ip)
  {
    forall e: Endpoint ensures Selected(svc, e, ip) <==> e.ip == ip && e.ns == svc.ns && Carries(e, svc.selector) {
      LabelsMeaning(e.labels, svc.selector);
    }
  }

  /** A backend is the last endpoint with an address the service stands behind. */
  lemma BackendMeaning(req: Request, svc: Service, id: string)
    ensures IsBackend(req, svc, id) <==> exists n: nat, ip :: LastAt(req.endpoints, n, id, ip) && Serves(req, svc, ip)
  {
    if e :| e in req.endpoints && IsAddress(req, svc, e.ip) && IdOfIP(req.endpoints, e.ip) == Some(id) {
      IdOfIPMeaning(req.endpoints, e.ip, id);
      ServesMeaning(req, svc, e.ip);
    }
    if n: nat, ip :| LastAt(req.endpoints, n, id, ip) && Serves(req, svc, ip) {
      IdOfIPMeaning(req.endpoints, ip, id);
      ServesMeaning(req, svc, ip);
      assert req.endpoints[n] in req.endpoints;
    }
  }

  /** The row of a workload: what its request and the graph say of it. */
  lemma WorkloadRow(g: Graph, req: Request, k: nat)
    requires k < |req.endpoints|
    ensures |Actors(g, req)| >= |req.endpoints|
    ensures var a, e := Actors(g, req)[k], req.endpoints[k];
            && a.id == e.id && !a.isHEP && a.node == e.node && a.unpoliced == e.unpoliced && a.role == e.role
            && (g.parseIP(e.ip).Some? ==> a.ip == g.parseIP(e.ip).value)
            && (g.parseIP(e.ip).None? ==> a.ip.bits == [])
            && (e.id in g.wepByID ==> a.wep == g.wepByID[e.id])
            && (e.id !in g.wepByID ==> a.wep.tiers == [] && a.wep.profileIds == [])
  {
  }

  /** The actor of a host endpoint; untracked tiers are dropped when some host endpoint of its name covers all
      interfaces. */
  lemma HostActorMeaning(g: Graph, all: seq<HostEndpoint>, h: HostEndpoint)
    requires h.name in g.hepByName
    ensures var a, hep := HostActor(g, all, h), g.hepByName[h.name];
            && a.id == "host/" + h.name && a.isHEP && a.node == h.node && !a.unpoliced && a.role == ""
            && (h.expectedIPs != [] && g.parseIP(h.expectedIPs[0]).Some? ==> a.ip == g.parseIP(h.expectedIPs[0]).value)
            && (h.expectedIPs == [] || g.parseIP(h.expectedIPs[0]).None? ==> a.ip.bits == [])
            && a.hep.tiers == hep.tiers && a.hep.forwardTiers == hep.forwardTiers
            && a.hep.preDnatTiers == hep.preDnatTiers && a.hep.profileIds == hep.profileIds
            && ((exists x :: x in all && x.name == h.name && x.interfaceName == "*") ==> a.hep.untrackedTiers == [])
            && ((forall x :: x in all && x.name == h.name ==> x.interfaceName != "*") ==>
                  a.hep.untrackedTiers == hep.untrackedTiers)
  {
  }
}
