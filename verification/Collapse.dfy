/** The equivalence-class collapse: group actors, check one pair per class pair, fill by lookup. */
module Collapse {
  import opened Text
  import opened Addresses
  import opened Checker
  import opened Flows
  import opened Fingerprint
  import opened Signatures
  import opened Matrix

  // ----- grouping -----

  function Key(store: Store, pp: PeerProbes, a: Actor): string { ClassKey(OwnerFingerprint(a), Sig(store, pp, a.ip)) }

  /** A map from keys to positions in the list of keys seen so far, each once. */
  ghost predicate Indexed(ids: map<string, nat>, keys: seq<string>) {
    && (forall k :: 0 <= k < |keys| ==> keys[k] in ids && ids[keys[k]] == k)
    && (forall s :: s in ids ==> ids[s] < |keys| && keys[ids[s]] == s)
  }

  /** Look a key up, giving it the next id when it is new. */
  method IdOf(ids0: map<string, nat>, reps0: seq<Actor>, key: string, a: Actor, ghost keys0: seq<string>)
    returns (ids: map<string, nat>, reps: seq<Actor>, id: nat, ghost keys: seq<string>)
    requires Indexed(ids0, keys0) && |reps0| == |keys0|
    ensures Indexed(ids, keys) && |reps| == |keys|
    ensures id < |keys| && keys[id] == key && keys0 <= keys
    ensures (keys == keys0 && reps == reps0) || (keys == keys0 + [key] && reps == reps0 + [a])
  {
    if key in ids0 {
      return ids0, reps0, ids0[key], keys0;
    }
    id := |reps0|;
    ids, reps, keys := ids0[key := id], reps0 + [a], keys0 + [key];
  }

  /** Each actor's representative carries its signature or key; different representatives differ in it. */
  ghost predicate Grouped(keys: seq<string>, repKeys: seq<string>, of: seq<nat>) {
    && |of| == |keys| && Distinct(repKeys)
    && forall i :: 0 <= i < |of| ==> of[i] < |repKeys| && repKeys[of[i]] == keys[i]
  }

  ghost function SigsOf(store: Store, pp: PeerProbes, list: seq<Actor>): (r: seq<string>)
    ensures |r| == |list|
  {
    seq(|list|, i requires 0 <= i < |list| => Sig(store, pp, list[i].ip))
  }

  ghost function KeysOfActors(store: Store, pp: PeerProbes, list: seq<Actor>): (r: seq<string>)
    ensures |r| == |list|
  {
    seq(|list|, i requires 0 <= i < |list| => Key(store, pp, list[i]))
  }

  /** The rep list picks actors of the list, and repKeys are their keys. */
  ghost predicate Picked<T>(list: seq<Actor>, keys: seq<T>, reps: seq<Actor>, repKeys: seq<T>) {
    && |list| == |keys| && |reps| == |repKeys|
    && forall k :: 0 <= k < |reps| ==> exists i :: 0 <= i < |list| && reps[k] == list[i] && repKeys[k] == keys[i]
  }

  lemma PickedNext<T>(list: seq<Actor>, keys: seq<T>, reps: seq<Actor>, repKeys: seq<T>, i: nat)
    requires Picked(list, keys, reps, repKeys) && i < |list|
    ensures Picked(list, keys, reps + [list[i]], repKeys + [keys[i]])
  {
    forall k | 0 <= k <= |reps|
      ensures exists j :: 0 <= j < |list| && (reps + [list[i]])[k] == list[j] && (repKeys + [keys[i]])[k] == keys[j]
    {
      if k < |reps| {
        var j :| 0 <= j < |list| && reps[k] == list[j] && repKeys[k] == keys[j];
        assert (reps + [list[i]])[k] == list[j];
      }
    }
  }

  /** The positions assigned so far lead back to the keys. */
  ghost predicate Points(of: seq<nat>, keys: seq<string>, repKeys: seq<string>) {
    |of| <= |keys| && forall k :: 0 <= k < |of| ==> of[k] < |repKeys| && repKeys[of[k]] == keys[k]
  }

  lemma PointsNext(of: seq<nat>, keys: seq<string>, repKeys: seq<string>, next: seq<string>, id: nat)
    requires |of| < |keys| && Points(of, keys, repKeys) && repKeys <= next && id < |next| && next[id] == keys[|of|]
    ensures Points(of + [id], keys, next)
  {
  }

  /** The map bookkeeping of groupActors, over precomputed keys. */
  method Group(list: seq<Actor>, keys: seq<string>) returns (reps: seq<Actor>, of: seq<nat>, ghost repKeys: seq<string>)
    requires |list| == |keys|
    ensures Grouped(keys, repKeys, of) && Picked(list, keys, reps, repKeys)
  {
    var ids: map<string, nat> := map[];
    reps, of, repKeys := [], [], [];
    for i := 0 to |list|
      invariant Indexed(ids, repKeys) && Picked(list, keys, reps, repKeys)
      invariant |of| == i && Points(of, keys, repKeys)
    {
      ghost var keys0 := repKeys;
      PickedNext(list, keys, reps, repKeys, i);
      var id;
      ids, reps, id, repKeys := IdOf(ids, reps, keys[i], list[i], repKeys);
      PointsNext(of, keys, keys0, repKeys, id);
      of := of + [id];
    }
  }

  lemma PickedSigs(store: Store, pp: PeerProbes, list: seq<Actor>, reps: seq<Actor>, repSigs: seq<string>)
    requires Picked(list, SigsOf(store, pp, list), reps, repSigs)
    ensures repSigs == SigsOf(store, pp, reps) && forall a :: a in reps ==> a in list
  {
    assert forall k :: 0 <= k < |reps| ==> repSigs[k] == SigsOf(store, pp, reps)[k];
  }

  lemma PickedKeys(store: Store, pp: PeerProbes, list: seq<Actor>, reps: seq<Actor>, repKeys: seq<string>)
    requires Picked(list, KeysOfActors(store, pp, list), reps, repKeys)
    ensures repKeys == KeysOfActors(store, pp, reps) && forall a :: a in reps ==> a in list
  {
    assert forall k :: 0 <= k < |reps| ==> repKeys[k] == KeysOfActors(store, pp, reps)[k];
  }

  lemma KeysNext(store: Store, pp: PeerProbes, list: seq<Actor>, i: nat)
    requires i < |list|
    ensures SigsOf(store, pp, list[..i + 1]) == SigsOf(store, pp, list[..i]) + [Sig(store, pp, list[i].ip)]
    ensures KeysOfActors(store, pp, list[..i + 1]) == KeysOfActors(store, pp, list[..i]) + [Key(store, pp, list[i])]
  {
    assert list[..i + 1] == list[..i] + [list[i]];
    SigsSnoc(store, pp, list[..i], list[i]);
    KeysSnoc(store, pp, list[..i], list[i]);
  }

  lemma SigsSnoc(store: Store, pp: PeerProbes, list: seq<Actor>, a: Actor)
    ensures SigsOf(store, pp, list + [a]) == SigsOf(store, pp, list) + [Sig(store, pp, a.ip)]
  {
  }

  lemma KeysSnoc(store: Store, pp: PeerProbes, list: seq<Actor>, a: Actor)
    ensures KeysOfActors(store, pp, list + [a]) == KeysOfActors(store, pp, list) + [Key(store, pp, a)]
  {
  }

  /** Every actor's signature and class key. */
  method ActorKeys(store: Store, list: seq<Actor>, pp: PeerProbes) returns (sigs: seq<string>, keys: seq<string>)
    ensures sigs == SigsOf(store, pp, list) && keys == KeysOfActors(store, pp, list)
  {
    sigs, keys := [], [];
    for i := 0 to |list|
      invariant sigs == SigsOf(store, pp, list[..i]) && keys == KeysOfActors(store, pp, list[..i])
    {
      KeysNext(store, pp, list, i);
      var s, key := ActorKey(store, pp, list[i]);
      sigs, keys := sigs + [s], keys + [key];
    }
    assert list[..|list|] == list;
  }

  method ActorKey(store: Store, pp: PeerProbes, a: Actor) returns (s: string, key: string)
    ensures s == Sig(store, pp, a.ip) && key == Key(store, pp, a)
  {
    s := ComputeSig(store, pp, a.ip);
    var fingerprint := PrintFingerprint(a);
    key := ClassKey(fingerprint, s);
  }

  /** groupActors: peers by signature, owner classes by fingerprint and signature. */
  method GroupActors(store: Store, list: seq<Actor>, pp: PeerProbes)
    returns (repPeer: seq<Actor>, repClass: seq<Actor>, peerOf: seq<nat>, classOf: seq<nat>)
    ensures Grouped(SigsOf(store, pp, list), SigsOf(store, pp, repPeer), peerOf)
    ensures Grouped(KeysOfActors(store, pp, list), KeysOfActors(store, pp, repClass), classOf)
    ensures forall a :: a in repPeer || a in repClass ==> a in list
  {
    var sigs, keys := ActorKeys(store, list, pp);
    ghost var peers, classes;
    repPeer, peerOf, peers := Group(list, sigs);
    PickedSigs(store, pp, list, repPeer, peers);
    repClass, classOf, classes := Group(list, keys);
    PickedKeys(store, pp, list, repClass, classes);
  }

  // ----- one owner, one direction -----

  /** The owner's relevant rules, as collectOwnerProbes gathers them. */
  method CollectOwnerProbes(store: Store, wep: WEP, dir: Dir, probe: Flow) returns (pp: PeerProbes)
    ensures CoversTiers(store, pp, wep.tiers, dir) && CoversProfiles(store, pp, wep.profileIds, dir)
    ensures pp.ipPortSuffix == PortSuffix(probe.protocol, probe.dstPort)
    ensures pp.srcPortSuffix == PortSuffix(probe.protocol, probe.srcPort)
  {
    var relevant: seq<Rule> := [];
    for i := 0 to |wep.tiers|
      invariant forall k, id :: 0 <= k < i && id in PoliciesFor(wep.tiers[k], dir) && id in store.policies ==>
                  Included(RulesFor(store.policies[id], dir), relevant)
    {
      ghost var before := relevant;
      var rules := PolicyRules(store, PoliciesFor(wep.tiers[i], dir), dir);
      relevant := relevant + rules;
    }
    ghost var tierRules := relevant;
    var rules := ProfileRules(store, wep.profileIds, dir);
    relevant := relevant + rules;
    var subset := Store(map[], map["probes" := Policy(relevant, [])], map[], store.parseCIDR);
    pp := CollectPeerProbes(subset, probe.protocol, probe.srcPort, probe.dstPort);
    forall r | r in relevant ensures Covers(store, pp, r) {
      assert r in subset.profiles["probes"].inbound + subset.profiles["probes"].outbound;
      assert Covers(subset, pp, r);
    }
  }

  ghost predicate Included(rules: seq<Rule>, all: seq<Rule>) { forall r :: r in rules ==> r in all }

  method PolicyRules(store: Store, ids: seq<PolicyID>, dir: Dir) returns (rules: seq<Rule>)
    ensures forall id :: id in ids && id in store.policies ==> Included(RulesFor(store.policies[id], dir), rules)
  {
    rules := [];
    for i := 0 to |ids|
      invariant forall k :: 0 <= k < i && ids[k] in store.policies ==>
                Included(RulesFor(store.policies[ids[k]], dir), rules)
    {
      if ids[i] in store.policies {
        rules := rules + RulesFor(store.policies[ids[i]], dir);
      }
    }
  }

  method ProfileRules(store: Store, names: seq<string>, dir: Dir) returns (rules: seq<Rule>)
    ensures forall n :: n in names && n in store.profiles ==> Included(RulesFor(store.profiles[n], dir), rules)
  {
    rules := [];
    for i := 0 to |names|
      invariant forall k :: 0 <= k < i && names[k] in store.profiles ==>
                Included(RulesFor(store.profiles[names[k]], dir), rules)
    {
      if names[i] in store.profiles {
        rules := rules + RulesFor(store.profiles[names[i]], dir);
      }
    }
  }

  function ToPeer(dir: Dir, f: Flow, ip: IP): Flow { if dir == Ingress then f.(srcIP := ip) else f.(dstIP := ip) }

  /** ownerDirectionEvaluator: the closure and its captured memo. */
  class OwnerEvaluator {
    const store: Store
    const scope: Scope
    const wep: WEP
    const dir: Dir
    const probe: Flow
    const probes: PeerProbes
    var memo: map<string, bool>

    /** What a fresh checker call returns for a peer address. */
    ghost predicate Fresh(ip: IP) { Allowed(store, scope, dir, wep, ToPeer(dir, probe, ip)) }

    ghost predicate Covering() {
      && CoversTiers(store, probes, wep.tiers, dir) && CoversProfiles(store, probes, wep.profileIds, dir)
      && probes.ipPortSuffix == PortSuffix(probe.protocol, probe.dstPort)
      && probes.srcPortSuffix == PortSuffix(probe.protocol, probe.srcPort)
    }

    /** The memo only ever holds true verdicts: of every address with the signature. */
    ghost predicate Valid()
      reads this
    {
      && Covering()
      && forall ip :: Sig(store, probes, ip) in memo ==> memo[Sig(store, probes, ip)] == Fresh(ip)
    }

    constructor (store: Store, scope: Scope, wep: WEP, dir: Dir, probe: Flow, probes: PeerProbes)
      requires CoversTiers(store, probes, wep.tiers, dir) && CoversProfiles(store, probes, wep.profileIds, dir)
      requires probes.ipPortSuffix == PortSuffix(probe.protocol, probe.dstPort)
      requires probes.srcPortSuffix == PortSuffix(probe.protocol, probe.srcPort)
      ensures Valid()
      ensures this.store == store && this.scope == scope && this.wep == wep && this.dir == dir && this.probe == probe
    {
      this.store, this.scope, this.wep, this.dir, this.probe, this.probes := store, scope, wep, dir, probe, probes;
      memo := map[];
    }

    /** Equal owner signatures mean equal verdicts for this owner and direction. */
    lemma SameSigSameVerdict(a: IP, b: IP)
      requires Covering() && Sig(store, probes, a) == Sig(store, probes, b)
      ensures Fresh(a) == Fresh(b)
    {
      SigExact(store, probes, a, b);
      TraceAlike(store, probes, scope, dir, wep.tiers, wep.profileIds, ToPeer(dir, probe, a), ToPeer(dir, probe, b));
    }

    /** The memoised verdict is the fresh one. */
    method Allows(peer: IP) returns (allow: bool)
      requires Valid()
      modifies this
      ensures Valid() && allow == Fresh(peer)
      ensures memo == old(memo)[Sig(store, probes, peer) := allow]
    {
      var signature := ComputeSig(store, probes, peer);
      if signature in memo {
        return memo[signature];
      }
      allow := Verdict(Evaluate(store, scope, dir, wep, ToPeer(dir, probe, peer)));
      memo := memo[signature := allow];
      forall ip | Sig(store, probes, ip) == signature ensures Fresh(ip) == allow {
        SameSigSameVerdict(ip, peer);
      }
    }
  }

  method NewOwnerEvaluator(env: Env, owner: Actor, dir: Dir, probe: Flow) returns (e: OwnerEvaluator)
    ensures fresh(e) && e.Valid()
    ensures e.store == env.store && e.scope == env.scope && e.wep == NormalWEP(owner)
    ensures e.dir == dir && e.probe == probe
  {
    var probes := CollectOwnerProbes(env.store, NormalWEP(owner), dir, probe);
    e := new OwnerEvaluator(env.store, env.scope, NormalWEP(owner), dir, probe, probes);
  }

  // ----- class pairs -----

  /** The verdict of an owner class towards a peer class, decided on the representatives. */
  ghost predicate ClassVerdict(env: Env, dir: Dir, owner: Actor, peer: Actor) {
    owner.unpoliced
    || Allowed(env.store, env.scope, dir, NormalWEP(owner), ToPeer(dir, MkFlow(env.probe, owner, owner), peer.ip))
  }

  lemma AtLeast(d: int, n: nat)
    ensures d >= 1 ==> d * n >= n
    ensures d <= -1 ==> d * n <= 0 - n
  {
  }

  lemma SmallMultiple(d: int, n: nat)
    requires 0 - n < d * n < n
    ensures d == 0
  {
    AtLeast(d, n);
  }

  /** Row-major indices stay in bounds and identify the pair, so no two cells alias. */
  lemma RowMajor(c: nat, n: nat, rows: nat, p: nat)
    requires c < rows && p < n
    ensures 0 <= c * n + p < rows * n && (c * n + p) / n == c && (c * n + p) % n == p
  {
    AtLeast(rows - c, n);
    assert (rows - c) * n == rows * n - c * n;
    var q, r := (c * n + p) / n, (c * n + p) % n;
    assert (q - c) * n == q * n - c * n == p - r;
    SmallMultiple(q - c, n);
  }

  /** The table evaluateClasses fills, row by row: one cell per owner class and peer class. */
  ghost function ClassTable(env: Env, dir: Dir, owners: seq<Actor>, peers: seq<Actor>): (r: seq<bool>)
    ensures |r| == |owners| * |peers|
  {
    seq(|owners| * |peers|, k requires 0 <= k < |owners| * |peers| =>
      if peers != [] && k / |peers| < |owners|
          then ClassVerdict(env, dir, owners[k / |peers|], peers[k % |peers|]) else false)
  }

  lemma TableCell(env: Env, dir: Dir, owners: seq<Actor>, peers: seq<Actor>, c: nat, p: nat)
    requires c < |owners| && p < |peers|
    ensures c * |peers| + p < |owners| * |peers|
    ensures ClassTable(env, dir, owners, peers)[c * |peers| + p] == ClassVerdict(env, dir, owners[c], peers[p])
  {
    RowMajor(c, |peers|, |owners|, p);
  }

  lemma TableRow(env: Env, dir: Dir, owners: seq<Actor>, peers: seq<Actor>, c: nat, row: nat, memo: seq<bool>)
    requires c < |owners| && row == c * |peers| && |memo| == |owners| * |peers| && row + |peers| <= |memo|
    requires forall p :: 0 <= p < |peers| ==> memo[row + p] == ClassVerdict(env, dir, owners[c], peers[p])
    ensures forall k :: row <= k < row + |peers| ==> memo[k] == ClassTable(env, dir, owners, peers)[k]
  {
    forall k | row <= k < row + |peers| ensures memo[k] == ClassTable(env, dir, owners, peers)[k] {
      var p := k - row;
      TableCell(env, dir, owners, peers, c, p);
      assert memo[row + p] == ClassVerdict(env, dir, owners[c], peers[p]);
    }
  }

  /** The cells below a bound are those of the table. */
  ghost predicate Filled(memo: seq<bool>, table: seq<bool>, bound: int) {
    |memo| == |table| && forall k :: 0 <= k < bound <= |memo| ==> memo[k] == table[k]
  }

  lemma FilledRow(env: Env, dir: Dir, owners: seq<Actor>, peers: seq<Actor>, c: nat, row: nat, before: seq<bool>,
      memo: seq<bool>)
    requires c < |owners| && row == c * |peers| && |before| == |memo| == |owners| * |peers| && row + |peers| <= |memo|
    requires Filled(before, ClassTable(env, dir, owners, peers), row)
    requires forall k :: 0 <= k < row ==> memo[k] == before[k]
    requires forall p :: 0 <= p < |peers| ==> memo[row + p] == ClassVerdict(env, dir, owners[c], peers[p])
    ensures Filled(memo, ClassTable(env, dir, owners, peers), row + |peers|)
  {
    TableRow(env, dir, owners, peers, c, row, memo);
  }

  /** One owner class's row of both tables. */
  method EvaluateClass(env: Env, repClass: seq<Actor>, repPeer: seq<Actor>, c: nat, row: nat, egMemo: array<bool>,
      inMemo: array<bool>)
    requires c < |repClass| && row == c * |repPeer| && egMemo != inMemo
    requires egMemo.Length == inMemo.Length == |repClass| * |repPeer| && row + |repPeer| <= egMemo.Length
    requires Filled(egMemo[..], ClassTable(env, Egress, repClass, repPeer), row)
    requires Filled(inMemo[..], ClassTable(env, Ingress, repClass, repPeer), row)
    modifies egMemo, inMemo
    ensures Filled(egMemo[..], ClassTable(env, Egress, repClass, repPeer), row + |repPeer|)
    ensures Filled(inMemo[..], ClassTable(env, Ingress, repClass, repPeer), row + |repPeer|)
  {
    ghost var eg, ig := egMemo[..], inMemo[..];
    FillClassRow(env, repClass[c], repPeer, row, egMemo, inMemo);
    FilledRow(env, Egress, repClass, repPeer, c, row, eg, egMemo[..]);
    FilledRow(env, Ingress, repClass, repPeer, c, row, ig, inMemo[..]);
  }

  /** evaluateClasses. */
  method EvaluateClasses(env: Env, repClass: seq<Actor>, repPeer: seq<Actor>)
    returns (egMemo: array<bool>, inMemo: array<bool>)
    ensures egMemo[..] == ClassTable(env, Egress, repClass, repPeer)
    ensures inMemo[..] == ClassTable(env, Ingress, repClass, repPeer)
  {
    egMemo := new bool[|repClass| * |repPeer|];
    inMemo := new bool[|repClass| * |repPeer|];
    ghost var row := 0;
    for c := 0 to |repClass|
      invariant fresh(egMemo) && fresh(inMemo) && egMemo != inMemo && row == c * |repPeer|
      invariant Filled(egMemo[..], ClassTable(env, Egress, repClass, repPeer), row)
      invariant Filled(inMemo[..], ClassTable(env, Ingress, repClass, repPeer), row)
    {
      NextRow(c, |repPeer|, |repClass|);
      EvaluateClass(env, repClass, repPeer, c, c * |repPeer|, egMemo, inMemo);
      row := row + |repPeer|;
    }
  }

  lemma NextRow(c: nat, n: nat, rows: nat)
    requires c < rows
    ensures (c + 1) * n == c * n + n <= rows * n
  {
    AtLeast(rows - c, n);
    assert (rows - c) * n == rows * n - c * n;
  }

  /** One owner class, both directions, towards every peer class: the cells from row on. */
  method FillClassRow(env: Env, oc: Actor, repPeer: seq<Actor>, row: nat, egMemo: array<bool>, inMemo: array<bool>)
    requires egMemo.Length == inMemo.Length && egMemo != inMemo && row + |repPeer| <= egMemo.Length
    modifies egMemo, inMemo
    ensures forall k :: 0 <= k < row ==> egMemo[k] == old(egMemo[k]) && inMemo[k] == old(inMemo[k])
    ensures forall p :: 0 <= p < |repPeer| ==>
              && egMemo[row + p] == ClassVerdict(env, Egress, oc, repPeer[p])
              && inMemo[row + p] == ClassVerdict(env, Ingress, oc, repPeer[p])
  {
    var probe := MkFlow(env.probe, oc, oc);
    var egress := NewOwnerEvaluator(env, oc, Egress, probe);
    var ingress := NewOwnerEvaluator(env, oc, Ingress, probe);
    for p := 0 to |repPeer|
      invariant forall k :: 0 <= k < row ==> egMemo[k] == old(egMemo[k]) && inMemo[k] == old(inMemo[k])
      invariant forall k :: 0 <= k < p ==>
                  && egMemo[row + k] == ClassVerdict(env, Egress, oc, repPeer[k])
                  && inMemo[row + k] == ClassVerdict(env, Ingress, oc, repPeer[k])
      invariant egress.Valid() && ingress.Valid()
    {
      var outbound, inbound := ClassCell(env, oc, repPeer[p], egress, ingress);
      egMemo[row + p] := outbound;
      inMemo[row + p] := inbound;
    }
  }

  /** One class pair. */
  method ClassCell(env: Env, oc: Actor, peer: Actor, egress: OwnerEvaluator, ingress: OwnerEvaluator)
    returns (outbound: bool, inbound: bool)
    requires egress.Valid() && ingress.Valid() && egress != ingress
    requires egress.store == ingress.store == env.store && egress.scope == ingress.scope == env.scope
    requires egress.wep == ingress.wep == NormalWEP(oc) && egress.dir == Egress && ingress.dir == Ingress
    requires egress.probe == ingress.probe == MkFlow(env.probe, oc, oc)
    modifies egress, ingress
    ensures egress.Valid() && ingress.Valid()
    ensures outbound == ClassVerdict(env, Egress, oc, peer) && inbound == ClassVerdict(env, Ingress, oc, peer)
  {
    if oc.unpoliced {
      return true, true;
    }
    outbound := egress.Allows(peer.ip);
    inbound := ingress.Allows(peer.ip);
  }

  // ----- the collapse is exact -----

  /** What the collapse needs: no host endpoints, and fingerprints that tell the owners of this list apart. */
  predicate Collapsible(env: Env, list: seq<Actor>) {
    env.heps == map[] && (forall a :: a in list ==> !a.isHEP) && Unambiguous(list)
  }

  lemma SameClass(store: Store, pp: PeerProbes, a: Actor, rep: Actor)
    requires !a.isHEP && !rep.isHEP && Distinguished(a, rep) && Key(store, pp, a) == Key(store, pp, rep)
    ensures a.unpoliced == rep.unpoliced && (!a.unpoliced ==> a.wep == rep.wep)
    ensures Sig(store, pp, a.ip) == Sig(store, pp, rep.ip)
  {
    SigIsBits(store, pp, a.ip);
    SigIsBits(store, pp, rep.ip);
    ClassKeyInjective(OwnerFingerprint(a), Sig(store, pp, a.ip), OwnerFingerprint(rep), Sig(store, pp, rep.ip));
  }

  ghost predicate StoreProbes(env: Env, pp: PeerProbes) {
    && (forall r :: RuleIn(env.store, r) ==> Covers(env.store, pp, r))
    && pp.ipPortSuffix == PortSuffix(env.probe.protocol, env.probe.dstPort)
    && pp.srcPortSuffix == PortSuffix(env.probe.protocol, env.probe.srcPort)
  }

  /** A class verdict is the verdict of every member of the owner class towards every member of the peer class. */
  lemma ClassVerdictExact(env: Env, pp: PeerProbes, dir: Dir, a: Actor, rep: Actor, b: Actor, repB: Actor)
    requires StoreProbes(env, pp) && !a.isHEP && !rep.isHEP && Distinguished(a, rep)
    requires Key(env.store, pp, rep) == Key(env.store, pp, a) && Sig(env.store, pp, repB.ip) == Sig(env.store, pp, b.ip)
    ensures ClassVerdict(env, dir, rep, repB) <==>
            a.unpoliced || Allowed(env.store, env.scope, dir, a.wep,
                if dir == Egress then MkFlow(env.probe, a, b) else MkFlow(env.probe, b, a))
  {
    SameClass(env.store, pp, a, rep);
    var f := if dir == Egress then MkFlow(env.probe, a, b) else MkFlow(env.probe, b, a);
    var g := ToPeer(dir, MkFlow(env.probe, rep, rep), repB.ip);
    EqualSigsInterchange(env.store, pp, env.scope, dir, a.wep, f, g.srcIP, g.dstIP);
    assert g == f.(srcIP := g.srcIP, dstIP := g.dstIP);
  }

  /** The grouping of an actor list, as groupActors returns it. */
  ghost predicate GroupedActors(env: Env, pp: PeerProbes, list: seq<Actor>, repPeer: seq<Actor>, repClass: seq<Actor>,
                                peerOf: seq<nat>, classOf: seq<nat>)
  {
    && Grouped(SigsOf(env.store, pp, list), SigsOf(env.store, pp, repPeer), peerOf)
    && Grouped(KeysOfActors(env.store, pp, list), KeysOfActors(env.store, pp, repClass), classOf)
    && forall a :: a in repClass ==> a in list
  }

  /** Row ca column pb of one table and row cb column pa of the other together say allow. */
  ghost predicate Reads(allow: bool, egMemo: seq<bool>, inMemo: seq<bool>, nPeer: nat, ca: nat, pb: nat, cb: nat,
      pa: nat)
  {
    && ca * nPeer + pb < |egMemo| && cb * nPeer + pa < |inMemo|
    && (egMemo[ca * nPeer + pb] && inMemo[cb * nPeer + pa] <==> allow)
  }

  /** The lookup of the expansion loop finds evalFlow's verdict. */
  ghost predicate CellRight(env: Env, a: Actor, b: Actor, egMemo: seq<bool>, inMemo: seq<bool>, nPeer: nat,
                            ca: nat, pb: nat, cb: nat, pa: nat)
  {
    Reads(FlowAllows(env, a, b), egMemo, inMemo, nPeer, ca, pb, cb, pa)
  }

  lemma TablesRead(env: Env, repClass: seq<Actor>, repPeer: seq<Actor>, ca: nat, pb: nat, cb: nat, pa: nat)
    requires ca < |repClass| && cb < |repClass| && pa < |repPeer| && pb < |repPeer|
    ensures var both :=
              ClassVerdict(env, Egress, repClass[ca], repPeer[pb])
              && ClassVerdict(env, Ingress, repClass[cb], repPeer[pa]);
            Reads(both, ClassTable(env, Egress, repClass, repPeer), ClassTable(env, Ingress, repClass, repPeer),
                |repPeer|, ca, pb, cb, pa)
  {
    TableCell(env, Egress, repClass, repPeer, ca, pb);
    TableCell(env, Ingress, repClass, repPeer, cb, pa);
  }

  lemma Representatives(env: Env, pp: PeerProbes, list: seq<Actor>, repPeer: seq<Actor>, repClass: seq<Actor>,
                        peerOf: seq<nat>, classOf: seq<nat>, i: nat)
    requires GroupedActors(env, pp, list, repPeer, repClass, peerOf, classOf) && i < |list|
    ensures |peerOf| == |classOf| == |list| && classOf[i] < |repClass| && peerOf[i] < |repPeer|
    ensures repClass[classOf[i]] in list && Key(env.store, pp, repClass[classOf[i]]) == Key(env.store, pp, list[i])
    ensures Sig(env.store, pp, repPeer[peerOf[i]].ip) == Sig(env.store, pp, list[i].ip)
  {
    assert KeysOfActors(env.store, pp, list)[i] == Key(env.store, pp, list[i]);
    assert SigsOf(env.store, pp, list)[i] == Sig(env.store, pp, list[i].ip);
    assert repClass[classOf[i]] in repClass;
  }

  lemma CellExact(env: Env, pp: PeerProbes, list: seq<Actor>, repPeer: seq<Actor>, repClass: seq<Actor>,
                  peerOf: seq<nat>, classOf: seq<nat>, i: nat, j: nat)
    requires Collapsible(env, list) && StoreProbes(env, pp)
    requires i < |list| && j < |list| && |peerOf| == |classOf| == |list|
    requires GroupedActors(env, pp, list, repPeer, repClass, peerOf, classOf)
    ensures CellRight(env, list[i], list[j],
                      ClassTable(env, Egress, repClass, repPeer), ClassTable(env, Ingress, repClass, repPeer),
                      |repPeer|, classOf[i], peerOf[j], classOf[j], peerOf[i])
  {
    Representatives(env, pp, list, repPeer, repClass, peerOf, classOf, i);
    Representatives(env, pp, list, repPeer, repClass, peerOf, classOf, j);
    PairExact(env, pp, list[i], list[j], repClass[classOf[i]], repClass[classOf[j]],
        repPeer[peerOf[i]], repPeer[peerOf[j]]);
    TablesRead(env, repClass, repPeer, classOf[i], peerOf[j], classOf[j], peerOf[i]);
  }

  lemma PairExact(env: Env, pp: PeerProbes, a: Actor, b: Actor, ca: Actor, cb: Actor, pa: Actor, pb: Actor)
    requires env.heps == map[] && StoreProbes(env, pp)
    requires !a.isHEP && !b.isHEP && !ca.isHEP && !cb.isHEP && Distinguished(a, ca) && Distinguished(b, cb)
    requires Key(env.store, pp, ca) == Key(env.store, pp, a) && Key(env.store, pp, cb) == Key(env.store, pp, b)
    requires Sig(env.store, pp, pa.ip) == Sig(env.store, pp, a.ip)
    requires Sig(env.store, pp, pb.ip) == Sig(env.store, pp, b.ip)
    ensures ClassVerdict(env, Egress, ca, pb) && ClassVerdict(env, Ingress, cb, pa) <==> FlowAllows(env, a, b)
  {
    ClassVerdictExact(env, pp, Egress, a, ca, b, pb);
    ClassVerdictExact(env, pp, Ingress, b, cb, a, pa);
    NoHepsTwoLegs(env, a, b);
  }

  /** One pair: the two lookups, put. */
  method PutLookup(sink: MatrixSink, ghost env: Env, a: Actor, b: Actor, egMemo: seq<bool>, inMemo: seq<bool>,
                   nPeer: nat, egRow: int, ghost ca: nat, pb: nat, cb: nat, pa: nat)
    requires sink.Valid() && egRow == ca * nPeer && CellRight(env, a, b, egMemo, inMemo, nPeer, ca, pb, cb, pa)
    modifies sink
    ensures sink.Valid() && sink.log == old(sink.log) + [PairEntry(env, a, b)]
  {
    var res := "deny";
    if egMemo[egRow + pb] && inMemo[cb * nPeer + pa] {
      res := "allow";
    }
    sink.Put(a.id, b.id, res);
  }

  method FillCollapsedRow(sink: MatrixSink, ghost env: Env, list: seq<Actor>, nPeer: nat, peerOf: seq<nat>,
      classOf: seq<nat>, egMemo: seq<bool>, inMemo: seq<bool>, i: nat)
    requires sink.Valid() && i < |list| && |peerOf| == |classOf| == |list|
    requires forall j :: 0 <= j < |list| ==>
               CellRight(env, list[i], list[j], egMemo, inMemo, nPeer, classOf[i], peerOf[j], classOf[j], peerOf[i])
    modifies sink
    ensures sink.Valid() && sink.log == old(sink.log) + RowPuts(env, list, list[i])
  {
    var egRow, myPeer, src := classOf[i] * nPeer, peerOf[i], list[i];
    ghost var goal, ca := sink.log + RowPuts(env, list, src), classOf[i];
    for j := 0 to |list|
      invariant sink.Valid() && sink.log + RowPuts(env, list[j..], src) == goal
    {
      RowPutsStep(env, list, src, j, sink.log);
      if src.id != list[j].id {
        PutLookup(sink, env, src, list[j], egMemo, inMemo, nPeer, egRow, ca, peerOf[j], classOf[j], myPeer);
      }
    }
  }

  /** The expansion loop of fillMatrixCollapsed. */
  method Expand(sink: MatrixSink, env: Env, list: seq<Actor>, ghost pp: PeerProbes, repPeer: seq<Actor>,
                ghost repClass: seq<Actor>, peerOf: seq<nat>, classOf: seq<nat>, egMemo: seq<bool>, inMemo: seq<bool>)
    requires sink.Valid() && Collapsible(env, list) && StoreProbes(env, pp)
    requires GroupedActors(env, pp, list, repPeer, repClass, peerOf, classOf) && |peerOf| == |classOf| == |list|
    requires egMemo == ClassTable(env, Egress, repClass, repPeer)
    requires inMemo == ClassTable(env, Ingress, repClass, repPeer)
    modifies sink
    ensures sink.Valid() && sink.log == old(sink.log) + AllPuts(env, list, list)
  {
    ghost var goal := sink.log + AllPuts(env, list, list);
    for i := 0 to |list|
      invariant sink.Valid() && sink.log + AllPuts(env, list, list[i..]) == goal
    {
      AllPutsStep(env, list, i, sink.log);
      forall j | 0 <= j < |list| { CellExact(env, pp, list, repPeer, repClass, peerOf, classOf, i, j); }
      FillCollapsedRow(sink, env, list, |repPeer|, peerOf, classOf, egMemo, inMemo, i);
    }
  }

  /** fillMatrixCollapsed: the same puts, in the same order, as the exact per-pair loop. */
  method FillMatrixCollapsed(sink: MatrixSink, env: Env, list: seq<Actor>)
    requires sink.Valid() && Collapsible(env, list)
    modifies sink
    ensures sink.Valid() && sink.log == old(sink.log) + AllPuts(env, list, list)
  {
    var pp := CollectPeerProbes(env.store, env.probe.protocol, env.probe.srcPort, env.probe.dstPort);
    var repPeer, repClass, peerOf, classOf := GroupActors(env.store, list, pp);
    var egMemo, inMemo := EvaluateClasses(env, repClass, repPeer);
    Expand(sink, env, list, pp, repPeer, repClass, peerOf, classOf, egMemo[..], inMemo[..]);
  }
}
