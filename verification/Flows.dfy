/** Actors and the per-flow walk: both terminating legs plus the overlays of the host endpoints. */
module Flows {
  import opened Text
  import opened Addresses
  import opened Checker

  datatype HEP = HEP(tiers: seq<Tier>, forwardTiers: seq<Tier>, preDnatTiers: seq<Tier>,
                     untrackedTiers: seq<Tier>, profileIds: seq<string>)

  /** A row or column of the matrix; wep counts for workloads, hep for host endpoints. */
  datatype Actor = Actor(id: string, isHEP: bool, ip: IP, node: string, wep: WEP, hep: HEP,
                         unpoliced: bool, role: string)

  function HepAsWEP(h: HEP, tiers: seq<Tier>): WEP { WEP(tiers, h.profileIds) }

  function NormalWEP(a: Actor): WEP { if a.isHEP then HepAsWEP(a.hep, a.hep.tiers) else a.wep }

  /** The host endpoints of each node. */
  type HepIndex = map<string, seq<Actor>>

  function HepsOn(heps: HepIndex, node: string): seq<Actor> { if node in heps then heps[node] else [] }

  /** The single probe of a request. */
  datatype Probe = Probe(protocol: nat, srcPort: nat, dstPort: nat, httpMethod: Option<string>)

  function MkFlow(pr: Probe, src: Actor, dst: Actor): Flow {
    Flow(src.ip, dst.ip, pr.srcPort, pr.dstPort, pr.protocol, pr.httpMethod)
  }

  datatype Env = Env(store: Store, scope: Scope, probe: Probe, heps: HepIndex)

  // ----- the legs of a flow -----

  datatype Leg = Leg(dir: Dir, wep: WEP, flow: Flow)

  predicate LegAllows(env: Env, l: Leg) { Allowed(env.store, env.scope, l.dir, l.wep, l.flow) }

  /** Tiers whose end-of-tier action the leg reached; the profile marker is not a tier. */
  function EndOfTier(trace: seq<RuleID>): set<string> {
    set e | e in trace && e.tierDefault && !e.profile :: e.tier
  }

  function LegEot(env: Env, l: Leg): set<string> {
    EndOfTier(Evaluate(env.store, env.scope, l.dir, l.wep, l.flow))
  }

  /** forwardTierHas. */
  predicate ForwardTierHas(h: HEP, dir: Dir) { exists t :: t in h.forwardTiers && PoliciesFor(t, dir) != [] }

  /** The hooks a host endpoint puts on flows through its node. */
  datatype Hook = Forward(dir: Dir) | PreDnat

  /** Whether h's hook gates a flow of the endpoint called self. */
  predicate Gates(k: Hook, h: Actor, self: string) {
    h.id != self && match k case Forward(dir) => ForwardTierHas(h.hep, dir) case PreDnat => h.hep.preDnatTiers != []
  }

  function HookLeg(k: Hook, h: Actor, f: Flow): Leg {
    match k
    case Forward(dir) => Leg(dir, HepAsWEP(h.hep, h.hep.forwardTiers), f)
    case PreDnat => Leg(Ingress, HepAsWEP(h.hep, h.hep.preDnatTiers), f)
  }

  predicate Untracked(a: Actor) { a.isHEP && a.hep.untrackedTiers != [] }

  ghost predicate IsTerminatingLeg(src: Actor, dst: Actor, f: Flow, l: Leg) {
    || (!src.unpoliced && l == Leg(Egress, NormalWEP(src), f))
    || (!dst.unpoliced && l == Leg(Ingress, NormalWEP(dst), f))
  }

  ghost predicate IsHookLeg(k: Hook, hs: seq<Actor>, self: string, f: Flow, l: Leg) {
    exists h :: h in hs && Gates(k, h, self) && l == HookLeg(k, h, f)
  }

  ghost predicate IsHepLeg(heps: HepIndex, src: Actor, dst: Actor, f: Flow, l: Leg) {
    || IsHookLeg(Forward(Egress), HepsOn(heps, src.node), src.id, f, l)
    || IsHookLeg(Forward(Ingress), HepsOn(heps, dst.node), dst.id, f, l)
    || IsHookLeg(PreDnat, HepsOn(heps, dst.node), dst.id, f, l)
  }

  ghost predicate IsUntrackedLeg(a: Actor, dir: Dir, f: Flow, rev: Flow, l: Leg) {
    Untracked(a) && (|| l == Leg(dir, HepAsWEP(a.hep, a.hep.untrackedTiers), f)
                     || l == Leg(if dir == Egress then Ingress else Egress, HepAsWEP(a.hep, a.hep.untrackedTiers), rev))
  }

  /** Every leg src->dst traverses. */
  ghost predicate IsLeg(heps: HepIndex, src: Actor, dst: Actor, f: Flow, rev: Flow, l: Leg) {
    || IsTerminatingLeg(src, dst, f, l) || IsHepLeg(heps, src, dst, f, l)
    || IsUntrackedLeg(src, Egress, f, rev, l) || IsUntrackedLeg(dst, Ingress, f, rev, l)
  }

  /** The specification of evalFlow: every leg allows. */
  ghost predicate FlowAllows(env: Env, src: Actor, dst: Actor) {
    forall l :: IsLeg(env.heps, src, dst, MkFlow(env.probe, src, dst), MkFlow(env.probe, dst, src), l) ==>
        LegAllows(env, l)
  }

  /** ... and a tier is reported when some leg reaches its end. */
  ghost predicate ReachesEnd(env: Env, src: Actor, dst: Actor, tier: string) {
    exists l :: IsLeg(env.heps, src, dst, MkFlow(env.probe, src, dst), MkFlow(env.probe, dst, src), l)
      && tier in LegEot(env, l)
  }

  // ----- the walk as the Go code runs it -----

  /** evalFlow's walk closure: the verdict of one leg, its end-of-tier actions added to eot. */
  method WalkLeg(env: Env, l: Leg, eot0: set<string>) returns (ok: bool, eot: set<string>)
    ensures ok == LegAllows(env, l) && eot == eot0 + LegEot(env, l)
  {
    var trace := Evaluate(env.store, env.scope, l.dir, l.wep, l.flow);
    eot := eot0;
    for i := 0 to |trace|
      invariant eot == eot0 + EndOfTier(trace[..i])
    {
      assert trace[..i + 1] == trace[..i] + [trace[i]];
      if trace[i].tierDefault && !trace[i].profile {
        eot := eot + {trace[i].tier};
      }
    }
    assert trace[..|trace|] == trace;
    ok := Verdict(trace);
  }

  /** A loop over the host endpoints of a node, for one hook. */
  method WalkHeps(env: Env, k: Hook, hs: seq<Actor>, self: string, f: Flow, allow0: bool, eot0: set<string>)
    returns (allow: bool, eot: set<string>)
    ensures allow <==> allow0 && forall l :: IsHookLeg(k, hs, self, f, l) ==> LegAllows(env, l)
    ensures forall t :: t in eot <==> t in eot0 || exists l :: IsHookLeg(k, hs, self, f, l) && t in LegEot(env, l)
  {
    allow, eot := allow0, eot0;
    for i := 0 to |hs|
      invariant allow <==>
                allow0 && forall j :: 0 <= j < i && Gates(k, hs[j], self) ==> LegAllows(env, HookLeg(k, hs[j], f))
      invariant forall t :: t in eot <==>
                  t in eot0 || exists j :: 0 <= j < i && Gates(k, hs[j], self) && t in LegEot(env, HookLeg(k, hs[j], f))
    {
      if !Gates(k, hs[i], self) {
        continue;
      }
      var ok;
      ok, eot := WalkLeg(env, HookLeg(k, hs[i], f), eot);
      if !ok {
        allow := false;
      }
    }
    assert forall j :: 0 <= j < |hs| && Gates(k, hs[j], self) ==>
           hs[j] in hs && IsHookLeg(k, hs, self, f, HookLeg(k, hs[j], f));
    assert forall l :: IsHookLeg(k, hs, self, f, l) ==>
           exists j :: 0 <= j < |hs| && Gates(k, hs[j], self) && l == HookLeg(k, hs[j], f);
  }

  /** The doNotTrack overlay of one endpoint of the flow: both directions must allow. */
  method WalkUntracked(env: Env, a: Actor, dir: Dir, f: Flow, rev: Flow, allow0: bool, eot0: set<string>)
    returns (allow: bool, eot: set<string>)
    ensures allow <==> allow0 && forall l :: IsUntrackedLeg(a, dir, f, rev, l) ==> LegAllows(env, l)
    ensures forall t :: t in eot <==> t in eot0 || exists l :: IsUntrackedLeg(a, dir, f, rev, l) && t in LegEot(env, l)
  {
    allow, eot := allow0, eot0;
    if a.isHEP && a.hep.untrackedTiers != [] {
      var w, back := HepAsWEP(a.hep, a.hep.untrackedTiers), if dir == Egress then Ingress else Egress;
      var fwd, rvs;
      fwd, eot := WalkLeg(env, Leg(dir, w, f), eot);
      rvs, eot := WalkLeg(env, Leg(back, w, rev), eot);
      if !(fwd && rvs) {
        allow := false;
      }
      assert IsUntrackedLeg(a, dir, f, rev, Leg(dir, w, f)) && IsUntrackedLeg(a, dir, f, rev, Leg(back, w, rev));
    }
  }

  method WalkTerminating(env: Env, src: Actor, dst: Actor, f: Flow) returns (allow: bool, eot: set<string>)
    ensures allow <==> forall l :: IsTerminatingLeg(src, dst, f, l) ==> LegAllows(env, l)
    ensures forall t :: t in eot <==> exists l :: IsTerminatingLeg(src, dst, f, l) && t in LegEot(env, l)
  {
    var egressOK, ingressOK := true, true;
    eot := {};
    if !src.unpoliced {
      egressOK, eot := WalkLeg(env, Leg(Egress, NormalWEP(src), f), eot);
      assert IsTerminatingLeg(src, dst, f, Leg(Egress, NormalWEP(src), f));
    }
    if !dst.unpoliced {
      ingressOK, eot := WalkLeg(env, Leg(Ingress, NormalWEP(dst), f), eot);
      assert IsTerminatingLeg(src, dst, f, Leg(Ingress, NormalWEP(dst), f));
    }
    allow := egressOK && ingressOK;
  }

  method WalkOverlays(env: Env, src: Actor, dst: Actor, f: Flow, allow0: bool, eot0: set<string>)
    returns (allow: bool, eot: set<string>)
    ensures allow <==> allow0 && forall l :: IsHepLeg(env.heps, src, dst, f, l) ==> LegAllows(env, l)
    ensures forall t :: t in eot <==> t in eot0 || exists l :: IsHepLeg(env.heps, src, dst, f, l) && t in LegEot(env, l)
  {
    var onSrc, onDst := HepsOn(env.heps, src.node), HepsOn(env.heps, dst.node);
    allow, eot := WalkHeps(env, Forward(Egress), onSrc, src.id, f, allow0, eot0);
    allow, eot := WalkHeps(env, Forward(Ingress), onDst, dst.id, f, allow, eot);
    allow, eot := WalkHeps(env, PreDnat, onDst, dst.id, f, allow, eot);
  }

  /** evalFlow, one method a section of the Go function. */
  method EvalFlow(env: Env, src: Actor, dst: Actor) returns (allow: bool, eot: set<string>)
    ensures allow <==> FlowAllows(env, src, dst)
    ensures forall t :: t in eot <==> ReachesEnd(env, src, dst, t)
  {
    var f, rev := MkFlow(env.probe, src, dst), MkFlow(env.probe, dst, src);
    allow, eot := WalkTerminating(env, src, dst, f);
    allow, eot := WalkOverlays(env, src, dst, f, allow, eot);
    allow, eot := WalkUntracked(env, src, Egress, f, rev, allow, eot);
    allow, eot := WalkUntracked(env, dst, Ingress, f, rev, allow, eot);
  }

  // ----- host endpoints -----

  /** Every host endpoint of a node in one index is also in the other. */
  ghost predicate Included(h1: HepIndex, h2: HepIndex) {
    forall n, h :: h in HepsOn(h1, n) ==> h in HepsOn(h2, n)
  }

  /** Adding host endpoints never turns a deny into an allow and never shrinks the end-of-tier set. */
  lemma MoreHepsRestrict(env: Env, more: HepIndex, src: Actor, dst: Actor)
    requires Included(env.heps, more)
    ensures FlowAllows(env.(heps := more), src, dst) ==> FlowAllows(env, src, dst)
    ensures forall t :: ReachesEnd(env, src, dst, t) ==> ReachesEnd(env.(heps := more), src, dst, t)
  {
    var f, rev, env2 := MkFlow(env.probe, src, dst), MkFlow(env.probe, dst, src), env.(heps := more);
    forall l | IsLeg(env.heps, src, dst, f, rev, l) ensures IsLeg(more, src, dst, f, rev, l) {
    }
    forall l ensures LegAllows(env, l) == LegAllows(env2, l) && LegEot(env, l) == LegEot(env2, l) {
    }
  }

  /** In particular the order of the host endpoints of a node plays no part. */
  lemma HepOrderIrrelevant(env: Env, other: HepIndex, src: Actor, dst: Actor)
    requires forall n :: multiset(HepsOn(env.heps, n)) == multiset(HepsOn(other, n))
    ensures FlowAllows(env.(heps := other), src, dst) <==> FlowAllows(env, src, dst)
    ensures forall t :: ReachesEnd(env, src, dst, t) <==> ReachesEnd(env.(heps := other), src, dst, t)
  {
    forall n, h ensures h in HepsOn(env.heps, n) <==> h in HepsOn(other, n) {
      assert h in multiset(HepsOn(env.heps, n)) <==> h in multiset(HepsOn(other, n));
    }
    MoreHepsRestrict(env, other, src, dst);
    MoreHepsRestrict(env.(heps := other), env.heps, src, dst);
    assert env.(heps := other).(heps := env.heps) == env;
  }

  /** Without host endpoints only the two terminating legs are left. */
  lemma NoHepsTwoLegs(env: Env, src: Actor, dst: Actor)
    requires env.heps == map[] && !src.isHEP && !dst.isHEP
    ensures FlowAllows(env, src, dst) <==>
            && (src.unpoliced || Allowed(env.store, env.scope, Egress, src.wep, MkFlow(env.probe, src, dst)))
            && (dst.unpoliced || Allowed(env.store, env.scope, Ingress, dst.wep, MkFlow(env.probe, src, dst)))
  {
    var f, rev := MkFlow(env.probe, src, dst), MkFlow(env.probe, dst, src);
    if !src.unpoliced {
      assert IsLeg(env.heps, src, dst, f, rev, Leg(Egress, src.wep, f));
    }
    if !dst.unpoliced {
      assert IsLeg(env.heps, src, dst, f, rev, Leg(Ingress, dst.wep, f));
    }
    assert forall l :: IsLeg(env.heps, src, dst, f, rev, l) ==>
        (!src.unpoliced && l == Leg(Egress, src.wep, f)) || (!dst.unpoliced && l == Leg(Ingress, dst.wep, f));
  }

  // ----- the legs, field by field -----

  /** A host endpoint of the node that is not the endpoint called self. */
  ghost predicate OtherHep(env: Env, node: string, self: string, h: Actor) {
    node in env.heps && h in env.heps[node] && h.id != self
  }

  ghost predicate HasEgress(tiers: seq<Tier>) { exists t :: t in tiers && t.egress != [] }

  ghost predicate HasIngress(tiers: seq<Tier>) { exists t :: t in tiers && t.ingress != [] }

  /** The endpoints' own tiers: those of the workload, or of the host endpoint. */
  ghost predicate OwnLeg(src: Actor, dst: Actor, f: Flow, l: Leg) {
    || (!src.unpoliced && !src.isHEP && l == Leg(Egress, src.wep, f))
    || (!src.unpoliced && src.isHEP && l == Leg(Egress, WEP(src.hep.tiers, src.hep.profileIds), f))
    || (!dst.unpoliced && !dst.isHEP && l == Leg(Ingress, dst.wep, f))
    || (!dst.unpoliced && dst.isHEP && l == Leg(Ingress, WEP(dst.hep.tiers, dst.hep.profileIds), f))
  }

  /** Host endpoints on the way: forward tiers where they have policies in the direction, and preDNAT tiers on the
      destination's node. */
  ghost predicate OverlayLeg(env: Env, src: Actor, dst: Actor, f: Flow, l: Leg) {
    || (exists h :: OtherHep(env, src.node, src.id, h) && HasEgress(h.hep.forwardTiers)
          && l == Leg(Egress, WEP(h.hep.forwardTiers, h.hep.profileIds), f))
    || (exists h :: OtherHep(env, dst.node, dst.id, h) && HasIngress(h.hep.forwardTiers)
          && l == Leg(Ingress, WEP(h.hep.forwardTiers, h.hep.profileIds), f))
    || (exists h :: OtherHep(env, dst.node, dst.id, h) && h.hep.preDnatTiers != []
          && l == Leg(Ingress, WEP(h.hep.preDnatTiers, h.hep.profileIds), f))
  }

  /** Untracked tiers of a host endpoint at either end, for the flow and for its reply. */
  ghost predicate DoNotTrackLeg(src: Actor, dst: Actor, f: Flow, reply: Flow, l: Leg) {
    || (src.isHEP && src.hep.untrackedTiers != []
        && (|| l == Leg(Egress, WEP(src.hep.untrackedTiers, src.hep.profileIds), f)
            || l == Leg(Ingress, WEP(src.hep.untrackedTiers, src.hep.profileIds), reply)))
    || (dst.isHEP && dst.hep.untrackedTiers != []
        && (|| l == Leg(Ingress, WEP(dst.hep.untrackedTiers, dst.hep.profileIds), f)
            || l == Leg(Egress, WEP(dst.hep.untrackedTiers, dst.hep.profileIds), reply)))
  }

  /** All of them, for the probe sent from src to dst. */
  ghost predicate Traverses(env: Env, src: Actor, dst: Actor, l: Leg) {
    var p := env.probe;
    var f := Flow(src.ip, dst.ip, p.srcPort, p.dstPort, p.protocol, p.httpMethod);
    var reply := Flow(dst.ip, src.ip, p.srcPort, p.dstPort, p.protocol, p.httpMethod);
    OwnLeg(src, dst, f, l) || OverlayLeg(env, src, dst, f, l) || DoNotTrackLeg(src, dst, f, reply, l)
  }

  lemma OverlayLegs(env: Env, src: Actor, dst: Actor, f: Flow, l: Leg)
    ensures IsHepLeg(env.heps, src, dst, f, l) <==> OverlayLeg(env, src, dst, f, l)
  {
    forall node, self, h ensures h in HepsOn(env.heps, node) && h.id != self <==> OtherHep(env, node, self, h) {
    }
    forall h ensures Gates(Forward(Egress), h, src.id) <==> h.id != src.id && HasEgress(h.hep.forwardTiers) {
    }
    forall h ensures Gates(Forward(Ingress), h, dst.id) <==> h.id != dst.id && HasIngress(h.hep.forwardTiers) {
    }
  }

  lemma LegsAreTraversed(env: Env, src: Actor, dst: Actor, l: Leg)
    ensures IsLeg(env.heps, src, dst, MkFlow(env.probe, src, dst), MkFlow(env.probe, dst, src), l) <==>
            Traverses(env, src, dst, l)
  {
    OverlayLegs(env, src, dst, MkFlow(env.probe, src, dst), l);
  }

  /** A flow is allowed exactly when the checker's last word on every one of these legs is to allow, and a tier is
      reported exactly when one of them passes its end. */
  lemma FlowByLegs(env: Env, src: Actor, dst: Actor)
    ensures FlowAllows(env, src, dst) <==>
            forall l :: Traverses(env, src, dst, l) ==> Verdict(Evaluate(env.store, env.scope, l.dir, l.wep, l.flow))
    ensures forall tier :: ReachesEnd(env, src, dst, tier) <==>
              exists l, e :: Traverses(env, src, dst, l) && e in Evaluate(env.store, env.scope, l.dir, l.wep, l.flow)
                && e.tierDefault && !e.profile && e.tier == tier
  {
    forall l
      ensures IsLeg(env.heps, src, dst, MkFlow(env.probe, src, dst), MkFlow(env.probe, dst, src), l) <==>
              Traverses(env, src, dst, l)
    {
      LegsAreTraversed(env, src, dst, l);
    }
  }
}
