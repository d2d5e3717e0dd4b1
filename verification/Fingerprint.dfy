/** The owner fingerprint: a printed form of the tier, policy and profile structure the checker walks, and when
    two owners share one. */
module Fingerprint {
  import opened Text
  import opened Checker
  import opened Flows

  // ----- printing -----

  /** Items, each followed by a terminator. */
  function Terminated(items: seq<string>, c: char): string {
    if items == [] then "" else items[0] + [c] + Terminated(items[1..], c)
  }

  function PolicyText(id: PolicyID): string { id.kind + ['/'] + (id.ns + ['/'] + id.name) }

  function PolicyTexts(ids: seq<PolicyID>): (r: seq<string>)
    ensures |r| == |ids|
  {
    seq(|ids|, k requires 0 <= k < |ids| => PolicyText(ids[k]))
  }

  /** writePolicyIDs. */
  function PoliciesText(ids: seq<PolicyID>): string { Terminated(PolicyTexts(ids), ',') }

  function TierText(t: Tier): string {
    t.name + ['|'] + (t.defaultAction + ['|'] + (PoliciesText(t.ingress) + ['|'] + PoliciesText(t.egress)))
  }

  function TierTexts(ts: seq<Tier>): (r: seq<string>)
    ensures |r| == |ts|
  {
    seq(|ts|, k requires 0 <= k < |ts| => TierText(ts[k]))
  }

  function WEPText(w: WEP): string { Terminated(TierTexts(w.tiers), ';') + ['#'] + Join(w.profileIds, ',') }

  function OwnerFingerprint(a: Actor): string { if a.unpoliced then "U" else WEPText(NormalWEP(a)) }

  method WritePolicyIDs(b0: string, ids: seq<PolicyID>) returns (b: string)
    ensures b == b0 + PoliciesText(ids)
  {
    b := b0;
    for i := 0 to |ids|
      invariant b0 + PoliciesText(ids) == b + PoliciesText(ids[i..])
    {
      assert PolicyTexts(ids[i..])[0] == PolicyText(ids[i]) && PolicyTexts(ids[i..])[1..] == PolicyTexts(ids[i + 1..]);
      Assoc(b, PolicyText(ids[i]) + [','], PoliciesText(ids[i + 1..]));
      b := b + (PolicyText(ids[i]) + [',']);
    }
  }

  lemma TierTextsStep(ts: seq<Tier>, i: nat, b: string)
    requires i < |ts|
    ensures b + Terminated(TierTexts(ts[i..]), ';') ==
            b + (TierText(ts[i]) + [';']) + Terminated(TierTexts(ts[i + 1..]), ';')
  {
    assert TierTexts(ts[i..])[0] == TierText(ts[i]) && TierTexts(ts[i..])[1..] == TierTexts(ts[i + 1..]);
    Assoc(b, TierText(ts[i]) + [';'], Terminated(TierTexts(ts[i + 1..]), ';'));
  }

  method PrintTier(t: Tier) returns (text: string)
    ensures text == TierText(t)
  {
    var ingress := WritePolicyIDs("", t.ingress);
    var egress := WritePolicyIDs("", t.egress);
    text := t.name + ['|'] + (t.defaultAction + ['|'] + (ingress + ['|'] + egress));
  }

  /** ownerFingerprint. */
  method PrintFingerprint(a: Actor) returns (b: string)
    ensures b == OwnerFingerprint(a)
  {
    if a.unpoliced {
      return "U";
    }
    var tiers := NormalWEP(a).tiers;
    b := "";
    ghost var all := Terminated(TierTexts(tiers), ';');
    for i := 0 to |tiers|
      invariant all == b + Terminated(TierTexts(tiers[i..]), ';')
    {
      TierTextsStep(tiers, i, b);
      var text := PrintTier(tiers[i]);
      b := b + (text + [';']);
    }
    assert TierTexts(tiers[|tiers|..]) == [];
    assert b == all;
    b := b + ['#'] + Join(NormalWEP(a).profileIds, ',');
  }

  // ----- reading back -----

  predicate Starts(s: string, c: char) { s != "" && s[0] == c }

  /** Each field is free of what ends it, and a list item does not start like the end of its list. */
  predicate PlainID(id: PolicyID) {
    '/' !in id.kind && '/' !in id.ns && ',' !in id.name && !Starts(id.kind, '|') && !Starts(id.kind, ';')
  }

  predicate PlainTier(t: Tier) {
    && '|' !in t.name && '|' !in t.defaultAction && !Starts(t.name, '#')
    && forall id :: id in t.ingress + t.egress ==> PlainID(id)
  }

  predicate PlainWEP(w: WEP) {
    (forall t :: t in w.tiers ==> PlainTier(t)) && (forall n :: n in w.profileIds ==> ',' !in n) && w.profileIds != [""]
  }

  lemma CutAt(a1: string, c: char, r1: string, a2: string, r2: string)
    requires c !in a1 && c !in a2 && a1 + [c] + r1 == a2 + [c] + r2
    ensures a1 == a2 && r1 == r2
  {
    IndexOfAt(a1, c, r1);
    IndexOfAt(a2, c, r2);
    assert a1 == (a1 + [c] + r1)[..|a1|] && a2 == (a2 + [c] + r2)[..|a1|];
    assert r1 == (a1 + [c] + r1)[|a1| + 1..] && r2 == (a2 + [c] + r2)[|a1| + 1..];
  }

  /** A text that starts with c differs from one that starts with another character. */
  lemma HeadsDiffer(c: char, r: string, head: string, d: char, tail: string)
    requires c != d && !Starts(head, c)
    ensures [c] + r != head + ([d] + tail)
  {
    var other := head + ([d] + tail);
    assert ([c] + r)[0] == c && other[0] == if head == "" then d else head[0];
  }

  lemma SameCons<T>(a: seq<T>, b: seq<T>)
    requires a != [] && b != [] && a[0] == b[0] && a[1..] == b[1..]
    ensures a == b
  {
    assert a == [a[0]] + a[1..] && b == [b[0]] + b[1..];
  }

  lemma PolicyCut(a: PolicyID, r1: string, b: PolicyID, r2: string)
    requires PlainID(a) && PlainID(b) && PolicyText(a) + [','] + r1 == PolicyText(b) + [','] + r2
    ensures a == b && r1 == r2
  {
    var ta, tb := a.name + [','] + r1, b.name + [','] + r2;
    assert PolicyText(a) + [','] + r1 == a.kind + ['/'] + (a.ns + ['/'] + ta);
    assert PolicyText(b) + [','] + r2 == b.kind + ['/'] + (b.ns + ['/'] + tb);
    CutAt(a.kind, '/', a.ns + ['/'] + ta, b.kind, b.ns + ['/'] + tb);
    CutAt(a.ns, '/', ta, b.ns, tb);
    CutAt(a.name, ',', r1, b.name, r2);
  }

  lemma PoliciesTextCons(ids: seq<PolicyID>, r: string)
    requires ids != []
    ensures PoliciesText(ids) + r == PolicyText(ids[0]) + [','] + (PoliciesText(ids[1..]) + r)
  {
    assert PolicyTexts(ids)[1..] == PolicyTexts(ids[1..]);
    assert PoliciesText(ids) == PolicyText(ids[0]) + [','] + PoliciesText(ids[1..]);
  }

  /** A non-empty list does not read as an ended one. */
  lemma PoliciesGoOn(ids: seq<PolicyID>, c: char, r1: string, r2: string)
    requires ids != [] && PlainID(ids[0]) && (c == '|' || c == ';')
    ensures [c] + r1 != PoliciesText(ids) + ([c] + r2)
  {
    var id := ids[0];
    var rest := id.ns + ['/'] + id.name + [','] + (PoliciesText(ids[1..]) + ([c] + r2));
    PoliciesTextCons(ids, [c] + r2);
    assert PolicyText(id) + [','] + (PoliciesText(ids[1..]) + ([c] + r2)) == id.kind + (['/'] + rest);
    HeadsDiffer(c, r1, id.kind, '/', rest);
  }

  /** Where a list of policies ends can be read off the text. */
  lemma {:induction false} PoliciesCut(a: seq<PolicyID>, b: seq<PolicyID>, c: char, r1: string, r2: string)
    requires (forall id :: id in a || id in b ==> PlainID(id)) && (c == '|' || c == ';')
    requires PoliciesText(a) + ([c] + r1) == PoliciesText(b) + ([c] + r2)
    ensures a == b && r1 == r2
  {
    assert "" + ([c] + r1) == [c] + r1 && "" + ([c] + r2) == [c] + r2;
    if a == [] && b == [] {
      assert r1 == ([c] + r1)[1..] && r2 == ([c] + r2)[1..];
    } else if a == [] {
      PoliciesGoOn(b, c, r1, r2);
    } else if b == [] {
      PoliciesGoOn(a, c, r2, r1);
    } else {
      PoliciesTextCons(a, [c] + r1);
      PoliciesTextCons(b, [c] + r2);
      PolicyCut(a[0], PoliciesText(a[1..]) + ([c] + r1), b[0], PoliciesText(b[1..]) + ([c] + r2));
      PoliciesCut(a[1..], b[1..], c, r1, r2);
      SameCons(a, b);
    }
  }

  /** A tier's text before a rest, field by field. */
  lemma TierFields(t: Tier, r: string)
    ensures TierText(t) + [';'] + r ==
            t.name + ['|'] + (t.defaultAction + ['|']
                + (PoliciesText(t.ingress) + (['|'] + (PoliciesText(t.egress) + ([';'] + r)))))
  {
  }

  lemma TierCut(a: Tier, r1: string, b: Tier, r2: string)
    requires PlainTier(a) && PlainTier(b) && TierText(a) + [';'] + r1 == TierText(b) + [';'] + r2
    ensures a == b && r1 == r2
  {
    var ea, eb := PoliciesText(a.egress) + ([';'] + r1), PoliciesText(b.egress) + ([';'] + r2);
    var ia, ib := PoliciesText(a.ingress) + (['|'] + ea), PoliciesText(b.ingress) + (['|'] + eb);
    TierFields(a, r1);
    TierFields(b, r2);
    CutAt(a.name, '|', a.defaultAction + ['|'] + ia, b.name, b.defaultAction + ['|'] + ib);
    CutAt(a.defaultAction, '|', ia, b.defaultAction, ib);
    PoliciesCut(a.ingress, b.ingress, '|', ea, eb);
    PoliciesCut(a.egress, b.egress, ';', r1, r2);
  }

  lemma TiersTextCons(ts: seq<Tier>, r: string)
    requires ts != []
    ensures Terminated(TierTexts(ts), ';') + r == TierText(ts[0]) + [';'] + (Terminated(TierTexts(ts[1..]), ';') + r)
  {
    assert TierTexts(ts)[1..] == TierTexts(ts[1..]);
  }

  lemma TiersGoOn(ts: seq<Tier>, r1: string, r2: string)
    requires ts != [] && PlainTier(ts[0])
    ensures ['#'] + r1 != Terminated(TierTexts(ts), ';') + (['#'] + r2)
  {
    TiersTextCons(ts, ['#'] + r2);
    var r := Terminated(TierTexts(ts[1..]), ';') + (['#'] + r2);
    TierFields(ts[0], r);
    var rest := ts[0].defaultAction + ['|']
                + (PoliciesText(ts[0].ingress) + (['|'] + (PoliciesText(ts[0].egress) + ([';'] + r))));
    assert ts[0].name + ['|'] + rest == ts[0].name + (['|'] + rest);
    HeadsDiffer('#', r1, ts[0].name, '|', rest);
  }

  lemma FirstTierCut(a: seq<Tier>, b: seq<Tier>, r1: string, r2: string)
    requires a != [] && b != [] && PlainTier(a[0]) && PlainTier(b[0])
    requires Terminated(TierTexts(a), ';') + r1 == Terminated(TierTexts(b), ';') + r2
    ensures a[0] == b[0] && Terminated(TierTexts(a[1..]), ';') + r1 == Terminated(TierTexts(b[1..]), ';') + r2
  {
    TiersTextCons(a, r1);
    TiersTextCons(b, r2);
    TierCut(a[0], Terminated(TierTexts(a[1..]), ';') + r1, b[0], Terminated(TierTexts(b[1..]), ';') + r2);
  }

  lemma NoTiersText(r: string)
    ensures Terminated(TierTexts([]), ';') + r == r
  {
    assert "" + r == r;
  }

  lemma NoTiersLeft(r1: string, r2: string)
    requires Terminated(TierTexts([]), ';') + (['#'] + r1) == Terminated(TierTexts([]), ';') + (['#'] + r2)
    ensures r1 == r2
  {
    NoTiersText(['#'] + r1);
    NoTiersText(['#'] + r2);
    assert r1 == (['#'] + r1)[1..] && r2 == (['#'] + r2)[1..];
  }

  /** Where the tiers end can be read off the text. */
  lemma {:induction false} TiersCut(a: seq<Tier>, b: seq<Tier>, r1: string, r2: string)
    requires forall t :: t in a || t in b ==> PlainTier(t)
    requires Terminated(TierTexts(a), ';') + (['#'] + r1) == Terminated(TierTexts(b), ';') + (['#'] + r2)
    ensures a == b && r1 == r2
  {
    if a == [] && b == [] {
      NoTiersLeft(r1, r2);
    } else if a == [] {
      TiersGoOn(b, r1, r2);
      NoTiersText(['#'] + r1);
    } else if b == [] {
      TiersGoOn(a, r2, r1);
      NoTiersText(['#'] + r2);
    } else {
      FirstTierCut(a, b, ['#'] + r1, ['#'] + r2);
      TiersCut(a[1..], b[1..], r1, r2);
      SameCons(a, b);
    }
  }

  lemma JoinInjective(a: seq<string>, b: seq<string>, c: char)
    requires (forall x :: x in a || x in b ==> c !in x) && a != [""] && b != [""]
    requires Join(a, c) == Join(b, c)
    ensures a == b
  {
    if a != [] { SplitJoin(a, c); }
    if b != [] { SplitJoin(b, c); }
    assert Split("", c) == [""];
  }

  lemma WEPTextParts(w: WEP)
    ensures WEPText(w) == Terminated(TierTexts(w.tiers), ';') + (['#'] + Join(w.profileIds, ','))
  {
  }

  lemma WEPTextInjective(a: WEP, b: WEP)
    requires PlainWEP(a) && PlainWEP(b) && WEPText(a) == WEPText(b)
    ensures a == b
  {
    WEPTextParts(a);
    WEPTextParts(b);
    TiersCut(a.tiers, b.tiers, Join(a.profileIds, ','), Join(b.profileIds, ','));
    JoinInjective(a.profileIds, b.profileIds, ',');
  }

  /** One owner structure: both unpoliced, or the same tiers, policies and profiles. */
  predicate SameOwner(a: Actor, b: Actor) {
    if a.unpoliced || b.unpoliced then a.unpoliced && b.unpoliced else NormalWEP(a) == NormalWEP(b)
  }

  /** Owners share a fingerprint exactly when both are unpoliced or both carry the same structure. */
  lemma FingerprintExact(a: Actor, b: Actor)
    requires PlainWEP(NormalWEP(a)) && PlainWEP(NormalWEP(b))
    ensures OwnerFingerprint(a) == OwnerFingerprint(b) <==> SameOwner(a, b)
  {
    assert forall w: WEP :: '#' in WEPText(w);
    if !a.unpoliced && !b.unpoliced && OwnerFingerprint(a) == OwnerFingerprint(b) {
      WEPTextInjective(NormalWEP(a), NormalWEP(b));
    }
  }

  /** Owners that share a fingerprint share their structure. */
  predicate Distinguished(a: Actor, b: Actor) { OwnerFingerprint(a) == OwnerFingerprint(b) ==> SameOwner(a, b) }

  predicate Unambiguous(list: seq<Actor>) { forall a, b :: a in list && b in list ==> Distinguished(a, b) }

  /** Names free of the separators of their fields make a list unambiguous. */
  lemma PlainIsUnambiguous(list: seq<Actor>)
    requires forall a :: a in list ==> PlainWEP(NormalWEP(a))
    ensures Unambiguous(list)
  {
    forall a, b | a in list && b in list ensures Distinguished(a, b) {
      FingerprintExact(a, b);
    }
  }

  /** The class key: fingerprint, a zero byte, peer signature. */
  function ClassKey(fingerprint: string, sig: string): string { fingerprint + ['\0'] + sig }

  /** The key determines both parts even when names hold zero bytes: signatures never do. */
  lemma ClassKeyInjective(f1: string, s1: string, f2: string, s2: string)
    requires '\0' !in s1 && '\0' !in s2 && ClassKey(f1, s1) == ClassKey(f2, s2)
    ensures f1 == f2 && s1 == s2
  {
    var k := ClassKey(f1, s1);
    assert k[|f1|] == '\0' && k[|f2|] == '\0';
    assert forall i :: |f1| < i < |k| ==> k[i] == s1[i - |f1| - 1];
    assert forall i :: |f2| < i < |k| ==> k[i] == s2[i - |f2| - 1];
    assert |f1| == |f2|;
    assert f1 == k[..|f1|] && f2 == k[..|f2|] && s1 == k[|f1| + 1..] && s2 == k[|f2| + 1..];
  }

  /** Names holding a separator do collide: one profile "a,b" and the two profiles "a" and "b". */
  lemma SeparatorsCollide(a: Actor, b: Actor)
    requires !a.unpoliced && !b.unpoliced && !a.isHEP && !b.isHEP
    requires a.wep == WEP([], ["a,b"]) && b.wep == WEP([], ["a", "b"])
    ensures OwnerFingerprint(a) == OwnerFingerprint(b) && NormalWEP(a) != NormalWEP(b)
  {
    assert Join(["a", "b"], ',') == "a" + [','] + Join(["b"], ',') == "a,b";
  }

  /** ... and the collapse, which checks one owner a class, would then give one of them the other's verdict. */
  lemma CollidingOwnersDiffer(a: Actor, b: Actor, store: Store, f: Flow)
    requires !a.unpoliced && !b.unpoliced && !a.isHEP && !b.isHEP
    requires a.wep == WEP([], ["a,b"]) && b.wep == WEP([], ["a", "b"])
    requires store.profiles == map["a,b" := Policy([], [ALLOW_ALL])]
    ensures OwnerFingerprint(a) == OwnerFingerprint(b)
    ensures Allowed(store, EnforcedOnly, Egress, a.wep, f) && !Allowed(store, EnforcedOnly, Egress, b.wep, f)
  {
    SeparatorsCollide(a, b);
    assert RuleMatches(store, ALLOW_ALL, f);
    assert CheckRules(store, [ALLOW_ALL], f) == Some(Allow);
    assert "a" !in store.profiles && "b" !in store.profiles;
    assert ["a", "b"][1..] == ["b"] && ["b"][1..] == [];
    assert CheckProfiles(store, ["b"], Egress, f) == CheckProfiles(store, [], Egress, f) == None;
    assert CheckProfiles(store, ["a", "b"], Egress, f) == None;
  }
}
