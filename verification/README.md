# Telepathy, modelled in Dafny

Telepathy predicts which endpoint of a cluster can reach which, from the policies it is given. Almost
everything hard in it is a fast, compiled or streamed form that has to mean the same as a simple one. This
project models those forms and proves that they do, or says exactly when they do not.

`dafny verify dfyconfig.toml` checks the whole project.

| Part | Modules | The fast form, and the simple one it refines |
|---|---|---|
| HNS compiler | `PortLists`, `Addresses`, `Flattening`, `Renumbering`, `HnsFlattener` | a flat, renumbered ACL list against a walk of the tiers |
| Windows and Linux | `Checker`, `Polprog`, `WindowsParity` | the rendered HNS list against the tier-then-profile program for Linux |
| Matrix collapse | `Flows`, `Fingerprint`, `Signatures`, `Collapse` | one checker call per class pair against one per endpoint pair |
| Other evaluations | `Logs`, `Matrix`, `Topology`, `Selection`, `Streaming`, `Assertions`, `Engine` | requested pairs, the streamed file and grouped gating against the full matrix in memory |
| Antrea | `EndpointPairs`, `Antrea` | a per-probe policy index against the two-sided Kubernetes semantics |
| Preprocessing | `IcmpFilter`, `Diff` | filtered rules before an ICMP-blind checker against an ICMP-aware walk; a change list against two allow-sets |

`Text` holds what the Go code takes from its standard library: splitting and joining, decimal numbers, `src->dst`
keys, byte order and stable sorting, ranging over maps in no promised order.

Two conventions. Code that updates things in place is a class or a method over arrays and local variables, specified
by a function or a predicate; what the source promises is then proved about that specification. A method over the
matrix sink is specified by the puts it makes, in order (`MatrixSink.log`, a ghost field); what remains of a list of
puts in memory, in the file or for one pair of ids is defined in `Logs`.

## Where the code does less than it says

On inputs the code can be given, with the exact condition under which it happens.

- `combinePorts` tests a bitset's length where it means its count, so it never reports an empty intersection: two
  disjoint port lists combine to the empty list, which means any port. A run that reaches 65535 has no next clear
  bit and is dropped. `PortLists.CombinePortsExactIff` gives the exact guard, `Flattening.PassThenExactIff` shows
  that the flattener needs it, and `Flattening.DisjointPortsAllow` a packet that the tiers block and the flattened
  list allows.
- Windows and Linux agree on a flow unless Linux allows it past a dead end: a tier of staged policies that drops at
  its end, or a pass, by a rule or by a tier's default action, out of the last tier with policies when no profiles
  follow (`WindowsParity.WindowsAgreesIff`). The lint looks only at Pass rules of default tiers, so a silent lint does
  not rule this out: `WindowsParity.SilentLintDiverges` has two endpoints on which it is silent and the two dataplanes
  differ on every flow. With the two further conditions of `WindowsParity.WindowsAgreesWithLinux` it does.
- Numbering by action groups keeps the order exactly as long as the action changes fit into 16 bits
  (`Renumbering.GroupedOrderIff`). Once a number wraps, and unless all actions are equal, some list with these actions
  lets the dataplane pick a rule whose action is not the first match's, whatever the packet
  (`Renumbering.TieBreakSafeIff`).
- Matrix cells are keyed `src->dst`. Two pairs share a cell exactly when the arrow of one is inside a name of the other
  (`Logs.KeysCollideIff`); a lookup then answers with the last put under the key, whichever pair it was for
  (`Logs.ResidentIsOwner`). So a set of pairs can be read back from every log of puts for them exactly when no two of
  them collide in that way (`Logs.ReadsBackIff`).
- A diff calls a flow closed that the head allows, when the base verdict was neither allow nor deny
  (`Diff.ReplayExactIff`, `Diff.UnknownVerdictIsMisread`).
- A comment in `provider/calico/feed.go` (lines 44-49) says the ICMP filter is a no-op for probes of other protocols.
  The code filters for them too. A flow keeps its deciding rule exactly when that rule passes the filter
  (`IcmpFilter.DeciderKeptIff`); that is always so when rules with ICMP matchers name an ICMP protocol
  (`IcmpFilter.OtherProtocolsUnaffected`), and fails without (`IcmpFilter.FilterHitsOtherProtocols`).

Limits of hypotheses: inputs that other parts of the system keep away from the code in question.

- A tier without a catch-all falls back into the tier before it (`Flattening.MissingCatchAllFallsBack`,
  `Flattening.MissingCatchAllInput`); `Flattening.FlattenCorrect` says for which packets. Every list that reaches
  `flattenTiers` comes from `GetPolicySetRules`, which appends a catch-all (`WindowsParity.EndpointTiersCatch`).
- The class key of the collapse is not injective for names that hold the separator of their own field
  (`Fingerprint.SeparatorsCollide`, `Fingerprint.CollidingOwnersDiffer`). Kubernetes names hold none of them.
- A backend named like a service column has its own column overwritten, so that the service may read as denied in a full
  matrix and as allowed in a partial one (`Selection.BackendColumnOverwritten`). Column names have two slashes, ids of
  workloads one.
- Keys without an arrow do not survive a diff (`Diff.ArrowlessKeyBreaksReplay`); an evaluation never emits one.

## Model

| member | source | states |
|---|---|---|
| PortLists.ParsePorts | provider/calico/hns.go:532-553 | the bitset holds exactly the ports of the well-formed pieces of the list, and its length only grows past 65536 for larger ports |
| PortLists.ParsedMembers | provider/calico/hns.go:532-553 | a port is in the parsed list iff some piece of the text covers it |
| PortLists.PieceMeaning | provider/calico/hns.go:532-553 | a piece covers its one number, or the numbers between the first two parts of a dashed one, and nothing when a number it needs is malformed |
| PortLists.PrintRuns | provider/calico/hns.go:509-529 | the run-scanning loop ends and prints the maximal runs that a clear bit follows |
| PortLists.RunsOrder | provider/calico/hns.go:509-529 | the printed runs ascend, are disjoint and non-adjacent |
| PortLists.RunsCover | provider/calico/hns.go:509-529 | the runs cover exactly the set bits that a clear bit follows inside the set's length |
| PortLists.CombinePorts | provider/calico/hns.go:496-530 | an empty list yields the other one, otherwise the runs of the intersection are printed; the no-op error is never returned |
| PortLists.CombinedReadsBack | provider/calico/hns.go:496-553 | the printed list, read back, is the intersection without a run reaching the end; with no such run it is the empty list |
| PortLists.CombinePortsExactIff | provider/calico/hns.go:496-553 | the combined list matches the ports both lists match iff one is empty, or the intersection is non-empty and misses 65535, or it is every port |
| Addresses.IntersectNetsMeaning | provider/calico/hns.go:555-569 | an address is in the intersection of two CIDR lists iff it is in both |
| Flattening.CombineMeaning | provider/calico/hns.go:470-494 | rules reported as a no-op share no packet; otherwise the combined rule matches the conjunction, for exact port pairs |
| Flattening.FlattenStops | provider/calico/hns.go:415-494 | for every packet whose passes are combined faithfully, the first rule of the flattened list that matches carries the id, action and priority of the rule at which the backtracking walk stops |
| Flattening.FlattenBacktracks | provider/calico/hns.go:415-494 | so first match over the flattened list is the tier walk that backtracks out of a tier in which nothing matches |
| Flattening.ExactPortsBacktrack | provider/calico/hns.go:470-530 | with exact port lists along every pass, that is every packet |
| Flattening.FlattenCorrect | provider/calico/hns.go:415-494 | it is the plain tier walk (Pass goes on, a last-tier Pass blocks) for exactly the packets that walk decides or that nothing decides |
| Flattening.CatchAllsDecide | provider/calico/hns.go:415-456 | when every tier after the first matches each packet, that is every packet |
| Flattening.FlattenNoPass | provider/calico/hns.go:415-456 | for every input no Pass rule is left |
| Flattening.FlattenOrigins | provider/calico/hns.go:469-494 | for every input, each rule of the list has the id, priority and action of one input rule, or stands for a pass of the last tier as a block |
| Flattening.FlattenLength | provider/calico/hns.go:428-467 | the list is no longer than the product of the tier lengths |
| Flattening.MissingCatchAllFallsBack | provider/calico/hns.go:428-456 | a packet passed on by the first tier and left undecided by the later ones is decided by the first tier's other rules, so list and walk differ iff one of those matches |
| Flattening.CombineExactIff | provider/calico/hns.go:470-494 | for rules that can meet, the combined rule is their conjunction on every packet iff both port pairs are exact |
| Flattening.PassThenFaithfulIff | provider/calico/hns.go:415-494 | a pass from one rule to another is compiled faithfully for a packet iff the combined rule matches it as both do |
| Flattening.PassThenExactIff | provider/calico/hns.go:415-494 | ... and for every packet iff their port pairs are exact |
| Flattening.DisjointPortsAllow | provider/calico/hns.go:496-530 | with disjoint port lists the walk blocks a packet the flattened list allows |
| Flattening.DisjointPortsExist | provider/calico/hns.go:496-530 | such lists and such a packet exist |
| HnsFlattener.CombineRules | provider/calico/hns.go:470-494 | null exactly for a protocol or address no-op, else a new object with the combined fields |
| HnsFlattener.AppendCombinedRules | provider/calico/hns.go:458-468 | appends the combinations of one rule with a tier, in order, as new distinct objects |
| HnsFlattener.ExpandFirst | provider/calico/hns.go:436-448 | the new first tier has the first one's Pass rules replaced by their combinations; an object occurs once if it did before |
| HnsFlattener.FlattenTiersRecurse | provider/calico/hns.go:428-456 | overwriting the second tier's cell and recursing yields the specified list, without repeated objects |
| HnsFlattener.FlattenTiers | provider/calico/hns.go:415-426 | through the shared rule objects the result is the specified list; no object occurs twice if none did |
| HnsFlattener.RewritePriorities | provider/calico/hns.go:574-598 | the in-place loops leave exactly the specified priorities and change nothing else |
| Renumbering.PrioritySteps | provider/calico/hns.go:574-598 | the specified priorities follow the 16-bit recurrence of both branches |
| Renumbering.NumberingMeaning | provider/calico/hns.go:574-598 | numbering touches priorities only: one number a rule below limit minus base, else one a run of equal actions |
| Renumbering.RenumberingIsTieBreakIndependent | provider/calico/hns.go:571-598 | whichever matching rule of least priority is picked has the first match's action |
| Renumbering.LeastPriorityMatchExists | provider/calico/hns.go:571-598 | a pick is possible iff some rule matches |
| Renumbering.GroupedOrderIff | provider/calico/hns.go:586-597 | grouped priorities ascend iff the action changes fit above the base; otherwise two neighbours with different actions are reversed |
| Renumbering.TieBreakSafeIff | provider/calico/hns.go:571-598 | for any action sequence and packet, every list with these actions is safe under every tie-break iff no number wraps or all actions are equal |
| Renumbering.FlattenedRenumberedCorrect | provider/calico/hns.go:329-330 | flattening, then renumbering: for every packet each tie-break gives the backtracking walk's action, hence the plain walk's where that decides, and no rule matches where nothing decides |
| Renumbering.SmallInputsNeverWrap | provider/calico/hns.go:574-590 | below limit minus base every rule has its own priority, ascending from base, below limit, without a wrap |
| Polprog.PolprogRules | provider/calico/bpf.go:232-300 | tiers in order with their enforced policies, staged-only tiers passing at their end, profiles last |
| Polprog.TierPolicies | provider/calico/bpf.go:246-272 | staged and unknown policies are skipped, and the tier is staged-only iff no policy is enforced |
| Polprog.BuiltTierNames | provider/calico/bpf.go:239-283 | tiers keep names and order; those without policies in the direction are left out |
| Polprog.PolprogAgreesWithChecker | provider/calico/bpf.go:239-296 | the built program and the matrix checker give every flow the same verdict |
| WindowsParity.RegisterEndpointPolicySets | provider/calico/hns.go:268-287 | after it the endpoint's sets are registered exactly when known and not staged, and earlier endpoints stay registered |
| WindowsParity.SetKeyInjective | provider/calico/hns.go:397-402 | slash-free policy ids are registered under different strings |
| WindowsParity.GatherPolicyTiers | provider/calico/hns.go:301-319 | the gathered rule lists are those of the tiers with policies, unshared, and the default-tier flag is right |
| WindowsParity.RenderHNSEndpoint | provider/calico/hns.go:294-348 | the rendered list is the flattened and renumbered list of the endpoint's tiers |
| WindowsParity.RenderedOrigins | provider/calico/hns.go:329-346 | each rendered rule carries the id of an input rule, and its action or a block for a pass of the last tier |
| WindowsParity.LintPass | provider/calico/hns.go:195-221 | the names returned are exactly those of the policies warned of, none iff no policy of a default tier has a Pass rule |
| WindowsParity.LintMeaning | provider/calico/hns.go:195-221 | the lint warns iff an enforced, known policy of a default tier, for either direction, has a Pass rule |
| WindowsParity.EndpointTiersCatch | provider/calico/hns.go:301-327 | every list handed to flattenTiers ends in a catch-all |
| WindowsParity.WalkParity | provider/calico/hns.go:301-327 | from every tier on, the walk of the assembled tiers decides, and allows exactly what the checker allows and no dead end stops |
| WindowsParity.WindowsExact | provider/calico/hns.go:294-348 | for every endpoint and flow some ACL of the rendered list matches, and every tie-break allows exactly what the Linux program allows and no dead end stops |
| WindowsParity.WindowsAgreesIff | provider/calico/hns.go:195-200 | Windows and Linux agree on a flow iff Linux does not allow it past a dead end |
| WindowsParity.WindowsAgreesWithLinux | provider/calico/hns.go:195-221 | they agree on every flow when the lint is silent, default tiers do not pass at their end, and tiers that drop at theirs have an enforced policy |
| WindowsParity.TerminalPassDiverges | provider/calico/hns.go:195-200 | for any endpoint, a pass out of the last tier with policies, no profiles following, is a block by the rendered list and a question to the profiles on Linux |
| WindowsParity.StagedOnlyTierDiverges | provider/calico/hns.go:301-319 | for any endpoint, a tier of staged policies that is reached and drops is a block by the rendered list, while Linux goes on with the tiers after it |
| WindowsParity.SilentLintDiverges | provider/calico/hns.go:195-221 | two endpoints on which the lint is silent, Linux allows every flow and Windows blocks it |
| Checker.VerdictSteps | provider/calico/flow.go:103-110 | the last trace entry decides: a tier that passes or takes no part leaves the verdict to the rest |
| Checker.RuleMeaning | provider/calico/collapse.go:39-56 | a rule matches iff neither protocol, method, nor any field of either side speaks against the flow |
| Checker.TierMeaning | provider/calico/flow.go:103-110 | a tier is left out iff none of its policies takes part; else its entry bears its name, and is marked when no policy decides |
| Flows.WalkLeg | provider/calico/eval.go:262-275 | one leg's verdict, its end-of-tier tiers added and the profile marker left out |
| Flows.WalkHeps | provider/calico/eval.go:286-317 | the verdict stays iff every applicable host endpoint allows; the tiers reached at their end are added |
| Flows.WalkUntracked | provider/calico/eval.go:319-335 | untracked policy must allow both directions |
| Flows.EvalFlow | provider/calico/eval.go:256-338 | allowed iff every leg the flow traverses allows, and the end-of-tier set is the union over the legs |
| Flows.FlowByLegs | provider/calico/eval.go:277-338 | the legs, field by field: own tiers, forward tiers with policies in the direction, preDNAT tiers at the destination, untracked tiers for flow and reply; and the tiers reported |
| Flows.MoreHepsRestrict | provider/calico/eval.go:286-317 | adding host endpoints never turns deny into allow nor shrinks the end-of-tier set |
| Flows.HepOrderIrrelevant | provider/calico/eval.go:286-317 | the order of host endpoints on a node does not matter |
| Flows.NoHepsTwoLegs | provider/calico/eval.go:277-282 | without host endpoints the verdict is egress of the source and ingress of the destination |
| Fingerprint.PrintFingerprint | provider/calico/collapse.go:175-204 | the builder's text is the specified one |
| Fingerprint.FingerprintExact | provider/calico/collapse.go:171-204 | equal fingerprints iff both unpoliced or the same tiers, policies and profiles, when each name is free of the separator of its own field |
| Fingerprint.PlainIsUnambiguous | provider/calico/collapse.go:171-204 | such names tell all owners of an actor list apart, which is what the collapse needs |
| Fingerprint.ClassKeyInjective | provider/calico/collapse.go:267-268 | fingerprint, zero byte and signature are recovered from the class key |
| Fingerprint.SeparatorsCollide | provider/calico/collapse.go:191-192 | a profile named "a,b" collides with the profiles "a" and "b" |
| Fingerprint.CollidingOwnersDiffer | provider/calico/collapse.go:191-192 | two owners of one class may have opposite verdicts |
| Signatures.CollectPeerProbes | provider/calico/collapse.go:79-131 | every set and parsable CIDR a rule of the store consults is probed |
| Signatures.ComputeSig | provider/calico/collapse.go:136-163 | the bits are the address's answers in probe order |
| Signatures.SigExact | provider/calico/collapse.go:133-163 | equal signatures iff equal answers to every probe |
| Signatures.RuleAlike | provider/calico/collapse.go:133-135 | addresses with equal signatures match every covered rule alike, in source and in destination |
| Signatures.TraceAlike | provider/calico/collapse.go:39-56 | ... and leave the whole tier, pass and profile walk's trace unchanged |
| Signatures.EqualSigsInterchange | provider/calico/collapse.go:39-56 | swapping both addresses for others with equal signatures keeps every verdict |
| Collapse.GroupActors | provider/calico/collapse.go:253-282 | every actor's representatives carry its signature and class key, and representatives differ in theirs |
| Collapse.CollectOwnerProbes | provider/calico/collapse.go:337-365 | every rule the owner reaches in that direction is covered |
| Collapse.OwnerEvaluator.Allows | provider/calico/collapse.go:316-335 | the memoised verdict is what a fresh checker call returns, and the memo only ever holds true verdicts |
| Collapse.OwnerEvaluator.SameSigSameVerdict | provider/calico/collapse.go:312-316 | addresses the owner's own probes cannot tell apart get one verdict from this owner |
| Collapse.RowMajor | provider/calico/collapse.go:286-296 | c*nPeer+p stays in bounds and identifies c and p |
| Collapse.EvaluateClasses | provider/calico/collapse.go:284-310 | both tables hold the class verdict of every owner class towards every peer class |
| Collapse.ClassVerdictExact | provider/calico/collapse.go:284-310 | a class verdict is that of every member towards every member |
| Collapse.CellExact | provider/calico/collapse.go:237-249 | the two lookups of the expansion loop give evalFlow's verdict of the pair |
| Collapse.FillMatrixCollapsed | provider/calico/collapse.go:217-251 | for actors whose fingerprints tell them apart, the same puts in the same order as the per-pair loop, repeated ids and unpoliced actors included |
| Matrix.MatrixSink.Put | provider/calico/matrix.go:28-41 | one line is written when streaming, and the column is kept unless the keep set drops it |
| Matrix.MatrixSink.Get | provider/calico/matrix.go:43 | reads the last retained put of the key |
| Matrix.FillMatrixExact | provider/calico/eval.go:157-170 | one put per ordered pair of actors with different ids, with evalFlow's verdict |
| Logs.KeysCollideIff | provider/calico/matrix.go:40-43 | two pairs share a key iff they are one pair or the arrow of one is inside a name of the other |
| Logs.ReadsBackIff | provider/calico/matrix.go:28-43 | a set of pairs with retained columns reads back from every log of puts for them iff the arrow of no pair is inside a name of another |
| Logs.ResidentIsOwner | provider/calico/matrix.go:28-43 | a lookup answers with the last retained put under the key, whichever pair that was for |
| Logs.CollisionMisreads | provider/calico/matrix.go:28-43 | of two different verdicts put for two pairs the first is misread iff their keys collide |
| Logs.LookupIsLast | provider/calico/matrix.go:28-43 | for a pair that shares its key with no other put, a resident lookup is its last verdict, and dropped columns read empty |
| Logs.ResidentColumns | provider/calico/matrix.go:28-41 | a streaming run with a keep set holds exactly the puts of kept columns, any other run all puts |
| Logs.PlainLookupIsLast | provider/calico/matrix.go:28-43 | so for every pair when sources hold no arrow, whatever the destinations hold |
| Logs.ArrowedKeyAbsent | provider/calico/matrix.go:40-43 | a name with an arrow never hits the cell of another pair |
| Topology.ServiceBackendIDs | provider/calico/eval.go:440-474 | exactly the endpoints behind the service's slices, or behind its selector when it has none, each once |
| Topology.BackendMeaning | provider/calico/eval.go:418-474 | a backend is the last endpoint with an address the service stands behind, by its slices or else by its selector |
| Topology.BuildActors | provider/calico/eval.go:576-640 | workloads in order, then the host endpoints with an address; every known host endpoint indexed on its node |
| Topology.WorkloadRow | provider/calico/eval.go:577-589 | the row of a workload carries what the request and the graph say of it |
| Topology.HostActorMeaning | provider/calico/eval.go:590-630 | a host endpoint's actor, field by field; untracked tiers are dropped when one of its name covers all interfaces |
| Topology.HostEndpointsTakePart | provider/calico/eval.go:590-640 | a host endpoint gates its node's flows iff the graph knows it, and is a row iff it has an address as well |
| Selection.LastOfAll | provider/calico/eval.go:157-170 | what the pair loop leaves for two ids is the verdict of their last actors |
| Selection.AddServiceColumns | provider/calico/eval.go:409-438 | each column is put source by source from what is resident at that moment |
| Selection.ServiceLast | provider/calico/eval.go:409-438 | afterwards a service cell says whether some backend is reachable or is the source itself, and actor cells are unchanged |
| Selection.ServiceCell | provider/calico/eval.go:388-438 | under src->svc/ns/name the matrix holds whether the source backs the service or reaches a backend |
| Selection.FullMatrixCells | provider/calico/eval.go:157-178 | the full matrix holds exactly the reference cells |
| Selection.PairCache.Allows | provider/calico/pairs.go:28-36 | the cached verdict is evalFlow's |
| Selection.FillMatrixPairs | provider/calico/pairs.go:12-71 | one put per distinct requested pair that has a cell; unknown ids and self-pairs are left out |
| Selection.PartialMatrixCells | provider/calico/pairs.go:12-71 | the partial matrix holds the reference cell of every requested pair and nothing else |
| Selection.PartialIsRestriction | provider/calico/pairs.go:9-11 | the partial matrix is the full one restricted to the requested pairs |
| Selection.BackendColumnOverwritten | provider/calico/eval.go:409-438 | with a backend named like another service's column, the full matrix denies a reachable service that the partial one allows |
| Streaming.MatrixKeepSet | provider/calico/matrix.go:52-77 | keeps exactly the external actors and the service backends |
| Streaming.StreamedLogEqualsResidentLog | provider/calico/matrix.go:52-55 | streaming with such a keep set makes the very puts of an in-memory run, service columns included |
| Streaming.BuildActorReport | provider/calico/eval.go:360-400 | one entry per actor, the posture read from the external columns |
| Streaming.ReportMeaning | provider/calico/eval.go:341-386 | what an entry says: kind, node, and allow iff some external actor is reached, left open when partial, without externals, or for one |
| Streaming.SamePostures | provider/calico/matrix.go:52-55 | postures are the same from the retained columns as from all of them |
| Streaming.PostureMeaning | provider/calico/eval.go:352-359 | the posture is allow iff some cell of the actor's row towards an external actor allows |
| Streaming.PostureByFlows | provider/calico/eval.go:352-359 | ... iff the last actor of the id reaches the last actor of an external one's id, repeated ids included |
| Streaming.WriteMatrixTSV | matrix.go:17-26 | writes each entry of the map as one line, exactly once, in some order |
| Streaming.ReadMatrixFile | matrix.go:31-59 | the scan keeps the needed keys, the last line winning |
| Streaming.CrLfScans | matrix.go:42-52 | lines that end in carriage return and newline scan as those that end in a newline |
| Streaming.ReadBack | matrix.go:31-59 | lines of plain rows read back as the rows, the last one winning |
| Streaming.StreamReadsBack | provider/calico/matrix.go:28-41 | the streamed file read back is the resident matrix on the needed keys |
| Streaming.RunAssertionsFromMatrixFile | matrix.go:28-59 | the results are the assertions judged on what the scan keeps, and the counters add up |
| Streaming.FileGatingIsMatrixGating | matrix.go:28-59 | gating assertions from the streamed file gives the results of gating the matrix |
| Streaming.WrittenMapGating | matrix.go:17-59 | the same for a file written from a map, in whatever order |
| Assertions.JudgeMeaning | api/assert.go:213-246 | an assertion passes iff it names both ends and a verdict and the cell from->to holds that verdict, trimmed and in lower case; otherwise the result says what was missing |
| Assertions.RunAssertionsOnMatrix | api/assert.go:200-211 | each result is its assertion judged on the matrix, in order; the report is ok iff there are assertions and all hold |
| Assertions.OkMeansAllPass | api/assert.go:81-83 | a report is ok iff it is non-empty and everything passed |
| Assertions.RunAssertions | api/assert.go:127-194 | every result passes iff its assertion holds of the engine's answer for its effective port and protocol; ok iff there are assertions and all hold; each distinct probe is evaluated once, in ascending order; messages are collected once |
| Assertions.GroupPairsMeaning | api/assert.go:150-180 | the pairs requested for a probe are those of the assertions that name ends, a verdict and that probe, defaults written out |
| Assertions.ExactlyOneGroup | api/assert.go:141-148 | each valid assertion is in exactly the group of its effective probe |
| Assertions.GroupedEqualsAlone | api/assert.go:113-126 | for an engine whose verdict on a pair ignores the other requests, grouping gives the result of running alone |
| Assertions.PairwisePasses | api/assert.go:113-126 | for such an engine an assertion passes iff it holds of the answer to its own pair |
| Assertions.JudgedReadsOnlyAsserted | api/assert.go:232-246 | results depend on the asserted flows only |
| Engine.ProtocolNumberIff | provider/calico/flow.go:60-84 | the result is the one protocol the trimmed, lower-cased text denotes by name or by number up to 255, and TCP iff it denotes none or TCP |
| Engine.ProtocolNumberReadsDigits | provider/calico/flow.go:69-84 | the decimal form of a protocol number is read back |
| Engine.FlowProbeMeaning | provider/calico/eval.go:209-233 | a request's probe: its protocol, else TCP; its port or 8080, 0 for a protocol without ports; its source port or 12345; a method iff it names one |
| Engine.KnownProtocols | provider/calico/flow.go:60-67 | the six protocol names have their numbers |
| Engine.AskedPortDecides | provider/calico/eval.go:209-233 | towards a destination whose one policy allows one port, the cell allows iff the request asks about that port |
| Engine.FillAll | provider/calico/eval.go:141-171 | collapsed or pair by pair, the puts are the same; fingerprints matter only when collapsing |
| Engine.Evaluate | provider/calico/eval.go:119-186 | the sink's puts depend on the request alone, not on the loop chosen, and the report is read from what is resident |
| Engine.KeepSetSuffices | provider/calico/matrix.go:52-77 | every service backend is an actor and is retained, as are all external actors |
| Engine.StreamingIsTransparent | provider/calico/eval.go:130-178 | a streamed evaluation makes the puts and reports the postures of one in memory |
| Engine.StreamedFileGating | matrix.go:28-59 | gating from the file of a streamed evaluation, of all pairs or of requested ones, gives what gating its in-memory matrix gives |
| Engine.CalicoEngineIsPairwise | api/assert.go:113-126 | the Calico evaluation of requested pairs is an engine for which grouping is sound |
| Engine.GroupedGatingIsFullGating | api/assert.go:113-126 | grouped gating over partial matrices gives what gating the full matrix of the assertion's probe gives |
| Engine.AntreaEngineIsPairwise | api/assert.go:113-126 | so is the Antrea evaluation |
| EndpointPairs.EndpointPairs | api/pairs.go:15-46 | visits the specified index pairs in order, up to the first one on which the callback stops |
| EndpointPairs.FullPairsMeaning | api/pairs.go:17-26 | without a selection: every pair of positions with different ids, once, row by row and column by column |
| EndpointPairs.SelectedPairsMeaning | api/pairs.go:27-45 | with a selection: exactly the positions of requested pairs of different ids |
| EndpointPairs.FullLast | api/pairs.go:17-26 | without a selection two different ids are last visited at their last positions |
| EndpointPairs.SelectedLast | api/pairs.go:27-45 | a selection visits exactly the requested pairs of different, known ids |
| EndpointPairs.PartialVisitsAreRestriction | api/pairs.go:12-15 | per pair of ids a selection last visits what the full iteration does, if the pair was requested |
| Antrea.IngressAllows | engines/antrea/eval.go:85-100 | the destination accepts iff no policy isolates it or some governing policy admits the source |
| Antrea.EgressAllows | engines/antrea/eval.go:104-119 | the mirror, ports resolved on the destination |
| Antrea.BuildIndex | engines/antrea/defaults.go:15-34 | the index holds, for every pod key, the isolation and rules of the policies that select it, whatever the map order |
| Antrea.CollectedIsDirect | engines/antrea/defaults.go:15-53 | indexed rules answer as the scan of all policies does, empty rule lists still isolating |
| Antrea.UnnamedIgnoresOwner | engines/antrea/defaults.go:54-75 | without named ports the port owner does not matter |
| Antrea.ForProbe | engines/antrea/defaults.go:54-85 | the specialised rules answer every question about the probe as the originals do; isolation goes only by an allow-all rule |
| Antrea.NamedEgressNeedsDestination | engines/antrea/defaults.go:54-56 | an egress rule with a named port may match only through its destination |
| Antrea.IndexEndpointPolicies | engines/antrea/defaults.go:15-40 | each endpoint's entry answers as the direct semantics for every peer and port owner |
| Antrea.RuleMeaning | engines/antrea/eval.go:121-185 | a rule admits a flow iff the peer is any, a listed pod, or has an address that starts with a block's prefix and with no excepted one; and the port is of the protocol, the named one, any, or in range |
| Antrea.ResolveNamedMeaning | engines/antrea/eval.go:187-200 | a named port is the first declared one of that name and protocol, in any case, tcp by default; -1 without one |
| Antrea.PodKeyIff | engines/antrea/eval.go:202-231 | a pod's key is its namespace and name, each taken from the parts of its id where unset |
| Antrea.EvaluateWithDefaults | engines/antrea/eval.go:36-80 | optimised or not, the matrix is that of the direct two-sided semantics over the visited pairs |
| Antrea.CellMeaning | engines/antrea/eval.go:27-119 | a cell allows iff the destination takes the flow in and the source lets it out, in addresses and port numbers, for the request's protocol and port or tcp and 8080 |
| Antrea.OneBlockCell | engines/antrea/eval.go:168-185 | with one address block as the only rule, a cell allows iff the source is in the block outside of its exceptions |
| Antrea.OnePortCell | engines/antrea/eval.go:141-166 | with one port as the only rule, a cell allows iff the probe is for that port |
| Antrea.PartialMatrixIsRestriction | engines/antrea/eval.go:55-71 | with requested pairs the matrix is the full one restricted to them |
| Antrea.FullMatrixIsTwoSided | engines/antrea/eval.go:27-31 | with distinct ids every pair of different endpoints, and no other, has the two-sided verdict |
| IcmpFilter.RuleICMPMatchesProbe | provider/calico/icmp.go:111-149 | a rule is kept iff every packet the probe stands for fits icmp and not every one fits a non-blank notICMP |
| IcmpFilter.PinnedProbe | provider/calico/icmp.go:93-110 | for a pinned type and code that is the joint match, and notICMP its negation |
| IcmpFilter.FilterRulesByICMP | provider/calico/icmp.go:81-95 | the admitted rules, in order |
| IcmpFilter.Resource.ApplyICMPFilter | provider/calico/icmp.go:61-79 | both rule lists of the four policy kinds are filtered in place, other kinds stay |
| IcmpFilter.Resource.Feed | provider/calico/feed.go:173-175 | the types are those inferred from the rules as written, the rules the filtered ones, and nothing is filtered unless the request sets a type or a code |
| IcmpFilter.InferredMeaning | provider/calico/feed.go:204-225 | set types stay; unset ones cover a direction that has rules, and ingress also when neither has |
| IcmpFilter.TypesBeforeFilter | provider/calico/feed.go:204-225 | filtering first would infer other types exactly when types are unset and the filter empties a list that mattered |
| IcmpFilter.FilterPreservesMeaning | provider/calico/icmp.go:51-60 | an ICMP-blind walk of the filtered policies leaves the trace of an ICMP-aware walk of the originals |
| IcmpFilter.EmptiedPoliciesIsolate | provider/calico/icmp.go:55-60 | a tier whose policies the filter empties still ends in its default action |
| IcmpFilter.DeciderKeptIff | provider/calico/icmp.go:81-95 | filtering keeps the rule that decides a flow, or that none does, iff no rule decided it or that rule passes the filter |
| IcmpFilter.UndisturbedTrace | provider/calico/feed.go:44-49 | when no policy decides the flow by a dropped rule, the trace is that of the unfiltered policies |
| IcmpFilter.OtherProtocolsUnaffected | provider/calico/feed.go:44-49 | when rules with ICMP matchers name an ICMP protocol, flows of other protocols keep their deciding rules |
| IcmpFilter.FilterHitsOtherProtocols | provider/calico/feed.go:44-49 | without a protocol beside the matcher, every flow of every protocol may lose its decision |
| Diff.SplitFlowKey | api/diff.go:157-164 | a key with an arrow is split at the first one and can be put together again |
| Diff.DiffResponses | api/diff.go:80-138 | lists every change once, ordered by kind and flow, with counters that are the numbers of keys of each class |
| Diff.ListedMeaning | api/diff.go:97-128 | exactly the changed keys are listed, each with its ends, what either side holds, and opened, closed, added or removed accordingly |
| Diff.TalliedMeaning | api/diff.go:97-128 | the counters are the numbers of keys of each kind, and of keys on which both sides hold the same |
| Diff.ReportOrder | api/diff.go:130-155 | opened flows first, then closed, removed and added; within a kind they ascend by flow |
| Diff.ReplayExactIff | api/diff.go:74-79 | replaying the changes on the base allow-set gives the head's iff no base verdict was neither allow nor deny where the head newly allows |
| Diff.UnknownVerdictIsMisread | api/diff.go:98-118 | any such verdict of one flow makes the replay lose it |
| Diff.ReplayBinary | api/diff.go:74-79 | with allow and deny verdicts it always does |
| Diff.ArrowlessKeyBreaksReplay | api/diff.go:157-164 | a key without an arrow is not recovered |
| Diff.NoChangesIff | api/diff.go:71-72 | no changes iff the allow-sets are equal and no common verdict differs |
| Diff.NoChangesBinary | api/diff.go:71-72 | with allow and deny verdicts, no changes iff the allow-sets are equal |
| Diff.CommonKeysCounted | api/diff.go:98-118 | opened, closed and unchanged together count the common keys |
| Diff.SwapSides | api/diff.go:98-128 | swapping sides swaps added and removed, and opened and closed iff every differing common key is allow against deny |
| Diff.ReportIsUnique | api/diff.go:83-95 | two reports of the same matrices list the same changes in the same order, although maps are ranged over |

## Left out

- The policy checker, the IP-set and CIDR matchers, the calculation graph and the update processors of Calico are not in the repository. `Checker` is a concrete checker following the contract in `provider/calico/collapse.go` lines 39-56; its walk errors, service-account and namespace matches and HTTP paths are not part of this model.
- The ACL renderer of the policysets package is a parameter of `WindowsParity`; the rules of an endpoint's enforced policies, and of its profiles where they follow, are required to render exactly for the flow, which is what the drop warnings of the lint are about. `IntersectCIDRs` is modelled as intersection of address prefixes. The upstream constants for the base and the limit of priorities are parameters.
- Flattening.FlattenBacktracks: that the passes combine faithfully for the packet is sufficient, not necessary, for a whole tier list, since a wrong combination may be shadowed by other rules; for one pass it is exact (`Flattening.PassThenFaithfulIff`). The same holds of the results derived from it: FlattenCorrect, MissingCatchAllFallsBack, FlattenedRenumberedCorrect, WindowsExact.
- Collapse.FillMatrixCollapsed: owners of the list are taken to have fingerprints that tell them apart, which names without the separators of their fields guarantee (`Fingerprint.PlainIsUnambiguous`); otherwise see `Fingerprint.CollidingOwnersDiffer`. The two map lookups of the grouping loop are done in two loops, one per map.
- IcmpFilter.FilterPreservesMeaning: profiles are taken to have no ICMP matchers; the feed generates them from namespaces and service accounts and they never pass the filter.
- HnsFlattener.FlattenTiers: memory use of huge port numbers in a bitset and the panics recovered by renderHNSEndpoint are not modelled.
- Topology.BuildActors: dropping the untracked tiers of an all-interfaces host endpoint, a write through a pointer shared with later actors, is computed from the whole list of host endpoints.
- Engine.Evaluate: starts after lint, inline resources and the calculation graph; write errors of the stream, the cost report and debug output are left out.
- Negative ports in requests: flows carry natural numbers; the readings of a probe key in `Engine` are a parameter.
- Antrea.EvaluateWithDefaults: starts from resolved policies (selector resolution is Antrea's grouping index); warnings and the actor list are left out; `net.ParseIP` is a parameter.
- Assertions.RunAssertions: the engine is a function of the probe and the requested pairs, so its answer to equal requests is the same.
- Lower-casing and trimming cover ASCII only. Warning and error texts are not modelled, except that collected messages are deduplicated.
- Streaming.ReadMatrixFile: file errors and the scanner's line length limit are left out.
- IPv4-mapped IPv6 addresses: an address is its bits in the width its block uses; no conversion between the two is modelled.
- engines/cilium, cost counting, YAML and JSON decoding, the command line, iptables and BPF rendering and the end-to-end suites are left out; most of them would add only easy members.
