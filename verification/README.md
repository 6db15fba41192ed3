# Verification of the MCP operator's protocols and compilers

A Dafny 4.11 model of the parts of the operator whose correctness spans several functions, several API
calls or several reconciles, and proofs of what those parts are for. `dafny verify dfyconfig.toml` checks
everything.

| file | what it models |
|---|---|
| `RegistrationProtocol.dfy` | registration with core as a step machine: Lease claims, core's server registry, one program point per API call of a pass, crashes and lost answers anywhere |
| `RegistrationSafety.dfy` | what every run of the machine keeps |
| `RegistrationRuns.dfy` | what it is for a condition to stand after a run: some step brought it about and none has ended it since |
| `RegistrationEndpoint.dfy` | exactly when a plain server's claim says of core what is so, at every point of every run |
| `RegistrationDelivery.dfy` | for any server, exactly when core has its entry at another endpoint than its claim records |
| `RegistrationStarts.dfy` | for any server, exactly when "started" on its claim has no start behind it |
| `RegistrationRecovery.dfy` | what one undisturbed pass makes of any state a crash left, and exactly when that is enough |
| `RegistrationAlone.dfy` | a plain server nobody disturbs, for which one pass is always enough |
| `RegistrationOwnership.dfy` | when a CR that holds a name holds it over somebody else's entry |
| `RegistrationApi.dfy` | the API calls as requests with their payloads, and what serving each does |
| `RegistrationCauses.dfy` | why each request of a pass may be sent, from the exchanges before it alone |
| `RegistrationReconciler.dfy` | the reconciler's code itself, shown to send the machine's requests |
| `Base64.dfy`, `Gzip.dfy`, `InitData.dfy` | the init-data encoder, and a reader written from RFC 4648, RFC 1951 and RFC 1952 |
| `MergePatch.dfy`, `StatusWrite.dfy` | JSON merge patches (RFC 7396), and status writes with them under an optimistic lock |
| `ServerGroup.dfy` | the group aggregate, its health policy in 32-bit arithmetic, and every status a run stores |
| `L7Policy.dfy` | flattening an egress policy's rules into the payload core enforces |
| `Cidr.dfy`, `NetworkBuilder.dfy` | address blocks, and the network policies built from declared egress |
| `Backstop.dfy` | switching a policy's backstop between the two flavors, call by call |
| `PolicyWatch.dfy` | the mapping from server events to policies, against what the policies' targets resolve to |
| `Strings.dfy`, `Violations.dfy` | the violation ledger, whose active set is kept in a printed message |
| `Discovery.dfy` | discovery filters and the authoritative sync, whatever order maps are iterated in |
| `UpgradeNotes.dfy` | folding pending upgrade notes into the guide, and extracting a version's section |
| `Wrappers.dfy` | Option and Result |

What is assumed of the surroundings: creating a Lease is atomic, and only the operator writes the claims;
one reconcile runs per object at a time; core answers "already exists" to a registration only for a name
held before the call began; core never holds a plain server without an endpoint; a status marshals to a
JSON object in which no member is null, and equal statuses to equal JSON. A request is served and answered,
served with its answer lost, or never served.

What turned out not to hold, and when it does:

- A pass over a claim that records the spec already does not compare core with it.
  `OnePassConvergesIffRecoverable` and `PlainPassRecovers` say exactly when one pass recovers. What can be
  in the way: "started" over an entry core was never asked to start (`OverUnstartedIff` says exactly when;
  `StaleStartWithoutACrash` and `StaleStartIsReachable` are such runs), and an own entry at an endpoint the
  claim does not record (`ElsewhereIff`; `UnrecordedDeliveryIsReachable`). A plain server whose spec never
  changed and whose name nobody else touches meets neither, and one pass is always enough
  (`AlonePassConverges`).
- A CR can hold its name over somebody else's entry, and then its deletion or replacement removes that entry:
  `HoldsAnothersIff` says exactly when, and `DeletionRemovesAnothers` is such a run.
- A plain server's claim agrees with core unless it is a container that took over a key-pinned entry while
  it had no address: core clears such an entry's endpoint, and a claim with no endpoint then has something in
  core (`KeyPinnedEntryMovedWithoutAddress`). `PlainClaimAgreesIff` says exactly when; taking over a
  key-pinned entry with an address, or a plain one without, does no harm.
- An IPv4-mapped IPv6 literal such as ::ffff:1.2.3.4 becomes a /32 of an IPv6 address, and both backstops then
  open all of ::/32 (`MappedLiteralOpensMore`); without one they fail closed (`FailsClosedIff`).
- "Started" on a server's claim is kept when a delivery in place is recorded on it
  (`KeyPinnedStartIsNotOfThisEndpoint`). `CarriedIff` says exactly when a claim says started though core took
  no start since its endpoint was recorded; a plain server's never does.
- Make before break relies on the read of the object a pass wants: if a stale cache shows it in place after
  it was deleted, the pass removes the only backstop left (`PassKeepsCoverIff`, `AStaleReadBreaksIt`).
- The group's percentage test is exact at every percentage exactly while 100 * ready fits 32 bits
  (`PercentageIsExactIff`).
- Extracting a version gives back the promoted section unless the last note has no body, in which case the
  blank lines at its end are trimmed, or a fragment's body starts a section of its own
  (`PromoteThenExtractIff`).
- An authoritative sync leaves exactly the discovered servers labelled only if no template label takes the
  mark away and the cached listing missed no server that should go (`LabelledAreTheDiscoveredIff`).

## Model

| member | source | states |
|---|---|---|
| RegistrationSafety.OwnStepKeepsLocal | internal/controller/mcpserver_registration.go:159-326 | one call of a CR's own pass, under any outcome, keeps what the rest of that pass relies on: its copy of the claim is the stored claim, and an entry of its own in core is claimed or abandoned |
| RegistrationSafety.StepIsWhatOthersMayDo | internal/controller/mcpserver_registration.go:94-138 | no call of another CR's pass changes a claim this CR holds, gives it one, or produces a core entry in its name |
| RegistrationSafety.StepIsLawful | internal/controller/mcpserver_registration.go:159-490 | a call takes a claim only when the name is free, and releases or mutates core only while its CR holds the claim |
| RegistrationSafety.EveryRunIsSafe | internal/controller/mcpserver_registration.go:159-490 | the invariant of every run: any number of CRs, any interleaving, failures and crashes between any two calls, core changed by others |
| RegistrationSafety.OnlyTheHolderLetsGo | internal/controller/mcpserver_registration.go:133-138 | a name's holder changes only in a call of the holder's own pass, and that call is recorded as its release |
| RegistrationSafety.MutationsHappenUnderTheClaim | internal/controller/mcpserver_registration.go:281-326 | every POST, PUT, DELETE and start of every run was sent while its sender held the name's claim |
| RegistrationSafety.MutationsAreSeparatedByARelease | internal/controller/mcpserver_registration.go:92-138 | between two mutating calls by different CRs of one name lies a release by the first |
| RegistrationSafety.RegisteredIsClaimed | internal/controller/mcpserver_registration.go:277-326 | in every reachable state a core server a CR produced is covered by its claim, unless its own deletion failed to deregister it |
| RegistrationSafety.BystanderLeavesCoreAlone | internal/controller/mcpserver_registration.go:167-172 | a CR that never won its name has sent nothing to core, and its next call leaves core's entry as it is |
| RegistrationRuns.StandsStep | internal/controller/mcpserver_registration.go:159-490 | a condition stands after one step more exactly when that step brought it about, or it stood and the step does not end it; the run-level theorems below are built on it |
| RegistrationEndpoint.StepChangesUnaddressed | internal/controller/mcpserver_registration.go:209-236 | one step of any CR, or from outside, leaves a plain CR's own entry without an endpoint, or stops it being so, in exactly these cases |
| RegistrationEndpoint.PlainClaimAgreesIff | internal/controller/mcpserver_registration.go:209-236 | at every point of a plain CR's run, remote or container, whatever others of the name declare and do: core's entry has the claim's endpoint or the claim reads "discovered", an empty endpoint means nothing in core, and "started" has a start since that endpoint was recorded, if and only if no address-less takeover that core took is recorded and not withdrawn since |
| RegistrationEndpoint.PlainClaimAgreesWithCore | internal/controller/mcpserver_registration.go:341-376 | all of that holds throughout a plain CR's run in which no address-less takeover reaches a key-pinned entry |
| RegistrationEndpoint.PinnedMoveBreaksIt | internal/controller/mcpserver_registration.go:341-376 | and such a takeover, delivered and recorded, always makes the claim disagree |
| RegistrationEndpoint.AddressedClaimAgreesWithCore | internal/controller/mcpserver_registration.go:156-159 | a remote plain CR takes over no entry, and a container whose pod has an address none without one, so it holds throughout their runs |
| RegistrationDelivery.ElsewhereIff | internal/controller/mcpserver_registration.go:193-236 | at every point of every run of any CR, core has its own entry at another endpoint than its claim records if and only if a delivery was taken and not recorded, or an endpoint recorded over an entry left at another, and nothing has put it right since |
| RegistrationStarts.CarriedIff | internal/controller/mcpserver_registration.go:366-371 | at every point of every run of any CR, its claim says started though core took no start since the endpoint on it was recorded, if and only if a delivery was recorded on a started claim, and since then no endpoint was replaced, no claim given back and no start taken |
| RegistrationStarts.OverUnstartedIff | internal/controller/mcpserver_registration.go:281-318 | at every point of every run of any CR, its claim says started over an entry never started, if and only if the name was registered anew under a claim that still said so, or a start recorded over another entry, or an outsider put one there, and nothing has ended it since |
| RegistrationRecovery.UndisturbedIsARun | internal/controller/mcpserver_registration.go:159-263 | the recursive account of one undisturbed pass is a run of the machine whose every label is an answer |
| RegistrationRecovery.OnePassConvergesIffRecoverable | internal/controller/mcpserver_registration.go:159-263 | from any claim and core state, a name another CR holds included, one undisturbed pass ends with claim and core as the spec asks if and only if a condition readable before the pass holds |
| RegistrationRecovery.ConvergedStaysQuiet | internal/controller/mcpserver_registration.go:238-262 | once converged, a pass sends nothing and changes nothing |
| RegistrationRecovery.MoveTakesTwoPasses | internal/controller/mcpserver_registration.go:349-376 | taking over a server core discovered: the first pass converges exactly for a key-pinned container without an address, the second exactly unless a plain container took over an entry with a tls block |
| RegistrationRecovery.PlainPassRecovers | internal/controller/mcpserver_registration.go:209-318 | from any reachable state of a plain CR's name one undisturbed pass converges exactly when it is recoverable, and while core holds nothing or a plain entry of its own that is exactly when the claim's "started" is not stale |
| RegistrationRecovery.StaleStartIsReachable | internal/controller/mcpserver_registration.go:209-236 | a run with two crashes around an endpoint that changes and changes back, nobody else touching core, that ends with "started" on the claim of an entry never started, which no later pass repairs |
| RegistrationRecovery.StaleStartWithoutACrash | internal/controller/mcpserver_registration.go:281-318 | a run without a crash or a changed endpoint that ends the same way: core loses the entry, it is registered again under the claim, and the start is refused |
| RegistrationAlone.AlonePassConverges | internal/controller/mcpserver_registration.go:159-326 | after any run of a plain CR whose spec never changes and whose name nobody else touches, with calls failing, lost and cut off anywhere, one undisturbed pass converges |
| RegistrationRecovery.UnrecordedDeliveryIsReachable | internal/controller/mcpserver_registration.go:362-376 | a run with one crash that leaves a key-pinned server at an endpoint its claim does not record, which no later pass repairs |
| RegistrationRecovery.KeyPinnedStartIsNotOfThisEndpoint | internal/controller/mcpserver_registration.go:366-371 | a key-pinned server delivered at a new endpoint keeps "started" on its claim |
| RegistrationRecovery.KeyPinnedEntryMovedWithoutAddress | internal/controller/mcpserver_registration.go:349-371 | a plain container without an address that takes over a key-pinned entry leaves an entry in core under a claim with no endpoint |
| RegistrationOwnership.StepChangesIt | internal/controller/mcpserver_registration.go:94-138 | one step of a run makes a held name cover another's entry, or stops it doing so, in exactly these cases |
| RegistrationOwnership.HoldsAnothersIff | internal/controller/mcpserver_registration.go:277-326 | at every point of every run a CR holds its name over an entry not its own if and only if an outsider added one under its claim, or the claim was created over one, and nothing has cleared it since |
| RegistrationOwnership.MutationsReachOwnEntriesIff | internal/controller/mcpserver_registration.go:454-475 | a call by which a CR is about to mutate core finds an entry of its own, or none, if and only if no such intrusion stands |
| RegistrationOwnership.AbandonedIff | internal/controller/mcpserver_registration.go:454-490 | a CR counts as having abandoned its entry exactly from the first deletion of its whose removal was not answered |
| RegistrationOwnership.DeletionRemovesAnothers | internal/controller/mcpserver_registration.go:319-324 | a run in which the operator dies before giving a claim back, and deleting the MCPServer removes an outsider's server |
| RegistrationApi.AnswerIsServed | internal/controller/mcpserver_registration.go:159-490 | what a machine's call does to the claim and to core, and what the history records, is what serving one request does, given that request alone |
| RegistrationApi.AnswerGoesByResponse | internal/controller/mcpserver_registration.go:159-490 | where the machine goes after a call depends on what the caller is told and on nothing else |
| RegistrationApi.StaleUpdateIsRefused | internal/controller/mcpserver_registration.go:123-131 | an update over a version the Lease has left behind is refused and changes nothing |
| RegistrationCauses.PassIsCaused | internal/controller/mcpserver_registration.go:159-326 | judged by its exchanges alone, a whole pass sends no request without its cause (what may follow which answer, with which payload), registers, delivers or starts nothing of a key-pinned CR before core said it checks keys, and ends with nothing left to do |
| RegistrationCauses.EveryPassWasChecked | internal/controller/mcpserver_registration.go:173-191 | at every point of every run, a key-pinned CR that claims, registers, delivers or starts has been told in this very pass that core checks keys; one that takes over an entry, that the entry is its pod's |
| RegistrationReconciler.OwnStepWithout | internal/controller/mcpserver_registration.go:159-490 | a served request leaves of the cluster what the machine's answer leaves of it |
| RegistrationReconciler.Reconciler.Send | internal/controller/mcpserver_registration.go:81-138 | one API call: the request must be, in kind, name and payload, the one the machine makes here; it is served as given and the caller sees the response only |
| RegistrationReconciler.Reconciler.GetClaim | internal/controller/mcpserver_registration.go:81-90 | sends one read of the Lease; returns its own copy of what came back, nothing when the name is free, an error when the read failed |
| RegistrationReconciler.Reconciler.TakeClaim | internal/controller/mcpserver_registration.go:94-117 | sends a create of a Lease held by this CR at the given endpoint, and a read exactly when the name is taken; returns a claim only to its holder |
| RegistrationReconciler.Reconciler.Annotate | internal/controller/mcpserver_registration.go:123-131 | writes the given annotations into the copy in place and sends that copy; it succeeds only over the version it was read at |
| RegistrationReconciler.Reconciler.Start | internal/controller/mcpserver_registration.go:402-415 | sends a start, and exactly after it was taken an update recording "started" on the claim and nothing else |
| RegistrationReconciler.Reconciler.DeliverConnection | internal/controller/mcpserver_registration.go:362-391 | sends a PUT of the spec's endpoint with the tls member given, and exactly after core took it or has no such server an update recording both; goes on only with a claim that records both |
| RegistrationReconciler.Reconciler.MoveDiscovered | internal/controller/mcpserver_registration.go:349-357 | creates the claim as "discovered" first; then the machine's requests to the end of the pass |
| RegistrationReconciler.Reconciler.Register | internal/controller/mcpserver_registration.go:281-293 | without a claim, creates one at the endpoint first, and stops when another CR won it |
| RegistrationReconciler.Reconciler.PostAndStart | internal/controller/mcpserver_registration.go:295-336 | sends nothing for a plain server with no endpoint; otherwise a POST of the spec's endpoint and tls block, and on "already exists" a delete of the Lease and no more |
| RegistrationReconciler.Reconciler.PeerIdentityRefusal | internal/controller/mcpserver_registration.go:173-191 | the pass ends unless core said it checks keys; exactly when refused with a claim in hand it sends the removal from core, and exactly after that was answered the release |
| RegistrationReconciler.Reconciler.ReplacePlain | internal/controller/mcpserver_registration.go:216-236 | the removal from core first, unless the claim had no endpoint, and exactly after it was answered the update with the new endpoint and "started" off |
| RegistrationReconciler.Reconciler.FromHealth | internal/controller/mcpserver_registration.go:238-262 | asks core first; each answer leads to the create, the provenance read, the start or nothing |
| RegistrationReconciler.Reconciler.Registration | internal/controller/mcpserver_registration.go:159-263 | the requests a pass sends are the machine's, first to last, in kind, order and payload, from any state and with the cluster moving on between them; each has its cause in what was sent before, nothing is left undone, a key-pinned CR is not registered, delivered or started before core said it checks keys, and everything sent to core was sent under the claim |
| RegistrationReconciler.Reconciler.DeregisterOwned | internal/controller/mcpserver_registration.go:458-490 | reads the Lease, and exactly when it holds it sends the removal and then the release, whatever comes back; leaves an entry of its own covered or abandoned |
| Base64.DecodeUndoesEncode | pkg/provider/initdata.go:49 | base64 decoding undoes the encoding, for every byte string |
| Base64.SymbolsAreTheAlphabet | pkg/provider/initdata.go:49 | the alphabet is the standard one |
| Base64.TestVectors | pkg/provider/initdata.go:49 | the test vectors of RFC 4648 |
| Gzip.ThirtyTwoBitsAreFourBytes | pkg/provider/initdata.go:47-48 | 32 bits read one by one, least significant first, are four little-endian bytes |
| Gzip.CheckValue | pkg/provider/initdata.go:47 | the CRC is the IEEE one: of the digits 1 to 9 it is 0xCBF43926 |
| InitData.WriteBlock | pkg/provider/initdata.go:36-44 | a block is BFINAL with BTYPE 00, LEN, its complement, and the bytes |
| InitData.EncodeInitData | pkg/provider/initdata.go:30-50 | the annotation decodes, through base64, the gzip header, the stored blocks and the CRC-32 and size checks, to exactly the document |
| InitData.DeflateIsRead | pkg/provider/initdata.go:34-46 | wherever the deflate stream stands, the reader finds its blocks, checks each NLEN, and finds its end |
| InitData.MemberIsRead | pkg/provider/initdata.go:32-48 | the reader accepts the member, finds the blocks and the document, for every byte string |
| InitData.EmptyMember | pkg/provider/initdata.go:30-48 | the empty document's member, byte for byte |
| InitData.MemberStarts | pkg/provider/initdata.go:32-33 | every member starts with the fixed header, no name and no time |
| InitData.EncodingIsInjective | pkg/provider/initdata.go:30-50 | two documents never share an annotation |
| InitData.BlocksAreCounted | pkg/provider/initdata.go:34-46 | there are ceil(n / 65535) blocks and one for the empty document, exactly the last has BFINAL, the others are full |
| InitData.MemberLength | pkg/provider/initdata.go:30-48 | the gzip stream is 18 + n bytes and five for each block |
| MergePatch.DiffIsEmptyIffEqual | internal/controller/status_write.go:53-59 | the patch between two objects is empty exactly when they are equal |
| MergePatch.PatchRestoresIff | internal/controller/status_write.go:56-61 | applying the patch between two JSON objects gives the second if and only if it has no null the first did not have in the same place |
| MergePatch.NullFreeArrives | internal/controller/status_write.go:56-61 | an object without null members always arrives whole |
| MergePatch.StalePatchLandsIff | internal/controller/mcpservergroup_controller.go:235-246 | a patch taken from one object makes the new one of another if and only if that other agrees with the base wherever base and new agree, and nothing of it shows through a value sent whole |
| StatusWrite.PatchIsTheStatusAlone | internal/controller/status_write.go:56-59 | the patch against a copy of the object with the old status is the status change and nothing else |
| StatusWrite.PatchStoresTheStatus | internal/controller/status_write.go:56-62 | against the version its base was taken from, the patch stores exactly the computed status |
| StatusWrite.WithoutTheLockItIsWholeIff | internal/controller/mcpservergroup_controller.go:235-252 | without the precondition the write would store the computed status if and only if the live status agrees with the base wherever base and computed agree |
| StatusWrite.WithoutTheLockStatusesMix | internal/controller/mcpservergroup_controller.go:242-246 | an input on which it would store a status that is neither |
| StatusWrite.Server.PatchStatus | internal/controller/status_write.go:59 | a patch of a moved-on version is refused and changes nothing; otherwise the patched status is the next version |
| StatusWrite.Reconcile.WithStatusBase | internal/controller/status_write.go:34-36 | the base is the object as read |
| StatusWrite.Reconcile.WriteStatus | internal/controller/status_write.go:46-63 | a status that is the base's is not sent; any other is stored whole exactly when served over the version read, the call succeeds exactly when that was answered, and then object and base are what was stored; otherwise nothing changes |
| StatusWrite.RunKeepsInv | internal/controller/status_write.go:24-27 | over every run, however stale the reads and however many writes and updates a pass makes, a pass diffs against the status its resourceVersion stands for |
| StatusWrite.EveryStatusIsOnePass | internal/controller/mcpservergroup_controller.go:223-272 | every stored status is the first one, the one before it, or all of what one pass had computed, which had read the version it replaced |
| StatusWrite.WriteLandsIff | internal/controller/status_write.go:46-63 | in every run, a write makes the live status the computed one exactly when it is served and the version it carries is live, and otherwise leaves it |
| StatusWrite.UpdateLandsIff | internal/controller/status_write.go:56-57 | an update of the object in between stores its spec on the same terms and keeps the status |
| StatusWrite.StepHoldsNothingNew | internal/controller/status_write.go:46-63 | the API server and the passes only move statuses about; a new one comes only from a pass's computation |
| ServerGroup.TalliesAddUp | internal/controller/mcpservergroup_controller.go:152-166 | every member is counted in exactly one state, so the counts add up to the member count |
| ServerGroup.TalliesByState | internal/controller/mcpservergroup_controller.go:152-166 | each count is the number of places in the list with that very state, and initializing is every place with any other or none |
| ServerGroup.FaithfulCountsAddUp | internal/controller/mcpservergroup_controller.go:169-176 | Ready, Degraded, Cold, Initializing and Dead add up to ProviderCount, which is the number of listed members |
| ServerGroup.PercentageIsExact | api/v1alpha2/mcpservergroup_types.go:118-135 | with no minimum count, healthy means 100 * ready >= percentage * count, as long as 100 * ready fits 32 bits |
| ServerGroup.PercentageWraps | api/v1alpha2/mcpservergroup_types.go:133-134 | past that the product wraps, and the group is unhealthy at the very percentage it is at |
| ServerGroup.PercentageIsExactIff | api/v1alpha2/mcpservergroup_types.go:118-135 | the test agrees with the exact one at every percentage if and only if 100 * ready fits 32 bits |
| ServerGroup.Group.EvaluateConditions | internal/controller/mcpservergroup_controller.go:277-313 | Available, Ready and Degraded are set from the counts and the policy, and all three for an empty group |
| ServerGroup.Group.ReconcileNormal | internal/controller/mcpservergroup_controller.go:85-221 | lists the members and counts them by their states in 32-bit counters, and judges them; the early returns keep the counts read and set Ready only, with their reason |
| ServerGroup.ReconciledStaysFaithful | internal/controller/mcpservergroup_controller.go:115-132 | a pass leaves faithful counts, or with an early return exactly the ones it read |
| ServerGroup.ConditionsAgreeWithMembers | internal/controller/mcpservergroup_controller.go:277-313 | whatever conditions there were, the three conditions of a counting pass say, with their reasons, what the states in the member list say: Available iff one is "Ready", Degraded iff one is "Degraded" or "Dead", Ready by the policy over the number of ready ones |
| ServerGroup.StoredCountsAreFaithful | internal/controller/mcpservergroup_controller.go:85-272 | in every status any run of group passes stores, early returns included, each count is the number of listed members with that state |
| ServerGroup.EveryPassIsByGroupPass | api/v1alpha2/mcpservergroup_types.go:38-82 | that is about every run: whatever a pass read and computed shows in the JSON it read and writes, with zero counts, an empty list and a member's missing state left out |
| ServerGroup.EmptyStatusIsFaithful | internal/controller/mcpservergroup_controller.go:169-176 | the empty status a group starts with counts no members |
| L7Policy.AppendUnique | internal/controller/mcpegresspolicy_controller.go:438-470 | appends each value that is not in the list when its turn comes |
| L7Policy.UniqueIsFirstOccurrences | internal/controller/mcpegresspolicy_controller.go:456-470 | a list built that way has the same values, each once, in the order of their first occurrences |
| L7Policy.GatherRules | internal/controller/mcpegresspolicy_controller.go:389-412 | over all upstreams: every list without repeats, and the least positive payload limit, absent iff there is none |
| L7Policy.CompileL7Policy | internal/controller/mcpegresspolicy_controller.go:389-433 | the payload is the gathered rules, with header rules only if a selector exists, and Deny and Audit as defaults |
| L7Policy.InFlattened | internal/controller/mcpegresspolicy_controller.go:389-412 | a value is in the payload's list exactly when it is in some upstream's |
| L7Policy.ToolsAreTheUpstreams | internal/controller/mcpegresspolicy_controller.go:389-400 | a glob is in the payload's deny, approval or allow list exactly when an upstream with tool rules has it in that list |
| L7Policy.HeadersAreTheUpstreams | internal/controller/mcpegresspolicy_controller.go:401-432 | the same for header selectors, and no empty block is sent |
| L7Policy.ArgumentsAreTheUpstreams | internal/controller/mcpegresspolicy_controller.go:384-412 | the secret patterns are the upstreams', the limit is the least positive one any upstream sets, and the action and the mode have their defaults |
| L7Policy.ToolDecisionIsKept | internal/controller/mcpegresspolicy_controller.go:389-433 | whatever a glob matches, deciding a tool call by deny, approval, allow and default on the payload equals deciding it on all upstreams' rules together |
| L7Policy.HeaderDecisionIsKept | internal/controller/mcpegresspolicy_controller.go:401-432 | the same for header selectors, also when the payload leaves the block out |
| L7Policy.OrderDecidesNothing | internal/controller/mcpegresspolicy_controller.go:384-412 | permuting the upstreams changes no verdict, no secret pattern and not the limit |
| Cidr.NestedOrDisjoint | pkg/networkpolicy/builder.go:391-396 | of two blocks the longer lies in the shorter whole or not at all, for both address families |
| Cidr.OverlapIsASharedAddress | pkg/networkpolicy/builder.go:391-396 | comparing two blocks on the shorter prefix finds out whether some address lies in both |
| Cidr.LooksClusterInternal | pkg/networkpolicy/builder.go:381-397 | true for a literal IP or CIDR exactly when some address lies both in it and in one of the five ranges; false for a name |
| Cidr.InternalAddresses | pkg/networkpolicy/builder.go:364-370 | the five ranges, as the numbers they run over |
| Cidr.BlockOfHost | pkg/networkpolicy/builder.go:401-410 | the CIDR a host becomes contains what the host denotes, and all of ::/32 for an IPv4-mapped literal |
| NetworkBuilder.DnsRuleAdmits | pkg/networkpolicy/builder.go:624-648 | the DNS rule admits port 53 to the configured resolvers and nothing else |
| NetworkBuilder.KubeDnsIs | pkg/networkpolicy/builder.go:606-615 | the built-in resolver is the pods labelled kube-dns in the namespace named kube-system |
| NetworkBuilder.LoopbackIs | pkg/networkpolicy/builder.go:650-660 | loopback is 127.0.0.0 to 127.255.255.255 |
| NetworkBuilder.BuildEgressRules | pkg/networkpolicy/builder.go:442-511 | a packet is let out exactly when a declared CIDR and port name it, or it is a query to a resolver with DNS not turned off, or loopback was opted into; a host-only rule opens nothing |
| NetworkBuilder.BuildEgressPolicyBackstop | pkg/networkpolicy/builder.go:157-189 | DNS and one rule per literal host in order, and the names reported as unenforceable in order |
| NetworkBuilder.BuildEgressPolicyCiliumNetworkPolicy | pkg/networkpolicy/builder.go:210-304 | DNS endpoints, toFQDNs with the names and toCIDR with the literals, each only when there are any, and the deny rule for port 53 of the world |
| NetworkBuilder.FqdnUpstreamsInOrder | pkg/networkpolicy/builder.go:157-171 | the unenforceable names are those of the hosts that are names, in their order |
| NetworkBuilder.VanillaAdmitsWhatIsNamed | pkg/networkpolicy/builder.go:157-189 | the Vanilla backstop admits exactly the addresses the policy names, queries to resolvers, and ::/32 if the policy names an IPv4-mapped literal |
| NetworkBuilder.CiliumAdmitsWhatIsNamed | pkg/networkpolicy/builder.go:210-304 | the Cilium backstop admits exactly the same addresses and the names, and no query leaves the cluster |
| NetworkBuilder.FailsClosedIff | pkg/networkpolicy/builder.go:157-282 | outside port 53 both flavors admit only what the policy names, if and only if no host is an IPv4-mapped literal or the hosts name all of ::/32 anyway |
| NetworkBuilder.MappedLiteralOpensMore | pkg/networkpolicy/builder.go:401-410 | the host ::ffff:1.2.3.4 opens ::1 in both flavors |
| NetworkBuilder.FlavorsAgree | pkg/networkpolicy/builder.go:157-282 | outside port 53 the flavors differ exactly by destinations that resolve to a host the Vanilla flavor reports as unenforceable |
| Backstop.Cluster.ApplyBackstop | internal/controller/mcpegresspolicy_controller.go:724-749 | reads, and writes only what is missing or different; a failed read or write ends the pass |
| Backstop.Cluster.DeleteBackstopIfExists | internal/controller/mcpegresspolicy_controller.go:752-765 | reads, and deletes only what is there |
| Backstop.Cluster.ApplyFlavoredBackstop | internal/controller/mcpegresspolicy_controller.go:581-637 | makes exactly these calls in this order, writing the wanted flavor before removing the other; without an agent it neither writes a CiliumNetworkPolicy nor removes the NetworkPolicy |
| Backstop.PassKeepsCoverIff | internal/controller/mcpegresspolicy_controller.go:581-637 | a pass over a covered target leaves it covered after every call if and only if it does not take a deleted object's stale read for the object it wants |
| Backstop.MakeBeforeBreak | internal/controller/mcpegresspolicy_controller.go:581-637 | over any run of passes, with failed calls and crashes anywhere, a covered target has a backstop after every call |
| Backstop.AStaleReadBreaksIt | internal/controller/mcpegresspolicy_controller.go:724-744 | two passes, the second with a stale read, that leave a covered target with no backstop |
| Backstop.ErrorFreePassSettles | internal/controller/mcpegresspolicy_controller.go:600-637 | with fresh reads and a truthful CRD lookup, a pass without an error ends with the wanted flavor as built and not the other, from any state |
| Backstop.SettledFlavor | internal/controller/mcpegresspolicy_controller.go:569-604 | after an error-free pass there is a CiliumNetworkPolicy exactly when Vanilla was not asked for, the CRD is served and an agent runs, and a NetworkPolicy exactly otherwise, each as built from the policy |
| Backstop.WithoutAnAgentVanillaStays | internal/controller/mcpegresspolicy_controller.go:569-604 | from any state and whatever fails, a pass without an agent, without the CRD or asked for Vanilla writes no CiliumNetworkPolicy and keeps the NetworkPolicy, at every call |
| Backstop.WithAnAgentCiliumStays | internal/controller/mcpegresspolicy_controller.go:600-637 | and one with an agent that is not asked for Vanilla writes no NetworkPolicy and keeps the CiliumNetworkPolicy |
| Backstop.PassIsOkIff | internal/controller/mcpegresspolicy_controller.go:724-765 | exactly which reads, writes and deletes have to be answered for a pass to report no error |
| Backstop.SettledPassOnlyReads | internal/controller/mcpegresspolicy_controller.go:740-749 | a pass that finds the wanted object as built and not the other makes no call but its reads |
| Backstop.SettledBackstopAdmits | internal/controller/mcpegresspolicy_controller.go:600-637 | what that one object admits outside port 53 |
| Backstop.SettledBackstopFailsClosedIff | internal/controller/mcpegresspolicy_controller.go:600-637 | after an error-free pass nothing is let out outside port 53 but what the policy names, if and only if no IPv4-mapped literal opens more |
| PolicyWatch.GroupMembers | internal/controller/mcpegresspolicy_controller.go:536-558 | the names of the listed servers, sorted, and whether any of them runs pods |
| PolicyWatch.PoliciesForMCPServer | internal/controller/mcpegresspolicy_membership.go:32-90 | remembering each group's answer finds the same policies, in the same order, as evaluating every selector: those of the namespace that name the server, or a group whose selector parses and matches its labels |
| PolicyWatch.PoliciesForMCPServerGroup | internal/controller/mcpegresspolicy_membership.go:96-116 | exactly the policies of the namespace that name the group |
| PolicyWatch.ChangedTargetsAreEnqueued | internal/controller/mcpegresspolicy_membership.go:27-31 | a server create, delete or update that changes what a policy resolves to, members or pods, enqueues the policy by its old or its new side |
| PolicyWatch.EnqueuedCoversTheServer | internal/controller/mcpegresspolicy_membership.go:27-31 | a policy is enqueued only if its target set contains the server before or after |
| PolicyWatch.GroupChangeStaysWithItsPolicies | internal/controller/mcpegresspolicy_membership.go:92-116 | a group that changes leaves what every policy not naming it resolves to |
| Strings.SortedFormIsUnique | internal/controller/mcpdiscoverysource_controller.go:868-872 | one collection of names has one sorted form, whatever order it came in |
| Strings.LeqIsLexicographic | internal/controller/mcpdiscoverysource_controller.go:872 | the order is that of strings: a prefix first, otherwise by the first character that differs |
| Violations.ActiveTypesAreReadBack | internal/controller/mcpserver_controller.go:732-747 | the types printed into the message are the types parsed out of it, for any list of clean types |
| Violations.ServerStatus.ReconcileViolationDetection | internal/controller/mcpserver_controller.go:752-853 | records what was not active before, caps the list, sets or clears the condition, and does nothing without capabilities |
| Violations.PassAppendsEdges | internal/controller/mcpserver_controller.go:816-847 | one pass appends exactly the records of its rising edges |
| Violations.PassFromReadings | internal/controller/mcpserver_controller.go:752-847 | from the raw readings: declared egress without a written policy, and more tools than a positive limit, are recorded with severity, action and time unless active before, and the newest hundred records are kept |
| Violations.ActiveFromReadings | internal/controller/mcpserver_controller.go:790-853 | what was found is what the condition then lists as active, and a True condition with nothing found is cleared |
| Violations.MessageFromReadings | internal/controller/mcpserver_controller.go:826-850 | the message, letter for letter |
| Violations.LedgerIsNewestOfHistory | internal/controller/mcpserver_controller.go:752-853 | after any passes from any ledger, the list is the newest hundred of the full history and the message still says what is active |
| Violations.OneRecordPerEdge | internal/controller/mcpserver_controller.go:811-823 | the full history has one record per rising edge, of each type |
| Discovery.ApplyFilters | internal/controller/mcpdiscoverysource_controller.go:826-882 | keeps exactly the least max(0, k) names that pass include and not exclude, each with its entry, in any iteration order |
| Discovery.LeastAreKeptByFilters | internal/controller/mcpdiscoverysource_controller.go:826-882 | what is kept matches an include pattern, if there are any, and no exclude pattern; what else does is left out only for a limit, and comes after every kept name |
| Discovery.LabelsKeyByKey | internal/controller/mcpdiscoverysource_controller.go:721-738 | the entry's labels win over the template's, the template's over the source's mark, the mark over what the server had, and the server's others stay |
| Discovery.LeastAreUnique | internal/controller/mcpdiscoverysource_controller.go:866-879 | there is one such set of names |
| Discovery.Namespace.CreateAll | internal/controller/mcpdiscoverysource_controller.go:227-253 | in any iteration order, every entry that is not refused is created or updated with its labels, and the failures are reported |
| Discovery.Namespace.AuthoritativeSync | internal/controller/mcpdiscoverysource_controller.go:793-823 | deletes the listed servers that were not discovered, and nothing when listing failed |
| Discovery.Namespace.Sync | internal/controller/mcpdiscoverysource_controller.go:219-260 | the two together: which servers exist with which labels afterwards, and that no reported error means no gap |
| Discovery.AnyOrderCreates | internal/controller/mcpdiscoverysource_controller.go:227-253 | every order of the entries leaves the same servers and reports the same errors |
| Discovery.LabelledAreTheDiscoveredIff | internal/controller/mcpdiscoverysource_controller.go:256-260 | after an error-free Authoritative pass the labelled servers are exactly the discovered ones, if and only if no label takes the mark away and the listing missed none that should go |
| Discovery.OthersAreLeftAlone | internal/controller/mcpdiscoverysource_controller.go:793-823 | the pass leaves every other server of the namespace as it was |
| UpgradeNotes.SplitDrafts | scripts/promote_upgrade_notes.py:68-83 | the drafts of the guide in order, and the lines outside them in order |
| UpgradeNotes.DraftIsItsLines | scripts/promote_upgrade_notes.py:73-80 | a draft is its heading's headline and the lines to the next section without the blank ones at its ends |
| UpgradeNotes.DraftsStandInOrder | scripts/promote_upgrade_notes.py:68-83 | the drafts found are those at the guide's draft headings, one after the other |
| UpgradeNotes.NoLineIsLost | scripts/promote_upgrade_notes.py:68-83 | every line of the guide is kept, blank, in a draft's body, or in a heading whose headline a draft has |
| UpgradeNotes.DraftsAreClean | scripts/promote_upgrade_notes.py:77-79 | a draft's body holds no section line and no blank end |
| UpgradeNotes.NoDraftKeepsAll | scripts/promote_upgrade_notes.py:68-83 | a guide is kept whole exactly when it has no draft |
| UpgradeNotes.Checkout.ReadFragments | scripts/promote_upgrade_notes.py:86-107 | the notes of the fragment files in name order without the README, or none when one is malformed |
| UpgradeNotes.FragmentsAreTheFiles | scripts/promote_upgrade_notes.py:86-107 | the notes are those of all files but the README, in the order of the files, with their headlines and their texts |
| UpgradeNotes.FragmentsReadIff | scripts/promote_upgrade_notes.py:99-105 | they are read exactly when every such file has a headline and a text |
| UpgradeNotes.WritesIff | scripts/promote_upgrade_notes.py:125-156 | a promote writes exactly when no fragment is malformed, no line of the guide ends in the version's heading, and there is a note |
| UpgradeNotes.EveryNoteStands | scripts/promote_upgrade_notes.py:110-114 | each draft and each fragment stands in the promoted guide, headline and body |
| UpgradeNotes.Checkout.Promote | scripts/promote_upgrade_notes.py:125-175 | writes the section and deletes all fragments but the README, or leaves everything: on a malformed fragment, with exit code 1, on an existing section, or without notes |
| UpgradeNotes.PromoteThenExtractIff | scripts/promote_upgrade_notes.py:110-122 | extracting the version after a promote gives the section of all drafts then fragments, if and only if no fragment body starts a section and the last note has a body |
| UpgradeNotes.GuideSurvives | scripts/promote_upgrade_notes.py:155-163 | the new section, drafts then fragments under its heading, is the guide's first: no line before it starts a section; the guide outside the drafts survives in order around it, and only blank lines at the cut come or go |
| UpgradeNotes.SecondPromoteWritesNothing | scripts/promote_upgrade_notes.py:140-150 | a second promote of the version changes nothing, whatever the first one did |

## Left out

Of the registration:

- A registration request repeated by the client's own retry loop can be told "already exists" for the server it created itself (`pkg/hangar/client.go:173-227`); a lost request taking effect after its pass went on is not modelled either.
- The operator running without a claims namespace, in which nothing is registered; the text of conditions and events; how soon a pass is requeued.
- The holder's identity as a string, and a claim with no holder: holders are compared as triples of namespace, name and UID.
- SHA-256 digests of a tls block: the block itself stands on the claim.
- The status of an MCPServer beside its registration: Ready does not imply started, since health is read twice and a failed first read falls through.

Of the rest:

- Optional header fields and compressed blocks in the gzip reader; the encoder writes neither.
- The document's SHA digests, and text that is not bytes.
- Member order in JSON, numbers that are not integers, and a semantic equality of statuses finer or coarser than equality of their JSON.
- Timestamps, messages and observed generations of conditions.
- Lists of more than 2^31 objects, beyond the counters of a group.
- How core combines tool, header and argument rules into one answer, and what a glob matches: the decision is proved for any matcher, list by list.
- Parsing addresses and CIDRs from text. An IPv4-mapped IPv6 literal is an IPv6 address here, which is in none of the internal ranges.
- The protocol of an egress rule, and whether a cluster's Cilium lets CIDR rules match pods.
- Removing a CiliumNetworkPolicy outside the Audit and Allow branch: the other branches remove the NetworkPolicy only.
- The enforcement probe and the conditions a backstop reports; pushing the compiled policy to core; clearing it on deletion.
- Failing reads in the event mapping: it then finds fewer policies, and logs.
- The mapping from servers to groups, one selector per group and without a memo, would only repeat the policy mapping.
- Scanning namespaces, ConfigMaps, pods and services for entries; withholding deletes after a partial scan, which the operator does not do; the fields of a created server other than its labels.
- The two regular expressions of the promoter: what they match is a parameter, and so is how many lines a draft heading takes. A guide that does not end in a newline is not modelled.
- HTTP, TLS, caches, events, metrics, logging, leader election, pod and Deployment builders, webhooks and flag parsing.
