# Verification of the AGI v8.1 control cores

This project models the stateful cores of the AGI v8.1 loop in Dafny and proves what they keep over every input,
run and interleaving. One module stands for one component:

- `SpendLedger`, `SpendProtocol`, `SpendCap`, `SpendReview`: reviewers of several processes sharing one spend ledger. The
  protocol is a state machine in integer units of 1e-8 USD with a crash possible before every step; `SpendReview` is the review
  function itself, proved to follow those steps while others append; `SpendCap` says how far the cap can be passed.
- `JsonText`, `TextSort`, `CanonicalForm`, `CanonicalConverse`, `BusReader`, `BusPaging`: the falsifier bus, its
  order-free fallback ids, what they tell apart, its cursor, and paging over ids that repeat.
- `DeliveryTree`, `Delivery`, `DeliveryCopy`: copying and validating a bundle in a directory tree.
- `BwrapArgv`, `BwrapMeaning`: the bwrap argv as it is built, as it is read back, and the mounts it means.
- `ContinuationRing`, `CyclePolicy`: the bounded escalation ring, restarts, and the streak policy.
- `AxisScorer`, `ApplyLadder`, `CandidateGate`, `SiCycle`: from two pods' findings through votes, diagnosis and status to
  real writes, commands and confirmation handles.
- `VerifyHistory`, `GradeReceipt`, `EvidenceLedger`, `LanePruning`, `RetryChain`: the loop's smaller control cores.
- `Wrappers`, `Decimals`, `PathText`: shared datatypes and text functions.

Methods take the form of the source's loops and objects and are proved against specification functions; the lemmas
prove what the source promises about those functions. Environment gates are booleans of a configuration. Hashes are
taken as injective and the MAC as unforgeable. Whatever a provider, a file system, a verifier or another process may do
is a parameter on which nothing is assumed beyond the stated preconditions.

Where the code does not meet a plausible reading of its promise, the model follows the code, shows an input that fails
and proves when the promise holds:

- A ring of size 0 keeps everything, because Python's `[-0:]` is the whole list; with size 0 and sizes from 3 the policy
  is right in every run, and with no other (`RightSizesExactly`, `NegativeSizeForcesAfterRestart`, `ReloadEqualsLive`).
- A word-list command that starts with an option token is read as options (`OptionWordMisread`), and exactly such a
  first word breaks the reading (`ArgvRoundTrip`, `TailPlainness`).
- Paging over repeated event ids can stall: with limit one exactly when a matching row other than the last lacks a fresh
  id (`LimitOneExactly`), with any limit only if the id of a row that ends a page, missing or repeated, leads back a page
  or more (`FreshPagesServeAll`); what has not come after as many polls as rows match never comes (`InTimeOrNever`).
- The fallback id tells events apart up to the order of dicts and sets as long as their fields are plain values
  (`PlainEventsIdentified`). Each exclusion from the plain values has a colliding pair, and `IssuedIdsCollide` gives
  two events with one issued id.
- A held confirmation handle is left over when a command that may run, a session or the review raises, and in strict
  mode when the gate or a later lane fails (`RaisingSessionLeavesHandle`, `StrictRecordLeavesHandle`; exactly then:
  `NoHandleLeftExactly`, `ReturnsExactly`). A discard or confirmation that raises counts as spent.
- Consensus from silence returns as soon as one of the two gates is off (`SilenceNeedsBothGates`).

Two hypotheses are shown to be needed, though the code as it stands never violates them: reserves must cover the prices
within their envelope up to the slack of the headroom, and linear prices cover (`CapHoldsExactly`, `LinearPricesCover`);
and evidence must come from extraction, since evidence given directly, with nothing on a base axis but a causal chain or
a derived token, is diagnosed as passing (`BaselessPassesExactly`, `ChainAlonePasses`).

Check everything with `dafny verify dfyconfig.toml`.

## Model

| member | source | states |
|---|---|---|
| SpendReview.Ledger.Others | agi_v8_1/self_improvement_v8.py:1079-1088 | other reviewers may append rows between any two of this one's steps: the ledger only grows and stays accounted |
| SpendReview.Ledger.ReserveIfCapacity | agi_v8_1/verifier/cross_model_budget.py:868-950 | one atomic check of blockers, headroom and capacity and append: a row only when admitted and under a fresh transaction id, acknowledged or not |
| SpendReview.Ledger.RecordSpend | agi_v8_1/verifier/cross_model_budget.py:1046-1147 | a row that does not fit, a second reconcile above all, is refused; one that does may be lost, and may be durable without an acknowledgement |
| SpendReview.Acquire | agi_v8_1/self_improvement_v8.py:1053-1120 | a call is dispatched exactly when nothing drifted, the envelope has a price, and the reserve was admitted, acknowledged and given a valid id |
| SpendReview.MarkUncertain | agi_v8_1/self_improvement_v8.py:1237-1261 | closes an uncertain outcome with a zero, unmeasured, unverified row whenever one fits and is not lost; the review is rejected either way |
| SpendReview.CheckBreaches | agi_v8_1/self_improvement_v8.py:1233-1236 | a booked review is accepted exactly when it is within its reserve and the ledger under the cap |
| SpendReview.Reconcile | agi_v8_1/self_improvement_v8.py:1148-1232 | books the measured cost exactly for a measured usage whose row fits and is acknowledged; else keeps the whole reserve charged, unverified unless the served model is the requested one |
| SpendReview.Certify | agi_v8_1/self_improvement_v8.py:1158-1215 | usage is measured exactly when the requested model served it within both token bounds, in at most one billed attempt, at a known price; and unusable exactly when attempts, envelope or price say so |
| SpendProtocol.QuantizeIsCeiling | agi_v8_1/verifier/cross_model_budget.py:161-168 | amounts are rounded up to the fewest units that are no less |
| SpendReview.Review | agi_v8_1/self_improvement_v8.py:1028-1267 | the whole call follows the protocol's steps under interference by others, and gives the provider's answer exactly when nothing drifted, the reserve was admitted and acknowledged, the usage is measured within the reserve, its row is acknowledged and the cap holds at the end |
| SpendReview.InterleavedIsRun | agi_v8_1/self_improvement_v8.py:1028-1267 | the calls of several reviewers, interleaved on one ledger in any way, make a run of the protocol |
| SpendReview.InterleavedReviewsAccounted | agi_v8_1/self_improvement_v8.py:1028-1267 | so after every step of any of them the total is the sum of charges, and within the cap when the reserves cover |
| SpendLedger.TotalIsSumOfCharges | agi_v8_1/self_improvement_v8.py:1151-1267 | the ledger total is the sum over reserved transactions of the measured cost if reconciled as measured, else the full reserve |
| SpendLedger.AtMostOneReconcile | agi_v8_1/self_improvement_v8.py:1129-1256 | no transaction has two durable reconcile rows |
| SpendProtocol.InvInductive | agi_v8_1/self_improvement_v8.py:1051-1267 | every step of any reviewer, crash included, keeps the accounting of all of them |
| SpendProtocol.EveryStateAccounted | agi_v8_1/self_improvement_v8.py:1051-1267 | the accounting holds in every state of every interleaving, for any price function |
| SpendProtocol.LedgerTotal | agi_v8_1/self_improvement_v8.py:1051-1267 | in every reachable state the total is the sum of charges and no transaction is reconciled twice |
| SpendProtocol.ResultOnlyWhenMeasured | agi_v8_1/self_improvement_v8.py:1158-1236 | a review result is returned only with a durable measured row, the requested model served, and a cost within the reserve |
| SpendProtocol.ActualWithinReserve | agi_v8_1/self_improvement_v8.py:1054-1069 | when the reserve covers every usage within the envelope, a measured cost never exceeds it |
| SpendProtocol.BlockedAdmitsNothing | agi_v8_1/verifier/cross_model_budget.py:319-345 | on a blocked ledger no later state of any run has a new reservation, and who has not started is turned away |
| SpendProtocol.UnverifiedEndsAdmission | agi_v8_1/verifier/cross_model_budget.py:319-345 | a durable reconcile row above its reserve or marked unverified blocks it |
| SpendProtocol.BlockedHasPoison | agi_v8_1/verifier/cross_model_budget.py:319-345 | and no other row does |
| SpendProtocol.BreachEndsAdmission | agi_v8_1/verifier/cross_model_budget.py:319-345 | in particular after a booked cost above its reserve |
| SpendCap.OverrunBounded | agi_v8_1/verifier/cross_model_budget.py:889-912 | in every run the ledger stays within the cap, or above it by at most what all overshoots together exceed the slack that the headroom leaves |
| SpendCap.OvershootRun | agi_v8_1/verifier/cross_model_budget.py:889-912 | and reviewers that can overshoot at all have a run that reaches this bound exactly |
| SpendCap.CapHoldsExactly | agi_v8_1/self_improvement_v8.py:1215-1236 | the cap holds in every run of some reviewers, from every ledger and under every cap, exactly when all overshoots together fit into that slack |
| SpendCap.CapNeedsCoverage | agi_v8_1/self_improvement_v8.py:1215-1236 | with one reserve as large as the headroom, exactly when each reserve covers |
| SpendCap.CapNeverExceeded | agi_v8_1/self_improvement_v8.py:1079-1088 | when the reserves cover, no interleaving and no crash ever takes the ledger above the cap |
| SpendProtocol.MonotonePricesCover | agi_v8_1/self_improvement_v8.py:1054-1069 | prices that grow with tokens cover |
| SpendProtocol.LinearPricesCover | agi_v8_1/verifier/cross_model_budget.py:1150-1186 | the program's prices, linear in both token counts, cover, so its cap always holds |
| SpendProtocol.NeverUndercharged | agi_v8_1/self_improvement_v8.py:1034-1041 | once a provider answered with a measurable cost, a covered transaction is charged at least this cost in every later state |
| JsonText.EscapeCharPrefix | agi_v8_1/bus/falsifier_bus.py:507-514 | escaped characters form a prefix code (string quoting of section 7 of RFC 8259) |
| JsonText.JsonPrefix | agi_v8_1/bus/falsifier_bus.py:507-514 | JSON texts of canonical values form a prefix code up to the following delimiter |
| JsonText.JsonInjective | agi_v8_1/bus/falsifier_bus.py:507-514 | the text used as sort key and hash input determines the canonical value |
| JsonText.JsonSpelled | agi_v8_1/bus/falsifier_bus.py:507-514 | the words, brackets and separator that json.dumps writes |
| JsonText.EscapesSpelled | agi_v8_1/bus/falsifier_bus.py:507-514 | and its escapes, non-ASCII characters kept |
| TextSort.SortIgnoresOrder | agi_v8_1/bus/falsifier_bus.py:484-492 | sorting by a key that identifies its entries gives the same list for every order of the input |
| TextSort.SortByAscends | agi_v8_1/bus/falsifier_bus.py:484-492 | the result ascends: an earlier key is a prefix of a later one, or smaller where they first differ |
| CanonicalForm.DictFormAscends | agi_v8_1/bus/falsifier_bus.py:477-486 | a dict's form is a list of one pair of key text and value form for each entry, ascending by the pairs' texts |
| CanonicalForm.SetFormAscends | agi_v8_1/bus/falsifier_bus.py:487-492 | a set's form is a list of its members' texts, ascending |
| CanonicalForm.ListFormInOrder | agi_v8_1/bus/falsifier_bus.py:493-495 | lists and tuples keep their order |
| CanonicalForm.DepthCapAt | agi_v8_1/bus/falsifier_bus.py:459-464 | leaves as they are, and the marker from depth 13 on |
| CanonicalForm.TiesAreEqual | agi_v8_1/bus/falsifier_bus.py:478-486 | dict entries with equal sort keys are equal pairs |
| CanonicalForm.CanonicalIgnoresOrder | agi_v8_1/bus/falsifier_bus.py:446-504 | permuting dict entries and set elements at any depth leaves the canonical form unchanged, depth cap included |
| CanonicalForm.SameIdIffSameForm | agi_v8_1/bus/falsifier_bus.py:545-581 | two events get the same fallback id exactly when their bases have the same canonical form |
| CanonicalForm.ReemittedEventKeepsId | agi_v8_1/bus/falsifier_bus.py:517-522 | an event emitted again with its mappings and sets in another order keeps its id |
| CanonicalForm.EntriesDifferIffPartsDiffer | agi_v8_1/bus/falsifier_bus.py:451-454 | two dict entries become one pair exactly when key and value agree canonically, so keys that differ canonically never fold |
| CanonicalForm.SetAndListOfTextCollide | agi_v8_1/bus/falsifier_bus.py:487-495 | a set of a number and the list of its text share a form at every depth within the cap |
| CanonicalConverse.SameIdIffSameFields | agi_v8_1/bus/falsifier_bus.py:545-581 | two events get the same fallback id exactly when each of the seven fields has the same canonical form |
| CanonicalConverse.FormIsValueUpToOrder | agi_v8_1/bus/falsifier_bus.py:446-504 | on plain values two forms are equal exactly when the values are equal up to the order of dicts and sets |
| CanonicalConverse.PlainEventsIdentified | agi_v8_1/bus/falsifier_bus.py:446-460 | discrimination: plain events share a fallback id exactly when their fields agree up to order |
| CanonicalConverse.OpaqueAndTextCollide | agi_v8_1/bus/falsifier_bus.py:465-504 | why opaque leaves are not plain: one shares the form of its text |
| CanonicalConverse.TupleAndListCollide | agi_v8_1/bus/falsifier_bus.py:493-495 | why tuples and lists are not mixed |
| CanonicalConverse.EmptyContainersCollide | agi_v8_1/bus/falsifier_bus.py:477-495 | why empty lists, tuples and sets are not plain |
| CanonicalConverse.DictAndPairsCollide | agi_v8_1/bus/falsifier_bus.py:477-486 | why a list of text-headed pairs is not plain: a dict folds into one |
| CanonicalConverse.DepthCapCollides | agi_v8_1/bus/falsifier_bus.py:459-460 | why plain values end at the depth cap: beyond it all values share a form |
| CanonicalConverse.EventsThatShareAnId | agi_v8_1/bus/falsifier_bus.py:487-495 | two events that differ in their prediction and do share a fallback id |
| CanonicalConverse.IssuedIdsCollide | agi_v8_1/bus/falsifier_bus.py:555-572 | so do two events whose outcome the primary dump refuses, for which this id is the issued one |
| CanonicalConverse.TupleKeyIsRefused | agi_v8_1/bus/falsifier_bus.py:555-572 | as it refuses a dict keyed by a tuple |
| BusReader.FirstAfterIsFirst | agi_v8_1/bus/falsifier_bus.py:958-961 | the cursor resumes after the first row with its id, and from the start when there is none |
| BusReader.ReadEvents | agi_v8_1/bus/falsifier_bus.py:911-982 | the filtering loop returns the matching rows after the cursor, in order, cut at the limit; a row matches by its own source, producer, verdict and time, a NaN being later than anything |
| BusReader.PollKeepsUpToDate | agi_v8_1/bus/falsifier_bus.py:958-982 | a poll without limit brings a consumer up to date after any growth of the ledger |
| BusReader.PollingLosesNothing | agi_v8_1/bus/falsifier_bus.py:922-935 | after each poll without limit the consumer has every matching row so far, even when ids repeat |
| BusReader.UniqueIdsArriveOnce | agi_v8_1/bus/falsifier_bus.py:958-982 | with unique ids what was received is exactly a prefix of the matching rows, each once and in order, with any page limit |
| BusReader.UniqueIdsArriveWhole | agi_v8_1/bus/falsifier_bus.py:958-982 | with unique ids and no limit that prefix is everything |
| BusReader.RepeatedIdsStarveLimitedPolls | agi_v8_1/bus/falsifier_bus.py:958-982 | one ledger with repeated ids, polled one row at a time, whose last row never arrives |
| BusPaging.PollsTakePages | agi_v8_1/bus/falsifier_bus.py:958-982 | on a fixed ledger poll t receives exactly the page that starts at the t-th place of a walk over the matching rows |
| BusPaging.LimitOneExactly | agi_v8_1/bus/falsifier_bus.py:958-982 | with limit one every matching row arrives exactly when each but the last has an id that no earlier row carries |
| BusPaging.FreshPagesServeAll | agi_v8_1/bus/falsifier_bus.py:958-982 | with any limit every matching row arrives when no row that ends a page, the last one aside, resumes a page or more of matching rows behind itself |
| BusPaging.FreshRowsServeAll | agi_v8_1/bus/falsifier_bus.py:958-982 | so it does when no matching row but the last resumes that far behind, wherever the pages end |
| BusPaging.InTimeOrNever | agi_v8_1/bus/falsifier_bus.py:958-982 | for every limit: everything arrives exactly when one of the first polls, as many as rows match, reaches the last row |
| DeliveryTree.RelativeExactly | agi_v8_1/capabilities/delivery.py:169-175 | a path is accepted with given parts exactly when these are non-empty names, none . or .., that join to it, and it has no backslash |
| DeliveryTree.RelativeInjective | agi_v8_1/capabilities/delivery.py:169-175 | two accepted texts with the same parts are the same text, so distinct destinations are distinct paths |
| DeliveryTree.FileTree.OpenDirectory | agi_v8_1/capabilities/delivery.py:224-239 | the no-follow walk succeeds exactly when each part is, or with create can be made, a directory |
| DeliveryTree.FileTree.ReadRegular | agi_v8_1/capabilities/delivery.py:242-272 | the chunked read returns the whole content of a regular file within the bound, and nothing for any other node |
| DeliveryTree.FileTree.WriteAll | agi_v8_1/capabilities/delivery.py:312-317 | for any split of partial writes, exactly the given bytes are written, or the write fails |
| DeliveryTree.FileTree.WriteRegular | agi_v8_1/capabilities/delivery.py:305-323 | a new file with exactly these bytes below new directories, only where nothing stood |
| Delivery.ValidateManifest | agi_v8_1/capabilities/delivery.py:178-206 | accepts exactly the manifests with the fixed schema and coordinates, proper and distinct destinations, sizes within both bounds and no payload |
| Delivery.CheckEntries | agi_v8_1/capabilities/delivery.py:185-202 | the loop accepts exactly when every entry is in order and no destination repeats, and returns the true total |
| Delivery.ValidateInventory | agi_v8_1/capabilities/delivery.py:326-345 | the children table and the listings accept exactly when each expected directory lists the expected names |
| Delivery.ListingsPinTree | agi_v8_1/capabilities/delivery.py:326-345 | the local listings together with the files being there hold exactly when the whole recursive tree is pinned |
| Delivery.ValidateBundle | agi_v8_1/capabilities/delivery.py:348-360 | accepts exactly a valid manifest with its bundle: at each destination bytes of the recorded size and digest, the manifest file, the directories above them, nothing else at any depth |
| Delivery.ChecksMeanExact | agi_v8_1/capabilities/delivery.py:348-360 | the local checks in order are equivalent to the global statement |
| DeliveryCopy.CanCreateIffApart | agi_v8_1/capabilities/delivery.py:305-311 | a file can be created exactly when its path is apart from the paths written so far |
| DeliveryCopy.ReadSources | agi_v8_1/capabilities/delivery.py:377-381 | all sources are read and match their entries, or the copy stops before writing |
| DeliveryCopy.WriteAllFiles | agi_v8_1/capabilities/delivery.py:390-392 | writing in order succeeds only for prefix-free paths, then gives exactly their tree; and always for them when writes are taken |
| DeliveryCopy.CopyBundle | agi_v8_1/capabilities/delivery.py:363-403 | success means an exact bundle from sources of the recorded size and digest; and when manifest, sources, sizes and distinct places allow it, the copy succeeds for every partial-write schedule |
| BwrapArgv.BuildBwrapArgv | agi_v8_1/core/isolation_backend.py:363-440 | the argv built step by step is the rendered options in contract order and the command tail; refused without a resolved prlimit |
| BwrapMeaning.RefusedExactly | agi_v8_1/core/isolation_backend.py:425-431 | refused exactly when limits are asked for and prlimit is missing or empty |
| BwrapMeaning.CommandExactly | agi_v8_1/core/isolation_backend.py:416-440 | program, command and the four limits as they read back: each override, or 2 GiB, 256, 600 and 512 MiB; no limits exactly when none are asked for |
| BwrapMeaning.AlwaysIsolated | agi_v8_1/core/isolation_backend.py:363-373 | the seven isolation flags and the read-only root come first in every jail |
| BwrapMeaning.DirectoriesExactly | agi_v8_1/core/isolation_backend.py:406-414 | the jail changes to the requested directory only, and makes exactly the requested empty ones |
| BwrapMeaning.EnvironmentExactly | agi_v8_1/core/isolation_backend.py:378-395 | the environment is cleared exactly when request or gate ask for it, and then holds the minimal and the extra settings in order |
| BwrapMeaning.MaskHidesRun | agi_v8_1/core/isolation_backend.py:396-402 | with the mask asked for, everything below /run that no bind covers is jail-only |
| BwrapMeaning.NoMaskShowsHost | agi_v8_1/core/isolation_backend.py:396-402 | without it, what no other directory hides is the host's, read-only |
| BwrapArgv.ReadBackOptions | agi_v8_1/core/isolation_backend.py:363-414 | an arity-based reader recovers exactly the rendered options, whatever text the operands hold |
| BwrapMeaning.OptionsMeaning | agi_v8_1/core/isolation_backend.py:363-414 | the options have exactly the effects that the request asks for, in order |
| BwrapMeaning.LimitsReadBack | agi_v8_1/core/isolation_backend.py:425-435 | the limit prefix reads back as the four limits and the command |
| BwrapMeaning.ArgvRoundTrip | agi_v8_1/core/isolation_backend.py:363-440 | the argv reads back as exactly the requested jail if and only if the first word after the options is not an option |
| BwrapMeaning.TailPlainness | agi_v8_1/core/isolation_backend.py:418-440 | when that is: a shell line always, a word list by its first word, a limited command by the prlimit path |
| BwrapMeaning.OptionWordMisread | agi_v8_1/core/isolation_backend.py:418-440 | a request whose word list starts with --bind is not read back as the request, whatever words follow |
| BwrapMeaning.AskedMounts | agi_v8_1/core/isolation_backend.py:289-333 | the requested mounts, later shadowing earlier, show at each place what the contract documents |
| BwrapMeaning.ArgvMeansContract | agi_v8_1/core/isolation_backend.py:289-333 | the jail that the argv sets up shows, at every place, what the contract documents |
| BwrapMeaning.HostWritableExactly | agi_v8_1/core/isolation_backend.py:323-333 | a place is host-writable exactly under a writable directory and under no read-only bind, and is then that same host place |
| BwrapMeaning.HiddenOnlyThroughBinds | agi_v8_1/core/isolation_backend.py:300-316 | host content below /run (masked), /proc, /dev, /tmp or a masked directory is visible only through a requested bind |
| ContinuationRing.StatusHistoryRing.Append | agi_v8_1/core/continuation_ring.py:150-177 | appends, trims to the size and writes the sidecar row; nothing when the gate is off |
| ContinuationRing.StatusHistoryRing.Tail | agi_v8_1/core/continuation_ring.py:179-187 | the last n entries, or fewer, and none when the gate is off |
| ContinuationRing.StatusHistoryRing.TrailingEscalatedCount | agi_v8_1/core/continuation_ring.py:258-282 | the length of the escalated run at the tail |
| ContinuationRing.StreakIsRunAtEnd | agi_v8_1/core/continuation_ring.py:258-282 | the streak is the whole escalated run at the end and stops at the first entry that is not |
| ContinuationRing.LoadFromSidecar | agi_v8_1/core/continuation_ring.py:319-369 | a rebuilt ring holds the tail slice of its own key's rows in a shared sidecar, and persists again |
| ContinuationRing.LiveIsLastSlice | agi_v8_1/core/continuation_ring.py:169-174 | a never-restarted ring holds the last max_size of its appends |
| ContinuationRing.ReloadEqualsLive | agi_v8_1/core/continuation_ring.py:169-174 | a reload equals the live ring exactly when max_size is at least 0, or no more than -max_size entries were appended |
| ContinuationRing.RestartTransparent | agi_v8_1/core/continuation_ring.py:319-369 | for any interleaving of rings sharing a sidecar and any restarts, each ring equals its never-restarted self |
| CyclePolicy.BuildCyclePolicy | agi_v8_1/core/cycle_policy_v81.py:219-268 | the policy is streak, threshold and reset flag of the ring's tail; neutral when gated off |
| CyclePolicy.EscalatedMeans | agi_v8_1/self_improvement_v8.py:3494-3519 | exactly blocked and reverted cycles enter the ring as escalated |
| CyclePolicy.EntrySpelled | agi_v8_1/self_improvement_v8.py:3494-3519 | the ring status of every cycle status, and the text that goes with it |
| CyclePolicy.StreakReaches | agi_v8_1/core/continuation_ring.py:258-282 | the streak reaches three exactly when the last three entries are escalated |
| CyclePolicy.RingFollowsCycles | agi_v8_1/self_improvement_v8.py:3753-3777 | with rehydration the ring at any point is the last max_size of all cycles, whichever processes ran them |
| CyclePolicy.ForcedExactlyAfterThree | agi_v8_1/self_improvement_v8.py:5346-5366 | with size 0 or at least 3, replanning is forced exactly when the three cycles before were all blocked or reverted |
| CyclePolicy.ThreeBlockedUnforced | agi_v8_1/core/cycle_policy_v81.py:257 | for every other size three blocked cycles of one process force nothing |
| CyclePolicy.RightSizesExactly | agi_v8_1/core/cycle_policy_v81.py:257 | forcing follows three escalating cycles in every run exactly for size 0 and sizes from 3 |
| CyclePolicy.SizesOneAndTwoNeverForce | agi_v8_1/core/cycle_policy_v81.py:257 | rings of size 1 and 2 force nothing in any run |
| CyclePolicy.NegativeSizeForcesAfterRestart | agi_v8_1/core/continuation_ring.py:169-174 | with size -1 four blocked cycles force nothing until a restart reloads them |
| CyclePolicy.WithoutRehydration | agi_v8_1/self_improvement_v8.py:3765-3777 | without rehydration exactly the last three cycles of the running process count |
| CyclePolicy.OneProcessPerCycle | agi_v8_1/self_improvement_v8.py:3765-3772 | without rehydration one process per cycle never replans |
| AxisScorer.BandMembership | agi_v8_1/core/axis_scorer.py:175-187 | the three bands are the closed intervals up to 0.40, 0.28 to 0.73, and from 0.61 |
| AxisScorer.BandArithmetic | agi_v8_1/core/axis_scorer.py:117-121 | a gap up to 0.12 always shares a band, and a shared band bounds the gap by 0.45 |
| AxisScorer.BandBoundsAreTight | agi_v8_1/core/axis_scorer.py:117-130 | neither bound can be improved |
| AxisScorer.NumericAxisValues | agi_v8_1/core/axis_scorer.py:190-207 | the clamped number of each base axis that has one, and no entry for the others |
| AxisScorer.ExtractAxisEvidence | agi_v8_1/core/axis_scorer.py:490-533 | tokens of the four base axes only; numbers only with both numeric gates on |
| AxisScorer.TokensSpelled | agi_v8_1/core/axis_scorer.py:490-533 | on a base axis exactly the scanned tokens and, with numbers on, the bands of the axis's own number |
| AxisScorer.RestSpelled | agi_v8_1/core/axis_scorer.py:490-533 | on no other axis any, no chain, and the clamped numbers themselves only for the guard |
| AxisScorer.AxisAligned | agi_v8_1/core/axis_scorer.py:536-552 | aligned exactly when both sides are empty or share a token |
| AxisScorer.VotePerAxis | agi_v8_1/core/axis_scorer.py:555-673 | the map built axis by axis is the alignment of each axis, the guard applied before novelty and pareto |
| AxisScorer.VoteSymmetric | agi_v8_1/core/axis_scorer.py:555-673 | exchanging the pods changes no vote |
| AxisScorer.FiveMeansAllBase | agi_v8_1/core/axis_scorer.py:623-643 | causality off: five votes exactly when all four base axes align, with or without the guard |
| AxisScorer.FourNeedsTheGuard | agi_v8_1/core/axis_scorer.py:595-643 | causality off: four votes exactly for identical tokens and three aligned axes, so never without the guard |
| AxisScorer.FourIsReachable | agi_v8_1/core/axis_scorer.py:595-609 | with the guard on, four votes do occur |
| AxisScorer.NumericAxisVote | agi_v8_1/core/axis_scorer.py:595-609 | an axis with numbers only aligns exactly when a band is shared and the guard lets the gap pass |
| AxisScorer.DefaultGuard | agi_v8_1/core/axis_scorer.py:128-139 | at the default threshold gaps up to 0.12 agree and gaps from 0.20 disagree |
| AxisScorer.CountedOnBase | agi_v8_1/core/axis_scorer.py:790-803 | extracted evidence counts only when some base axis has a token |
| AxisScorer.DecideStatus | agi_v8_1/self_improvement_v8.py:4140-4215 | two stubs are advisory, one blocks; else five votes without a veto agree, up to two block, the rest is split |
| AxisScorer.NoVacuousConsensus | agi_v8_1/self_improvement_v8.py:4169-4206 | with eligibility and diagnosis on, consensus puts a token of some base axis in both pods' evidence |
| AxisScorer.ConsensusExactly | agi_v8_1/self_improvement_v8.py:4169-4206 | causality off: consensus exactly when both inputs are real, all base axes align and some token is shared |
| AxisScorer.BlockedExactly | agi_v8_1/self_improvement_v8.py:4193-4215 | without guard and causality: blocked exactly up to two aligned base axes, split at three or at a vetoed four |
| AxisScorer.SilenceNeedsBothGates | agi_v8_1/core/axis_scorer.py:806-864 | two silent pods reach consensus exactly when one of the two gates is off |
| AxisScorer.FiveVotesShareExactly | agi_v8_1/core/axis_scorer.py:806-864 | for any evidence: five votes share a base token exactly when the first pod has one |
| AxisScorer.BaselessPassesExactly | agi_v8_1/core/axis_scorer.py:651-671 | evidence without base tokens is diagnosed as passing exactly when both sides count a derived token or a causal chain |
| AxisScorer.ChainAlonePasses | agi_v8_1/core/axis_scorer.py:651-671 | one such evidence: a shared causal chain and nothing else |
| ApplyLadder.RunApplyLadder | agi_v8_1/self_improvement_v8.py:2717-2889 | raises, writes and applies exactly for the stated reasons, and runs exactly the commands that may run, in order and with repetitions, up to and with the first that raises |
| ApplyLadder.RunCommandsAuthorized | agi_v8_1/self_improvement_v8.py:2833-2889 | a run command passed seam, arming and plan, and with execution authority on an agreed, verified cycle and the reviewed set |
| ApplyLadder.AppliedMeans | agi_v8_1/self_improvement_v8.py:2766-2818 | a ladder that returns reports applied exactly for agreed, write-enabled, reviewed changes, the confirmed ones under a handle, in a successful session |
| ApplyLadder.RaisedExactly | agi_v8_1/self_improvement_v8.py:2717-2889 | the ladder raises exactly when the review of some changes does, or a session, or a command that may run |
| CandidateGate.OrderedFirstGreen | agi_v8_1/self_improvement_v8.py:4576-4682 | the rank loop amounts to its first stopping rank: raised, green, or a discard that raised |
| CandidateGate.RunGate | agi_v8_1/self_improvement_v8.py:4511-4713 | for every verdict: what is handed on is the first green rank's accepted changes, the shared and its own commands and its handle, or nothing; each verified batch holds the shared changes; handles balance |
| CandidateGate.FirstGreenSelected | agi_v8_1/self_improvement_v8.py:4618-4674 | the selected batch is the least green rank and no later rank is verified |
| CandidateGate.GreenIsFound | agi_v8_1/self_improvement_v8.py:4598-4674 | a green rank is selected unless an earlier call or discard raised |
| CandidateGate.GateBalance | agi_v8_1/self_improvement_v8.py:4611-4674 | each issued handle is spent as not applied or held for the ladder, never both |
| CandidateGate.RunCycle | agi_v8_1/self_improvement_v8.py:5054-5105 | the ladder gets the pods' changes and commands before the gate's, with only the gate's approved; a cycle that returns leaves no handle over, and confirms one as applied only for its own transaction, really written |
| CandidateGate.ReturnsExactly | agi_v8_1/self_improvement_v8.py:4765-5105 | a cycle returns exactly when strict mode sees no failure of gate, lanes and log, and no step of the ladder raises |
| CandidateGate.HandlesSpentOnce | agi_v8_1/self_improvement_v8.py:5083-5105 | every issued handle is spent exactly once when the cycle returns; otherwise exactly the held one is left |
| CandidateGate.NoHandleLeftExactly | agi_v8_1/self_improvement_v8.py:5083-5105 | no handle outlives a cycle exactly when the cycle returns or holds none |
| CandidateGate.RaisingSessionLeavesHandle | agi_v8_1/self_improvement_v8.py:5064-5094 | one green candidate and a session that raises: its handle is issued once more than it is spent |
| CandidateGate.StrictRecordLeavesHandle | agi_v8_1/self_improvement_v8.py:4724-4839 | in strict mode the same when recording its verdict raises, whatever the ladder would have done |
| CandidateGate.AppliedConfirmation | agi_v8_1/self_improvement_v8.py:2390-2412 | a handle confirmed as applied means that the session really wrote exactly the transaction confirmed under it |
| CandidateGate.SelectedIsWritten | agi_v8_1/self_improvement_v8.py:2390-2412 | when handles confirm what was accepted, exactly the first green rank's accepted changes were written, and none of a pod's beside them |
| CandidateGate.CommandsNeedVerification | agi_v8_1/self_improvement_v8.py:4930-4937 | with the gate armed, commands go on only after an ok, run and completion-verified verdict |
| CandidateGate.OnlyReviewedCommandsRun | agi_v8_1/self_improvement_v8.py:5044-5062 | with gate and execution authority on, a command that runs is one of the reviewed proposer's, even when a pod listed it |
| SiCycle.RunOneCycle | agi_v8_1/self_improvement_v8.py:4140-5105 | with both gates on, a real self-modification write or an authorised command needs two real reports with a shared base token |
| SiCycle.RealWriteNeedsSharedSignal | agi_v8_1/self_improvement_v8.py:2766-2791 | the self-modification session runs for real only when both pods reported and some base axis shows a shared token |
| SiCycle.CommandNeedsSharedSignal | agi_v8_1/policy/execution_authority.py:260-283 | with execution authority on the same holds for running a command |
| VerifyHistory.VerifyHistoryRows | agi_v8_1/self_improvement_v8.py:1789-1843 | the rows of the last cycles by first appearance, as many as the window takes: each from its cycle's last event that is no telemetry, with its last verify payload |
| VerifyHistory.ListedExactly | agi_v8_1/self_improvement_v8.py:1821-1828 | a cycle is listed exactly when some event that is no telemetry has its id |
| VerifyHistory.CyclesDistinct | agi_v8_1/self_improvement_v8.py:1827-1828 | a cycle is listed once |
| VerifyHistory.FirstAppearanceOrder | agi_v8_1/self_improvement_v8.py:1827-1838 | rows stand in the order in which their cycles first appear |
| VerifyHistory.LastRowIsLast | agi_v8_1/self_improvement_v8.py:1829-1837 | a row carries its cycle's last representing event |
| VerifyHistory.LastVerifyIsLast | agi_v8_1/self_improvement_v8.py:1819-1820 | and its last verify payload wherever that event occurred |
| VerifyHistory.TelemetryInvisible | agi_v8_1/self_improvement_v8.py:1821-1826 | deleting any progress and reinjection events from any stream changes no row |
| PathText.JoinInjectiveOnClean | agi_v8_1/core/sandbox_runner.py:509-512 | arbitrary parts that join to the text of equally many newline-free parts are those parts |
| GradeReceipt.PayloadInjective | agi_v8_1/core/sandbox_runner.py:509-515 | the payload under the MAC determines all fifteen fields against newline-free signed ones |
| GradeReceipt.NewlineBreaksInjectivity | agi_v8_1/core/sandbox_runner.py:509-512 | with a newline inside a field two tuples share one text |
| GradeReceipt.VerifyGradeReceipt | agi_v8_1/core/sandbox_runner.py:554-617 | each refusal names the check that failed after those before it passed, and none is given exactly when all pass on the receipt's own fields |
| GradeReceipt.ParseEnvelope | agi_v8_1/core/sandbox_runner.py:2553-2747 | a row is adopted exactly from a zero return code and a parsed envelope that passes every receipt check where a context is given and whose eight numbers read within bounds; it carries exactly these numbers |
| GradeReceipt.FloatAndTextSpelled | agi_v8_1/core/sandbox_runner.py:579-598 | how a value prints against its signed text, and reads as a float |
| GradeReceipt.AsIntSpelled | agi_v8_1/core/sandbox_runner.py:2616-2640 | an integer as it is, a text by int(), a finite float cut toward zero, and nothing else |
| GradeReceipt.AuthenticIsSigned | agi_v8_1/core/sandbox_runner.py:579-598 | an authentic row is one the harness signed, field by field, for this call's nonce and digests |
| GradeReceipt.RowIsSigned | agi_v8_1/core/sandbox_runner.py:2616-2747 | an adopted row carries exactly the signed exit code and test counts |
| GradeReceipt.EachRowItsOwnSigning | agi_v8_1/core/sandbox_runner.py:586-594 | over calls with distinct nonces no signing backs two adopted rows |
| GradeReceipt.ReplayNamed | agi_v8_1/core/sandbox_runner.py:559-594 | a row signed for one call, presented to a later one, is refused for its context and not for its signature |
| EvidenceLedger.Ledger.LastAttemptTs | agi_v8_1/bridge/si_evidence.py:502-511 | the latest time of a dispatched row, none when there is none |
| EvidenceLedger.Ledger.DispatchedCount | agi_v8_1/bridge/si_evidence.py:514-516 | how many rows were dispatched |
| EvidenceLedger.Ledger.EvidenceBlocks | agi_v8_1/bridge/si_evidence.py:655-682 | one call appends one row: refused exactly within a cooldown of some dispatch and, with the quota on, when it is used up; else dispatched when it works out |
| EvidenceLedger.AttemptIsLatest | agi_v8_1/bridge/si_evidence.py:502-511 | the recorded last attempt is the maximum of all dispatch times |
| EvidenceLedger.DispatchesSpaced | agi_v8_1/bridge/si_evidence.py:655-682 | quota off: each dispatch is at least a cooldown above every earlier one, for any clock |
| EvidenceLedger.QuotaSpacing | agi_v8_1/bridge/si_evidence.py:658-669 | quota on: after the first max(1, limit) dispatches each further one moves the latest time on by a cooldown |
| EvidenceLedger.DispatchesBounded | agi_v8_1/bridge/si_evidence.py:658-669 | so a bounded clock bounds the number of dispatches |
| LanePruning.PlanWithinCap | agi_v8_1/bridge/si_evidence.py:580-616 | unless the probe failed, a burst that proceeds costs at most the cap in the worst case |
| LanePruning.PruningIsMaximal | agi_v8_1/bridge/si_evidence.py:588-616 | pruning leaves the largest affordable even lane count, below the plan, and happens only when the plan is too dear |
| LanePruning.SkippedExactly | agi_v8_1/bridge/si_evidence.py:581-606 | a burst is skipped exactly for an invalid quantity, or when neither the plan nor two lanes fit |
| LanePruning.SkippedWhenTwoLanesTooDear | agi_v8_1/bridge/si_evidence.py:581-606 | with at least one planned task that is exactly when two lanes are unaffordable |
| RetryChain.DecisionAt | agi_v8_1/core/retry_chain.py:59-154 | the k-th decision is a retry until the number of retries is used up, then the ending |
| RetryChain.ChainToTermination | agi_v8_1/core/retry_chain.py:157-189 | the trail in closed form for all counters, negative ones too: retries, at most one other action, cut at the bound |

## Left out

- The primary event-id path (`json.dumps` of the raw basis with a leaf hook): only the fallback basis is modelled; lone surrogates, cyclic values and unstable foreign texts are outside the value type.
- An integer time stamp in a bus row that is too large for a float.
- `append_event`: field clamping, masking, rotation and the last-resort basis are text heuristics around the append.
- SpendCap.CapHoldsExactly: the needed half is about ledgers without an episode budget, whose own limit adds refusals; the same holds for `OvershootRun`.
- The budget module beyond its locked appends, its admission checks and its linear price: file validation and locking are taken as they promise, rows of the first schema and a cap that is not finite are left out, and the 5e-9 tolerances vanish in integer units.
- Provider pre-dispatch drift checks: each refuses before any ledger step, so they appear as a refused start.
- Float rounding: money, weights, times and prices are integers or reals, and a NaN or an infinity is its own case where the code tests for it.
- Delivery: error codes, file modes, symbolic links outside the tree, a file that changes during a read, the root walk, the destination-inside-source check, `build_manifest` and the order in which directories are listed.
- bwrap: options the builder never emits, `..` and symbolic links inside mount places, and mounting failures.
- Several ring objects for one key, appends that fail after the entry is in memory, and a gate that changes between calls; `to_list`, `escalated_count` and `continuation_cycle_count` would only add easy members.
- `cycle_n`, thresholds read from the environment and the head-state file of the cycle policy.
- The text scan of a block (its matches are given as token lists), the sandbox signals, the per-axis `detail` records and the threshold parsing.
- An evaluator that raises while extracting: the same extraction runs unguarded before it, so the cycle has failed already.
- How a confirmation handle is kept: `verify_access_payload` is not part of this model, so which transaction a handle confirms is a parameter, and a review under a handle passes only for that transaction.
- A failure of the code between gate and ladder that no handler catches, such as in `normalize_commands` or the command digests.
- `verify_changes`, the session applier, the command planner (one that does not raise) and `normalize_commands`: nondeterministic outcomes, the last one assumed only to drop commands and trim white space. Archive, logs and summaries of the verify gate are telemetry.
- SiCycle.RealWriteNeedsSharedSignal: covers only the self-modification session, because work-product and answer sessions (self_improvement_v8.py:2919-2959) really write on the write gate alone, without consensus, into the state directory.
- What those two sessions and the artifact runs after them do: only that they may raise, once the commands have run.
- Receipt provisioning, key and allowlist files; `status` and `stderr_tail` of a telemetry row; an infinite float in an integer field.
- The swarm dispatch inside an evidence call: it works out or it does not. Two evidence calls at once on one ledger are not locked by the code and not modelled, nor is a ledger append that fails.
- The environment override text of the lane plan: the plan is the number of tasks.
- Reason texts of retry decisions.
- The public release checks repeat the delivery checks; gate parsing, phase enums, message classes, judge mapping and prompt text are small or textual.
