# Safety of paid hiring: a Dafny model

A hire through BNBEra must reach the chain at most once and its seller at most once, whatever
crashes, lost replies or other callers get in between, and both sides must mean the same offer. The
lemmas here say how far the code keeps that, from the operation ledger over the seller's signed JSON
to the release of the site.

| file | what it models |
|---|---|
| `Ledger.dfy`, `OperationRepository.dfy` | the `erc8183_operations` table: every UPDATE with its WHERE clause, any interleaving of them, and the repository class over the table |
| `ReferenceSlots.dfy`, `ReferenceSafety.dfy`, `ReferenceGuarantees.dfy`, `ReferenceWitness.dfy`, `ReferenceService.dfy` | the bounded reference provider: admission, one worker, all other ledger users and crashes as one state machine; its invariant; what every run promises; runs from the empty state that send, fail and get stuck; the process as a class whose methods are runs of that machine |
| `JsonValues.dfy`, `JsonCodePoints.dfy`, `JsonText.dfy`, `JsonParser.dfy` | JSON over UTF-16 code units: canonical key order and code-point order, the printer with its escape pass, the parser |
| `JsonReference.dfy`, `JsonExample.dfy`, `JsonNumbers.dfy` | the canonical text spelled out character by character, one whole text over all branches, and the grammar of numbers |
| `SellerQuote.dfy`, `SellerQuoteProofs.dfy`, `SellerResult.dfy` | negotiating, storing and re-checking a seller's offer; tying it to a job and to a result |
| `SellerDemands.dfy`, `SellerWitness.dfy` | exactly what each of these steps demands, one by one, and stores; one offer that goes all the way |
| `Lifecycle.dfy`, `Receipts.dfy` | the ERC-8183 job record; accepted later states, event lookup, the funding check |
| `HistoryScan.dfy` | the restartable history scan |
| `ServiceRefresh.dfy`, `ServiceRefreshPool.dfy` | the worker pool with a shared index and a cache of promises |
| `Promotion.dfy` | crash-safe promotion of a release |
| `Delivery.dfy` | at-most-once notification of an external seller |
| `Wrappers.dfy` | `Option` and `Result` |

Hashing, signature recovery, address checksums, URL syntax, ABI decoding, clocks and every network
answer are parameters: a theorem holds for all of their values. Code that updates fields is a class
with methods that are proved against a function or a step of a state machine; the theorems are
lemmas about runs of that machine.

`dafny verify dfyconfig.toml` checks the project.

## Where the code does not do what one would expect

The code is modelled as it is; each of these is a theorem with its exact condition.

* The offer schema trims the identity namespace, the adapter keeps its binding as given, and
  `assertQuote` compares the two: a negotiated offer is accepted exactly when the binding's namespace
  has no surrounding white space (`NegotiatedQuoteAccepted`, failing family `SpacedNamespaceRefused`,
  one offer with both outcomes `OfferExists`).
* The comment on `canonicalSellerJson` claims parity with Python, which sorts keys by code point. The
  keys come out in that order if and only if index-like keys sort alike as text and as numbers, and
  no two keys first differ where one is inside a surrogate pair and the other holds a greater code
  unit outside any pair (`CodePointOrderIff`). Failing inputs: the keys 2 and 10
  (`TextOrderCounterexample`); U+E000 and U+10000 (`SurrogateCounterexample`). Against the order by
  code unit only the first condition remains (`CodeUnitOrderIff`).
* `markReceipt` may replace a stored hash. So the ledger row holds the hash being broadcast if and
  only if no other hash was recorded as a receipt in between (`EvidenceIffLastReceipt`; a run from the
  empty state that breaks it is `ForeignReceiptRun`).
* A row reserved without a context can be claimed, but no caller is ever told so
  (`ContextlessClaimLost`): the claim flag follows the claims granted and released if and only if the
  row has a context (`ClaimsConservedIff`). A row reserved with the claim flag set can be released
  without having been claimed (`SuppliedFlagReleased`): at most one dispatch is in flight, and none
  is handed back unclaimed, if and only if the flag was not set (`AtMostOneInFlightIff`).
* A provider run that returns `pending` leaves the slot `unknown` without a hash if and only if none
  was stored before (`EndsStuckIff`; a run from the empty state is `PendingLeavesStuckSlot`). That
  slot is never broadcast and stops all others, like a blocked one (`StuckSlotStopsEverything`).
* A stop between storing the hash and sending, or a refusal because the operation is taken, leaves a
  slot whose transaction does not exist (`StopLeavesUnsentSlot`, `RefusalLeavesUnsentSlot`). It is
  never sent again and changes if and only if the worker finds a receipt for it
  (`UnsentSlotMovesIff`); with receipts of real broadcasts only, it stops all others for good
  (`UnsentSlotStopsEverything`).
* The record schema forbids an approval outside `submitted` and `completed`. So
  `transitionErc8183Job` and `approveErc8183Result` can only complete an approved job
  (`ApprovedStaysOrCompletes`). Past its expiry they complete it if and only if the client asks for
  that with `create`, and leave it submitted otherwise (`ApprovedPastExpiryIff`, failing input
  `CreateAfterExpiry`). Besides, the settlement of external sellers
  (`apps/web/src/lib/external-seller-lifecycle.ts:71`) writes a terminal state read from the chain,
  without the approval if that is not `completed`.
* The expiry guard does not list `create`. So at or after its expiry a job changes its state if and
  only if the client refunds it or asks with `create` for any allowed state that the provider and
  approval rules admit (`ChangesAfterExpiry`); only without `create` is expiry all that is left
  (`AfterExpiry`).
* The action `create` has no guard of its own and completes unapproved jobs (`UnapprovedCompletion`).
* The task text is bound only up to `sanitize` (`TaskBoundUpToSanitize`, `SanitizeConfuses`).
* `current.json` can lag behind a release that is live for good: exactly when the promotion goes well
  up to the unlink of the journal, which takes effect, and then either that step itself raises or
  stops, or the write of the new name has no effect (`Deploy`; both causes occur in `CurrentCanLag`).

## Model

| member | source | states |
|---|---|---|
| Ledger.RowFollows | packages/agent-commerce/src/operations.ts:372-549 | in any interleaving a row stays in the table and its fate is its own thread of statements |
| Ledger.HashSeals | packages/agent-commerce/src/operations.ts:372-549 | after a hash is stored no run clears it, returns the row to `awaiting_signature`, or grants or hands back a dispatch |
| Ledger.AtMostOneInFlight | packages/agent-commerce/src/operations.ts:424-469 | browser claims plus worker updates minus releases is 0 or 1 in every run, and 0 whenever the row waits for a signature |
| Ledger.ClaimsConserved | packages/agent-commerce/src/operations.ts:424-469 | granted claims minus releases equals the change of the stored claim flag over every run |
| Ledger.ContextlessClaimLost | packages/agent-commerce/src/operations.ts:199-208 | a row reserved with a null context stores a claim that nobody is granted and can no longer be read |
| Ledger.SuppliedFlagReleased | packages/agent-commerce/src/operations.ts:450-469 | a claim flag supplied at reservation can be released without a claim |
| Ledger.ClaimsConservedIff | packages/agent-commerce/src/operations.ts:424-469 | over all runs the stored claim flag is granted claims minus releases if and only if the row was reserved with a context |
| Ledger.AtMostOneInFlightIff | packages/agent-commerce/src/operations.ts:424-469 | over all runs the dispatches in flight are 0 or 1 if and only if the row was reserved without the claim flag |
| Ledger.IdentityKept | packages/agent-commerce/src/operations.ts:316-333 | no run changes a field that a replay compares, except that a job id or calls id may arrive once |
| Ledger.FinalStatuses | packages/agent-commerce/src/operations.ts:471-549 | `reverted` and `reconciled` are final for status, hash and block |
| Ledger.HashIsLastReceipt | packages/agent-commerce/src/operations.ts:487-491 | the stored hash after any run is that of the last receipt recorded, or else unchanged |
| Ledger.ReplayAfterRun | packages/agent-commerce/src/operations.ts:299-333 | after any run a request replays if and only if it repeats every bound field, names the stored job, and the row is readable |
| Ledger.OriginalReplays | packages/agent-commerce/src/operations.ts:299-314 | the original request replays if and only if it is a `create`, named its job, or no job id has been attached |
| Ledger.KeysStayUnique | packages/agent-commerce/src/operations.ts:355-366 | two rows never share an idempotency key |
| Ledger.OneReservationPerKey | packages/agent-commerce/src/operations.ts:345-370 | of all callers racing for a key exactly one is accepted, none if the key stays free |
| OperationRepository.Repository.Reserve | packages/agent-commerce/src/operations.ts:345-370 | inserts the whole new row once; with the key taken it changes nothing and succeeds exactly for a readable row that the request repeats |
| OperationRepository.Repository.MarkSubmitted | packages/agent-commerce/src/operations.ts:372-388 | accepts exactly a row that awaits its signature or is `unknown` without another hash, and stores the hash; repeats on `submitted` with this hash; the exact error otherwise |
| OperationRepository.Repository.AttachJobId | packages/agent-commerce/src/operations.ts:390-403 | fills an absent job id and nothing else; succeeds exactly when the readable row had none or this one |
| OperationRepository.Repository.AttachCallsId | packages/agent-commerce/src/operations.ts:405-422 | fills an absent calls id and nothing else; succeeds exactly when the row names a signer and had none or this one |
| OperationRepository.Repository.ClaimExternalDispatch | packages/agent-commerce/src/operations.ts:424-448 | tells its caller to dispatch exactly for an unclaimed row that awaits its signature, has no hash and names a signer; the row is then `unknown` with the in-flight code |
| OperationRepository.Repository.ReleaseExternalDispatch | packages/agent-commerce/src/operations.ts:450-469 | takes back exactly a claimed `unknown` row without a hash and with the in-flight code; the row then awaits its signature again |
| OperationRepository.Repository.MarkReceipt | packages/agent-commerce/src/operations.ts:471-496 | stores outcome, hash, block and code exactly on `submitted`, `unknown` and `manual_review`; repeats on the same outcome, hash and block hash; the exact error otherwise |
| OperationRepository.Repository.MarkUnknown | packages/agent-commerce/src/operations.ts:498-510 | exactly on `awaiting_signature` and `submitted`; repeats on `unknown` |
| OperationRepository.Repository.MarkFailed | packages/agent-commerce/src/operations.ts:512-523 | never fails a row that has a hash; exactly on `awaiting_signature`, `submitted` and `unknown`; repeats on `reverted` |
| OperationRepository.Repository.Reconcile | packages/agent-commerce/src/operations.ts:525-536 | exactly on `unknown`, `manual_review` and `confirmed`, where only status and time change; repeats on `reconciled` |
| OperationRepository.Repository.MarkManualReview | packages/agent-commerce/src/operations.ts:538-549 | exactly on `awaiting_signature`, `submitted`, `unknown` and `confirmed`; repeats on `manual_review` |
| OperationRepository.OrdinaryHire | packages/agent-commerce/src/service.ts:330-346 | reservation, claim, submission, confirmed receipt, job id and reconciliation, one after the other, all succeed and leave the whole `reconciled` row stated |
| ReferenceSafety.StepKeepsInv | scripts/t5-reference-service.ts:65-130 | every step of admission, worker, other ledger users and crashes keeps the invariant of slots, worker, ledger and broadcasts |
| ReferenceGuarantees.BroadcastOncePerSlot | scripts/t5-reference-service.ts:75-99 | in every run a slot and a job are broadcast at most once, and the slot row held the transaction's hash at the send and keeps it |
| ReferenceGuarantees.LedgerHoldsHashAtSend | scripts/t5-reference-service.ts:83-90 | while no receipt replaces a stored hash, the ledger row holds the transaction's hash at every send |
| ReferenceGuarantees.EvidenceIffLastReceipt | scripts/t5-reference-service.ts:83-90 | between the update and the send, the ledger row keeps the hash if and only if the last receipt recorded on it carries that hash |
| ReferenceGuarantees.ForeignReceiptBreaksEvidence | packages/agent-commerce/src/operations.ts:487-491 | one receipt with another hash is enough to break it |
| ReferenceGuarantees.UnsentSlotStopsEverything | scripts/t5-reference-service.ts:105-114 | while receipts found are those of broadcasts, a slot `unknown` with a hash never sent, met by an idle worker, stops every later claim and broadcast |
| ReferenceGuarantees.UnsentSlotMovesIff | scripts/t5-reference-service.ts:110-114 | one step changes such a slot if and only if a receipt is found for it whose fee fits the reservation |
| ReferenceWitness.BookingExists | packages/agent-commerce/src/operations.ts:345-370 | there is a reserved operation for a submission of the bounded deployment, so the runs below exist |
| ReferenceWitness.StopLeavesUnsentSlot | scripts/t5-reference-service.ts:82-90 | a run from the empty service that stops after both rows hold the hash: nothing is ever sent for it |
| ReferenceWitness.RefusalLeavesUnsentSlot | scripts/t5-reference-service.ts:82-86 | a run in which the operation is taken before the update: the slot keeps a hash that is never sent |
| ReferenceWitness.ForeignReceiptRun | packages/agent-commerce/src/operations.ts:487-491 | a run from the empty service that sends while the ledger row holds another hash |
| ReferenceWitness.UndisturbedRun | scripts/t5-reference-service.ts:65-130 | a run from the empty service, for any booked job and hash, that sends once with the hash in both rows, pays the recorded fee and reconciles the slot |
| ReferenceWitness.EndsStuckIff | scripts/t5-reference-service.ts:116-119 | which results leave the slot stuck: review and reverted always, `pending` exactly without a hash |
| ReferenceWitness.PendingLeavesStuckSlot | scripts/t5-reference-service.ts:116-119 | a run from the empty service after which the slot is `unknown` without a hash and nothing is ever sent |
| ReferenceGuarantees.FeesWithinBudget | packages/agent-commerce/src/reference-admission.ts:18-19 | each broadcast costs at most one reservation, and all fees ever paid at most 100000000000000 for each of at most three slots |
| ReferenceGuarantees.SlotsNumberedNeverRecycled | packages/agent-commerce/src/reference-admission.ts:40-51 | slots are 1 to k with k at most 3, one per job, and later in a run keep their job and hash |
| ReferenceGuarantees.AtMostOneActiveSlot | scripts/t5-reference-service.ts:105-130 | at every moment at most one slot is outside `reserved` and `reconciled` |
| ReferenceGuarantees.StuckSlotStopsEverything | scripts/t5-reference-service.ts:48-49 | a blocked, signing or hashless unknown slot met by an idle worker stops every later claim and broadcast |
| ReferenceService.AdmissionRun | packages/agent-commerce/src/reference-admission.ts:40-51 | a whole admission transaction is the four steps of the state machine, with one outcome |
| ReferenceService.Service.Reserve | packages/agent-commerce/src/reference-admission.ts:40-51 | the next number exactly when the allowance row matches, is enabled, healthy and at most 20 seconds old, fewer than three slots exist and the job is new; each refusal under its exact condition |
| ReferenceService.Service.HoldSlot | scripts/t5-reference-service.ts:77-78 | the claimed row without a hash becomes `signing`; tells whether it was |
| ReferenceService.Service.RecordInSlot | scripts/t5-reference-service.ts:82 | hash, nonce and `unknown` on the signing row of the job |
| ReferenceService.Service.RecordInLedger | scripts/t5-reference-service.ts:85-86 | exactly the unsigned submissions of this job on the bounded deployment get the hash, `unknown` and the in-flight code; the worker goes on only if it was one row |
| ReferenceService.Service.RecordReceiptOf | scripts/t5-reference-service.ts:101-103 | state and spent gas on the row with that hash, refused beyond its reservation |
| ReferenceService.Service.BoundedSubmit | scripts/t5-reference-service.ts:65-99 | at most one broadcast, none unless the slot is claimed without a hash; the answer is fixed by the checks, whose limits are stated, the slot, the number of matching ledger rows and the network; the row and the broadcast that each answer leaves are stated |
| ReferenceService.Service.RunSlot | scripts/t5-reference-service.ts:116-119 | the first submission that passes the checks, and no other, can hold the row and send; then the row that each result leaves: blocked after review or revert, unknown after `pending`, reconciled after a success with a hash, else unchanged |
| ReferenceService.Service.ClaimNext | scripts/t5-reference-service.ts:122-129 | claims the lowest funded reserved slot, only when every slot is `reserved` or `reconciled`; refuses exactly on a failed check or an uncertain slot |
| ReferenceService.Service.Tick | scripts/t5-reference-service.ts:105-130 | one tick sends at most one transaction, for the first pending slot and only if it had no hash, never both sends and claims; every other slot keeps its row, and the row of the selected one is stated for each way the tick ends |
| ReferenceService.Service.Work | scripts/t5-reference-service.ts:108-120 | what happens to the selected slot in every outcome: nothing without a receipt or beyond the reservation, blocked after a revert, and after the runner what its result says |
| ReferenceService.Service.EndStates | scripts/t5-reference-service.ts:116-119 | the state after each result: review and revert leave `blocked`, `pending` leaves `unknown`, a success leaves `reconciled` if and only if the row has a hash, and changes nothing without one |
| JsonValues.KeyTotal | packages/agent-commerce/src/external-seller.ts:63-64 | the order of object keys is total: index-like keys by number, then the rest by code unit |
| JsonValues.PropertyOrderSorts | packages/agent-commerce/src/external-seller.ts:63-64 | sorting and rebuilding an object keeps its members and puts them in that order |
| JsonValues.CanonicalIffSame | packages/agent-commerce/src/external-seller.ts:62-65 | canonical forms are equal if and only if the values are equal up to key order at every depth |
| JsonValues.CodeUnitOrderIff | packages/agent-commerce/src/external-seller.ts:61-64 | the key order is the order by code unit if and only if index-like keys sort alike as text and as numbers |
| JsonValues.TextOrderCounterexample | packages/agent-commerce/src/external-seller.ts:61-64 | the keys 2 and 10 come out in an order that text order forbids |
| JsonCodePoints.CodePointOrder | packages/agent-commerce/src/external-seller.ts:61-64 | two strings compare alike by code unit and by code point unless they cross at a surrogate pair |
| JsonCodePoints.CodePointOrderIff | packages/agent-commerce/src/external-seller.ts:61-64 | the key order is the order by code point if and only if index-like keys sort as text and no two keys cross |
| JsonCodePoints.SurrogateCounterexample | packages/agent-commerce/src/external-seller.ts:61-64 | the keys U+E000 and U+10000 come out in the order that code points forbid |
| JsonText.EscapePassPerString | packages/agent-commerce/src/external-seller.ts:65 | one escape pass over the finished text equals escaping each string on its own, lone surrogates included |
| JsonText.CanonicalTextIsAscii | packages/agent-commerce/src/external-seller.ts:65 | canonical text only has code units 0x20 to 0x7e |
| JsonReference.TextIsReference | packages/agent-commerce/src/external-seller.ts:62-66 | every canonical text is, character by character, what a printer writes that spells every token, escape and digit out and puts no white space in between |
| JsonReference.EscapesDenote | packages/agent-commerce/src/external-seller.ts:65 | a code unit from 0x7f on, or a control code without a short form, is written as a backslash, `u` and four digits 0-9 or a-f that denote it |
| JsonReference.IndexKeys | packages/agent-commerce/src/external-seller.ts:63-64 | which keys count as indices: 0 to 4294967294 without leading zeros |
| JsonReference.KeyOrder | packages/agent-commerce/src/external-seller.ts:63-64 | indices by number come first, then the others by the first code unit in which they differ |
| JsonExample.WholeText | packages/agent-commerce/src/external-seller.ts:62-66 | one whole text, as a literal, with every kind of key, value and escape |
| JsonNumbers.NumberTextIff | packages/agent-commerce/src/external-seller.ts:161 | the number texts are exactly those of the grammar in section 6 of RFC 8259 |
| JsonParser.CanonicalRoundTrip | packages/agent-commerce/src/external-seller.ts:62-66 | parsing canonical text gives the canonical form of the value, which is the value up to key order |
| JsonParser.CanonicalTextIffSame | packages/agent-commerce/src/external-seller.ts:62-66 | texts are equal if and only if the values are equal up to key order |
| JsonParser.SpaceIgnored | packages/agent-commerce/src/external-seller.ts:161 | texts that the printer does not write: the four white space characters before a value or a member are ignored |
| JsonParser.LastValueWins | packages/agent-commerce/src/external-seller.ts:161 | a repeated key counts once, with its last value |
| SellerQuoteProofs.DescriptionParses | packages/agent-commerce/src/external-seller.ts:122-163 | the signed description parses to the signed content plus hash and signature |
| SellerQuoteProofs.ContentRecovered | packages/agent-commerce/src/external-seller.ts:162-164 | taking the hash and signature out of the parsed description leaves the canonical content that was signed |
| SellerQuoteProofs.NegotiatedQuoteAccepted | packages/agent-commerce/src/external-seller.ts:98-165 | an offer from `negotiate` passes `assertQuote` under the same binding if and only if the binding's namespace is trimmed |
| SellerQuoteProofs.SpacedNamespaceRefused | packages/agent-commerce/src/external-seller.ts:124-161 | a space before any namespace turns a negotiation that succeeds into an offer that is refused |
| SellerDemands.NegotiateIff | packages/agent-commerce/src/external-seller.ts:98-130 | a negotiation succeeds if and only if the task and the reply are well formed, work, deployment and price are as agreed, issue and expiry lie in their two-sided limits, all three hashes match, and signer, named wallet, registry and size are right |
| SellerDemands.NegotiatedQuote | packages/agent-commerce/src/external-seller.ts:122-130 | every field of the quote that is stored, and that its dates are within the limits |
| SellerDemands.RefusedAs | packages/agent-commerce/src/external-seller.ts:99-120 | which demand a refusal names: the first that is not met |
| SellerDemands.ResponseMembers | packages/agent-commerce/src/external-seller.ts:112-113 | the members of the response that is hashed |
| SellerDemands.SignedMembers | packages/agent-commerce/src/external-seller.ts:114-122 | the members of the content that is signed and of the signature |
| SellerDemands.QuoteAcceptedIff | packages/agent-commerce/src/external-seller.ts:159-165 | `assertQuote` accepts exactly the well-formed quotes of this binding whose description has the right digest, is signed by the provider, and states every term of the quote |
| SellerWitness.OfferExists | packages/agent-commerce/src/external-seller.ts:98-165 | one reply that is negotiated and accepted, and, with a space before the namespace, negotiated and refused |
| SellerWitness.ResultExists | packages/agent-commerce/src/external-seller.ts:167-202 | one manifest that is accepted as the result of the job made from that offer |
| SellerQuoteProofs.DescriptionBindsQuote | packages/agent-commerce/src/external-seller.ts:159-165 | two accepted offers with one signed description agree on every signed term |
| SellerQuoteProofs.TaskBoundUpToSanitize | packages/agent-commerce/src/external-seller.ts:159-165 | replacing the task is accepted if and only if the sanitized texts agree |
| SellerQuoteProofs.SanitizeConfuses | packages/agent-commerce/src/external-seller.ts:60 | two different tasks have one sanitized form |
| SellerQuoteProofs.SanitizeClean | packages/agent-commerce/src/external-seller.ts:60 | sanitized text has no square brackets or control codes but tab and line ends, and sanitizing is idempotent |
| SellerResult.JobBindsQuote | packages/agent-commerce/src/external-seller.ts:167-174 | one chain job accepts one offer: price, dates, deployment, seller and sanitized work agree, and the price is the budget |
| SellerResult.NegotiatedJobAccepted | packages/agent-commerce/src/external-seller.ts:98-174 | a negotiated offer put on the chain with its description and price passes `assertJob` in every allowed state |
| SellerResult.OneResultPerDigest | packages/agent-commerce/src/external-seller.ts:178-202 | two accepted results of a job are equal up to key order unless their texts collide under the hash, whatever their wrapping |
| SellerResult.ProjectionRestored | packages/agent-commerce/src/external-seller.ts:188-197 | an answer that moved the deployment fields out is restored to the committed manifest with the same canonical text |
| SellerDemands.JobAcceptedIff | packages/agent-commerce/src/external-seller.ts:167-174 | `assertJob` accepts exactly the reads with this id, deployment, client, provider, token, price, description and an allowed state |
| SellerDemands.DocumentCases | packages/agent-commerce/src/external-seller.ts:184-197 | what an answer stands for: unsuccessful, as it is, of another submission, or completed by the deployment fields |
| SellerDemands.ResultIff | packages/agent-commerce/src/external-seller.ts:178-202 | a result is returned if and only if the job is accepted in one of three states and has a digest, and the answer stands for a safe manifest of this job and deployment with that digest |
| Lifecycle.OneCall | packages/agent-commerce/src/lifecycle.ts:65-258 | any call keeps the record valid, moves along the graph, and keeps terms after funding and the approval with its deliverable |
| Lifecycle.OneChange | packages/agent-commerce/src/lifecycle.ts:31-131 | which action, actor and time each guarded state change needs |
| Lifecycle.EightMoves | packages/agent-commerce/src/lifecycle.ts:14-25 | the whole transition graph |
| Lifecycle.TransitionIff | packages/agent-commerce/src/lifecycle.ts:65-258 | a transition succeeds if and only if pin, clock, states, actor, expiry, approval and metadata are in order |
| Lifecycle.RefusedAs | packages/agent-commerce/src/lifecycle.ts:65-135 | which error the guard raises: that of the first condition that is wrong |
| Lifecycle.TransitionLeaves | packages/agent-commerce/src/lifecycle.ts:186-258 | the record it leaves: state, times, the new provider or budget, the deliverable and the evidence, and all the rest as it was |
| Lifecycle.ApproveIff | packages/agent-commerce/src/lifecycle.ts:138-173 | who can approve what and when, the record it leaves, and the error otherwise |
| Lifecycle.CompletedJobs | packages/agent-commerce/src/lifecycle.ts:95-134 | every completed job of guarded runs was funded on the way, has the client's approval of the stored deliverable, a provider, and the terms of every moment it was funded |
| Lifecycle.UnapprovedCompletion | packages/agent-commerce/src/lifecycle.ts:102-127 | an unapproved submitted job is completed if and only if the client asks with `create` |
| Lifecycle.AtMostThreeChanges | packages/agent-commerce/src/lifecycle.ts:14-25 | at most three state changes in any run, none after a terminal state |
| Lifecycle.AfterExpiry | packages/agent-commerce/src/lifecycle.ts:95-131 | for guarded calls, those without `create`, at or after expiry only funded or submitted to expired is left |
| Lifecycle.ChangesAfterExpiry | packages/agent-commerce/src/lifecycle.ts:81-131 | exactly which calls change the state at or after expiry: the client's refund, and the client's `create` |
| Lifecycle.BeforeExpiry | packages/agent-commerce/src/lifecycle.ts:129-131 | no job expires before its expiry |
| Lifecycle.ExpiryDividesRun | packages/agent-commerce/src/lifecycle.ts:60-131 | with a non-decreasing clock a guarded run has a moment after which only expiry can change the state |
| Lifecycle.ApprovedStaysOrCompletes | packages/agent-commerce/src/types.ts:189-199 | an approved job keeps approval, deliverable and terms, and can only complete |
| Lifecycle.ApprovedPastExpiryIsStuck | packages/agent-commerce/src/types.ts:189-199 | guarded calls leave an approved job not completed before its expiry submitted |
| Lifecycle.ApprovedPastExpiryIff | packages/agent-commerce/src/lifecycle.ts:81-131 | any calls after expiry complete it if and only if one of them is the client's `create` for `completed` with metadata in order |
| Lifecycle.CreateAfterExpiry | packages/agent-commerce/src/lifecycle.ts:95-127 | an approved job with expiry 100 that `create` completes at time 200 and `complete` does not |
| Lifecycle.ReconcileReplacesDeliverable | packages/agent-commerce/src/lifecycle.ts:84-95 | a reconciliation replaces the deliverable of a submitted job if and only if no approval of another one stands |
| Lifecycle.ApprovalIdempotent | packages/agent-commerce/src/lifecycle.ts:138-173 | approving twice is approving once, and nothing else can be approved afterwards |
| Receipts.AcceptedIffReachable | packages/agent-commerce/src/chain.ts:675-691 | for every expected state but OPEN a read is accepted if and only if the lifecycle graph reaches it |
| Receipts.OpenIsExact | packages/agent-commerce/src/chain.ts:675-691 | OPEN is accepted only as itself, although it reaches every state |
| Receipts.LaterReadAccepted | packages/agent-commerce/src/chain.ts:675-691 | a step once confirmed is still accepted after any further calls on the job |
| Receipts.EventFromReceipt | packages/agent-commerce/src/chain.ts:587-604 | the first log of the contract, transaction and block that decodes to the event, or none |
| Receipts.OnlyPertinentLogsCount | packages/agent-commerce/src/chain.ts:587-604 | receipts that agree on the contract's own logs yield the same event; only a positional index can differ |
| Receipts.InsertionHarmless | packages/agent-commerce/src/chain.ts:587-604 | foreign logs inserted anywhere leave the event found unchanged |
| Receipts.FundVerifiedIff | packages/agent-commerce/src/chain.ts:1306-1419 | a funding is verified if and only if the call, the receipt, the first pinned event and the job read carry the exact terms in a funded-or-later state |
| Receipts.FundRefusals | packages/agent-commerce/src/chain.ts:1306-1419 | which failure: unknown without the transaction or its receipt, reverted, an invalid address, and a mismatch otherwise |
| Receipts.ForeignLogsCannotChangeVerdict | packages/agent-commerce/src/chain.ts:1381-1388 | inserted foreign logs change neither verdict nor event |
| HistoryScan.SortedSample | scripts/marketplace-mainnet-provider-history.ts:51 | push, sort and cut keep the twenty highest ids in descending order |
| HistoryScan.History.Record | scripts/marketplace-mainnet-provider-history.ts:51 | one result keeps counts, samples and failures exact for the ids read so far |
| HistoryScan.History.ReadBatch | scripts/marketplace-mainnet-provider-history.ts:48-51 | a batch reads each of its ids once and keeps the tallies exact |
| HistoryScan.History.Scan | scripts/marketplace-mainnet-provider-history.ts:28-57 | exact refusals; every written file rests on one read of each covered id; a run that is not interrupted ends at its floor |
| HistoryScan.InterruptionsDoNotMatter | scripts/marketplace-mainnet-provider-history.ts:41-57 | with stable reads a file is determined by its range, however often the scan was interrupted, resumed or refreshed |
| HistoryScan.ScanRepeatedly | scripts/marketplace-mainnet-provider-history.ts:28-57 | over one stable chain any sequence of fresh, resumed, refreshed, refused or interrupted runs leaves a file that rests on that chain |
| HistoryScan.AgreesWithOneScan | scripts/marketplace-mainnet-provider-history.ts:28-57 | what such a sequence leaves at its floor is the file of one uninterrupted scan |
| HistoryScan.SamplesAreHighest | scripts/marketplace-mainnet-provider-history.ts:34-52 | the coverage equation; counts are the numbers of jobs with status 2 or 3, samples the up to twenty highest, descending |
| ServiceRefresh.StepInv | scripts/marketplace-service-refresh.ts:19-36 | every stretch between awaits keeps the invariant of rows, cache, results and counts |
| ServiceRefresh.EachRowTakenOnce | scripts/marketplace-service-refresh.ts:21-22 | for any workers and schedule a row below the index was taken by exactly one worker |
| ServiceRefresh.EachKeyVerifiedOnce | scripts/marketplace-service-refresh.ts:25-26 | each distinct service is verified at most once and its answer kept |
| ServiceRefresh.CountsSumToProcessed | scripts/marketplace-service-refresh.ts:27-28 | the counts are one status for each service processed and none else |
| ServiceRefresh.RefreshSequentially | scripts/marketplace-service-refresh.ts:21-35 | the row by row loop without cache, proved against its log |
| ServiceRefresh.AgreesWithSequential | scripts/marketplace-service-refresh.ts:19-37 | when all workers finish, results and counts are those of the sequential loop |
| ServiceRefresh.SomeRunFinishes | scripts/marketplace-service-refresh.ts:19-37 | for every directory that parses and all answers there is a run in which the pool finishes |
| ServiceRefreshPool.Refresh.TakeRow | scripts/marketplace-service-refresh.ts:22 | the next row goes to this worker, which fails if the row does not parse |
| ServiceRefreshPool.Refresh.AwaitNext | scripts/marketplace-service-refresh.ts:25-26 | a verification starts exactly when the lower-case name, address and version have no promise yet |
| ServiceRefreshPool.Refresh.CountResult | scripts/marketplace-service-refresh.ts:27-28 | adds the outcome to the results and its protocol and status to the counts, or fails with the promise |
| ServiceRefreshPool.Refresh.StoreRow | scripts/marketplace-service-refresh.ts:30-34 | stores the finished row; `completed` is the number of rows stored |
| Promotion.Host.Restore | deploy/origin/deploy.py:61-67 | when it ends well the service runs exactly the given drop-in |
| Promotion.Host.Promote | deploy/origin/deploy.py:94-107 | however it ends, the journal names the former drop-in, or there is none and the drop-in is the former or the verified new one; it succeeds exactly when its six steps do; and it rolls back, with the former drop-in written, loaded and running and no journal, exactly when a guarded step raises first and the way back goes well |
| Promotion.Host.Recover | deploy/origin/deploy.py:115-118 | the journal is gone only when exactly the drop-in it names is back and running |
| Promotion.Host.Prune | deploy/origin/deploy.py:184-193 | keeps the live, the previously recorded and the three newest releases, and when it ends well nothing else |
| Promotion.Host.Deploy | deploy/origin/deploy.py:110-193 | in every outcome the state is valid again; the current file only changes to a verified live release, and lags behind one exactly under the stated failures; a failed promotion is rolled back under the schedule of `Promote`, after a recovery too; earlier failures leave the service as it was; when it ends well that release runs and all but the kept ones are gone |
| Promotion.Host.Serve | deploy/origin/deploy.py:110-193 | over any number of deployments, crashed or not, there is a good drop-in to go back to and its release is on disk |
| Promotion.CurrentCanLag | deploy/origin/deploy.py:181-182 | both causes of the lag occur: an unlink that takes effect and fails, and a stop before the new name is recorded |
| Delivery.Store.Claim | packages/agent-commerce/src/external-delivery.ts:13-20 | inserts once and returns the row only for the same immutable terms |
| Delivery.Store.FinishClaim | packages/agent-commerce/src/external-delivery.ts:21-25 | changes only a claimed row of these terms |
| Delivery.Store.NotifyOnce | packages/agent-commerce/src/external-delivery.ts:30-43 | posts exactly when this call made the claim; later calls replay the row |
| Delivery.NotifiedAtMostOnce | packages/agent-commerce/src/external-delivery.ts:13-43 | over any interleaving, lost reply and crash the seller is notified at most once per job, with the stored terms |
| Delivery.ClaimsImmutable | packages/agent-commerce/src/external-delivery.ts:13-25 | a stored claim never changes its binding; `notified` never becomes `unknown` |
| Delivery.AbandonedClaimNeverSent | packages/agent-commerce/src/external-delivery.ts:28-33 | once the call that made the claim can no longer send, nothing is sent for that job |
| Delivery.FirstCallNotifies | packages/agent-commerce/src/external-delivery.ts:30-43 | from any state, a first call that nobody disturbs sends once and leaves `notified` |
| Delivery.LostAnswerIsUnknown | packages/agent-commerce/src/external-delivery.ts:30-43 | one whose answer is lost leaves `unknown` |
| Delivery.LaterCallReplays | packages/agent-commerce/src/external-delivery.ts:30-43 | a later call changes no row and sends nothing |
| Delivery.RefreshVerifies | apps/web/src/lib/external-seller-lifecycle.ts:121 | a refresh with the same terms ends in `result_verified` |

## Left out

- SQL, PostgreSQL and advisory locks: a statement is one atomic step, a lock is mutual exclusion, a table is a map.
- Input syntax of the ledger (digest, address and job id checks, redaction of failure codes) and the listing queries of the repository.
- `reserve`: the parameters and the expectation of a context are compared by one digest each.
- The re-read after an update that matched nothing happens in the same step as the update.
- The update by job compares the contract address exactly; the letter case of stored addresses is not modelled.
- ReferenceGuarantees.FeesWithinBudget: takes the legacy gas price as the effective one and gas used as within the gas limit, as the chain guarantees.
- The provider runner, the health checks on balance, identity, listing and probes, and the heartbeat: their outcome is arbitrary, except that a failed submission is never reported as success.
- ReferenceService.Service.Reserve: takes the reason stored in an unhealthy allowance row not to be `READY`, which the code would let through and the heartbeat does not store.
- The quote fields that `reserveReferenceCapacity` compares with the fixed allowance: equality checks without state.
- JsonParser.CanonicalRoundTrip: holds for numbers JavaScript prints back unchanged, as in every parsed value; negative zero and numbers beyond the range of a double are not values of the model.
- The transport, URL checks, the payload filter and the acknowledgement check of the seller adapter: their outcome is a parameter or part of the POST.
- Lifecycle.CompletedJobs: is about `transitionErc8183Job` and `approveErc8183Result`; the settlement of external sellers, which writes a terminal state read from the chain with its own checks, is not part of this model.
- Schema details of dates, UUIDs, event payloads and block fields of a job record; addresses and digests in `Lifecycle.dfy` are the numbers they denote.
- `verifyReceiptForOperation` and the other steps of `verifyEoaReceipt`: the same event lookup followed by independent equality checks.
- The text of decimal amounts in a funding check; budgets are compared as numbers.
- HistoryScan.History.Scan: leaves out the wallet multicalls, agent ids, the observation block of a sample and the order of the provider list; a file that passes the coverage check is taken to be one the program wrote.
- ServiceRefresh.AgreesWithSequential: takes the verdict to depend on the lower-case key alone; status counts are a multiset; timestamps and payload digests are not modelled.
- Promotion.Host.Deploy: the GitHub, build, readiness and candidate steps are single steps that may fail; a health check cannot pass for a build that is not running; durability of a rename against power loss is not modelled.
- Delivery.Store.NotifyOnce: the checks before the claim and the digest of the response are not modelled; the cursor of the receipt search is not either.
- `verifyPinnedDeployment`, `eoa.ts`, `api.ts`, the web application, and the ingestion, embedding, audit and readiness scripts.
