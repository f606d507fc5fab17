/**
 The ERC-8183 job record: which transitions are allowed, who may ask for them, and the
 buyer's approval.  Functions from a record to a new one; a refused call changes nothing.
 */
module Lifecycle {
  import opened Wrappers

  datatype State = Open | Funded | Submitted | Completed | Rejected | Expired

  datatype Action = Create | SetProvider | SetBudget | Fund | Submit | Complete | Reject | ClaimRefund | Reconcile

  /** An address as the number it denotes; 0 is the zero address and any text that is not an address. */
  type Address = nat

  /** A 32-byte digest or hash as the number it denotes. */
  type Digest = nat

  type Time = int

  datatype Field = Absent | Malformed | Given(value: nat)

  datatype Error =
    | SchemaError | OnchainMismatch | InvalidChain | InvalidContract | InvalidToken | InvalidAmount
    | InvalidExpiry | IllegalTransition | UnauthorizedActor | InvalidAddress | ReconciliationRequired | InvalidJob
    | IdempotencyConflict | InvalidEvent

  datatype Pin = Pin(
    chainId: int, contract: Address, token: Address, decimals: nat, minBudget: nat, maxBudget: nat, rest: string)

  datatype Terms = Terms(
    chainId: int, contract: Address, token: Address, decimals: nat, client: Address, provider: Option<Address>,
    evaluator: Address, budget: nat, expiresAt: Time)

  datatype Approval = Approval(buyer: Address, digest: Digest, approvedAt: Time)

  datatype Job = Job(
    keyChainId: int, keyContract: Address, terms: Terms, pin: Pin, pinDigest: Digest, state: State,
    updatedAt: Time, deliverable: Option<Digest>, bindingChainId: Option<int>, approval: Option<Approval>,
    fundingHash: Option<Digest>, submissionHash: Option<Digest>, completionHash: Option<Digest>,
    rejectionHash: Option<Digest>, refundHash: Option<Digest>, observedAt: Option<Time>)

  /** The digest of a deployment pin is a parameter: nothing below depends on how it is computed. */
  type PinDigest = Pin -> Digest

  const MAX_SAFE_INTEGER: int := 9007199254740991
  const UINT256_MAX: nat := 0x1_0000000000000000_0000000000000000_0000000000000000_0000000000000000 - 1
  const TESTNET_MAX_BUDGET: nat := 10000000000000000

  /// The transition graph

  predicate Allowed(from: State, to: State) {
    match from
    case Open => to == Funded || to == Rejected
    case Funded => to == Submitted || to == Rejected || to == Expired
    case Submitted => to == Completed || to == Rejected || to == Expired
    case _ => false
  }

  predicate CanTransition(from: State, to: State) {
    from == to || Allowed(from, to)
  }

  /** How many state changes are still possible. */
  function Remaining(s: State): nat {
    match s
    case Open => 3
    case Funded => 2
    case Submitted => 1
    case _ => 0
  }

  /// The record schema

  predicate IsTimestamp(t: Time) {
    0 < t <= MAX_SAFE_INTEGER
  }

  predicate TermsParse(t: Terms) {
    t.client != 0 && t.provider != Some(0) && t.evaluator != 0 && t.contract != 0 && t.token != 0 &&
    IsTimestamp(t.expiresAt)
  }

  /** An approval stands only on a submitted or completed job, from its client, for its deliverable. */
  predicate ApprovalParses(job: Job) {
    job.approval.Some? ==>
      && (job.state == Submitted || job.state == Completed)
      && job.approval.value.buyer == job.terms.client
      && job.deliverable == Some(job.approval.value.digest)
      && IsTimestamp(job.approval.value.approvedAt)
  }

  predicate Parses(digest: PinDigest, job: Job) {
    && TermsParse(job.terms) && ApprovalParses(job)
    && job.keyChainId == job.terms.chainId && job.keyContract == job.terms.contract
    && digest(job.pin) == job.pinDigest
    && IsTimestamp(job.updatedAt)
    && (job.bindingChainId.Some? ==> job.bindingChainId.value == job.terms.chainId)
    && (job.observedAt.Some? ==> IsTimestamp(job.observedAt.value))
  }

  /// Guards

  function CheckPin(digest: PinDigest, job: Job, pin: Pin): Option<Error> {
    var migrated := job.pin.chainId == 56 && pin.chainId == 56 && job.pin.maxBudget == TESTNET_MAX_BUDGET &&
                    pin.maxBudget == UINT256_MAX - 1 &&
                    digest(job.pin.(maxBudget := pin.maxBudget)) == digest(pin);
    if digest(job.pin) != job.pinDigest || (digest(pin) != job.pinDigest && !migrated) then Some(OnchainMismatch)
    else if job.terms.chainId != pin.chainId then Some(InvalidChain)
    else if job.terms.contract != pin.contract then Some(InvalidContract)
    else if job.terms.token != pin.token || job.terms.decimals != pin.decimals then Some(InvalidToken)
    else CheckBudget(job.terms.budget, pin)
  }

  function CheckBudget(budget: nat, pin: Pin): Option<Error> {
    if budget < pin.minBudget || budget > pin.maxBudget || budget >= UINT256_MAX ||
       (pin.chainId == 97 && budget > TESTNET_MAX_BUDGET)
    then Some(InvalidAmount) else None
  }

  /** The first trusted reconciler equal to the actor; a candidate that is no address stops the search. */
  function CheckReconciler(actor: Address, trusted: seq<Address>): Option<Error> {
    if trusted == [] then Some(UnauthorizedActor)
    else if trusted[0] == 0 then Some(InvalidAddress)
    else if trusted[0] == actor then None
    else CheckReconciler(actor, trusted[1..])
  }

  predicate ExpiryBound(a: Action) {
    a in {Fund, Submit, Complete, Reject, SetProvider, SetBudget}
  }

  function CheckActor(job: Job, a: Action, actor: Address, now: Time): Option<Error> {
    if a == Reconcile then None
    else if actor == 0 then Some(InvalidAddress)
    else
      var t := job.terms;
      var authorized :=
        match a
        case Fund | SetProvider | Create | ClaimRefund => actor == t.client
        case SetBudget => actor == t.client || t.provider == Some(actor)
        case Submit => t.provider == Some(actor)
        case Complete => actor == t.evaluator
        case Reject => if job.state == Open then actor == t.client else actor == t.evaluator
        case Reconcile => true;
      if !authorized then Some(UnauthorizedActor)
      else if a == ClaimRefund && now < t.expiresAt then Some(InvalidExpiry)
      else None
  }

  predicate IsOpenMutation(job: Job, a: Action, next: State) {
    (a == SetProvider || a == SetBudget) && job.state == Open && next == Open
  }

  predicate LegalFor(job: Job, a: Action, next: State) {
    match a
    case Fund => job.state == Open && next == Funded
    case SetProvider | SetBudget => IsOpenMutation(job, a, next)
    case Submit => job.state == Funded && next == Submitted
    case Complete => job.state == Submitted && next == Completed
    case Reject => job.state in {Open, Funded, Submitted} && next == Rejected
    case ClaimRefund => job.state in {Funded, Submitted} && next == Expired
    case Create | Reconcile => true
  }

  datatype Request = Request(
    pin: Pin, next: State, action: Action, actor: Address, now: Time, trusted: seq<Address>,
    deliverable: Field, transactionHash: Field, provider: Field, budget: Field, eventValid: bool)

  /** `assertErc8183Transition`: the first guard that refuses, in the order of the source. */
  function Refusal(digest: PinDigest, job: Job, q: Request): Option<Error> {
    var illegal := (!CanTransition(job.state, q.next) || job.state == q.next) && !IsOpenMutation(job, q.action, q.next);
    var unapproved := job.approval.None? || job.deliverable.None? ||
                      job.approval.value.digest != job.deliverable.value;
    if !Parses(digest, job) then Some(SchemaError)
    else if CheckPin(digest, job, q.pin).Some? then CheckPin(digest, job, q.pin)
    else if !IsTimestamp(q.now) then Some(InvalidExpiry)
    else if q.action == Reconcile then
      if q.next != job.state then Some(IllegalTransition)
      else if q.actor == 0 then Some(InvalidAddress)
      else CheckReconciler(q.actor, q.trusted)
    else if ExpiryBound(q.action) && q.now >= job.terms.expiresAt then Some(InvalidExpiry)
    else if illegal || (!LegalFor(job, q.action, q.next)) then Some(IllegalTransition)
    else if q.action == Complete && unapproved then Some(ReconciliationRequired)
    else if CheckActor(job, q.action, q.actor, q.now).Some? then CheckActor(job, q.action, q.actor, q.now)
    else if q.next == Expired && q.now < job.terms.expiresAt then Some(InvalidExpiry)
    else if q.next == Submitted && job.terms.provider.None? then Some(InvalidJob)
    else None
  }

  /** The terms after the action, or why its metadata is refused. */
  function NextTerms(job: Job, q: Request): Result<Terms, Error> {
    if q.action == SetProvider then
      if q.provider.Absent? then Failure(InvalidJob)
      else if q.provider.Malformed? || q.provider.value == 0 then Failure(InvalidAddress)
      else Success(job.terms.(provider := Some(q.provider.value)))
    else if q.action == SetBudget then
      if !q.budget.Given? || q.budget.value > UINT256_MAX || CheckBudget(q.budget.value, q.pin).Some?
      then Failure(InvalidAmount)
      else Success(job.terms.(budget := q.budget.value))
    else Success(job.terms)
  }

  function Stamp(field: Field, at: bool, prior: Option<Digest>): Option<Digest> {
    if at && field.Given? then Some(field.value) else prior
  }

  /** `transitionErc8183Job`. */
  function Transition(digest: PinDigest, job: Job, q: Request): Result<Job, Error> {
    if Refusal(digest, job, q).Some? then Failure(Refusal(digest, job, q).value)
    else if !q.deliverable.Absent? && q.next != Submitted then Failure(InvalidJob)
    else if q.transactionHash.Malformed? then Failure(InvalidJob)
    else if NextTerms(job, q).Failure? then Failure(NextTerms(job, q).error)
    else if !q.eventValid then Failure(InvalidEvent)
    else
      var next := job.(
        terms := NextTerms(job, q).value, state := q.next, updatedAt := q.now,
        deliverable := Stamp(q.deliverable, true, job.deliverable),
        fundingHash := Stamp(q.transactionHash, q.next == Funded, job.fundingHash),
        submissionHash := Stamp(q.transactionHash, q.next == Submitted, job.submissionHash),
        completionHash := Stamp(q.transactionHash, q.next == Completed, job.completionHash),
        rejectionHash := Stamp(q.transactionHash, q.next == Rejected, job.rejectionHash),
        refundHash := Stamp(q.transactionHash, q.next == Expired, job.refundHash),
        observedAt := Some(q.now));
      if q.deliverable.Malformed? || !Parses(digest, next) then Failure(SchemaError) else Success(next)
  }

  /** `approveErc8183Result`. */
  function Approve(digest: PinDigest, job: Job, actor: Address, result: Field, now: Time): Result<Job, Error> {
    if !Parses(digest, job) then Failure(SchemaError)
    else if actor == 0 then Failure(InvalidAddress)
    else if job.state != Submitted then Failure(IllegalTransition)
    else if actor != job.terms.client then Failure(UnauthorizedActor)
    else if !result.Given? then Failure(InvalidJob)
    else if job.deliverable != Some(result.value) then Failure(OnchainMismatch)
    else if !IsTimestamp(now) then Failure(InvalidExpiry)
    else if job.approval.Some? then
      if job.approval.value.buyer != actor || job.approval.value.digest != result.value
      then Failure(IdempotencyConflict) else Success(job)
    else
      var next := job.(approval := Some(Approval(actor, result.value, now)), updatedAt := now);
      if Parses(digest, next) then Success(next) else Failure(SchemaError)
  }

  /// Runs

  datatype Call =
    | Move(request: Request)
    | Approving(actor: Address, result: Field, at: Time)

  function Clock(c: Call): Time {
    match c
    case Move(q) => q.now
    case Approving(_, _, at) => at
  }

  /** Any action but `create`, which has no guard of its own. */
  predicate Guarded(c: Call) {
    c.Move? ==> c.request.action != Create
  }

  /** What is stored after a call: the result, or the old record when the call throws. */
  function Apply(digest: PinDigest, job: Job, c: Call): Job {
    var r := match c
             case Move(q) => Transition(digest, job, q)
             case Approving(actor, result, at) => Approve(digest, job, actor, result, at);
    if r.Success? then r.value else job
  }

  function Run(digest: PinDigest, job: Job, calls: seq<Call>): Job
    decreases |calls|
  {
    if calls == [] then job else Run(digest, Apply(digest, job, calls[0]), calls[1..])
  }

  function Changes(digest: PinDigest, job: Job, calls: seq<Call>): nat
    decreases |calls|
  {
    if calls == [] then 0
    else
      var next := Apply(digest, job, calls[0]);
      (if next.state != job.state then 1 else 0) + Changes(digest, next, calls[1..])
  }

  /** A job as it is created: open, nothing delivered, nothing approved. */
  predicate IsNew(digest: PinDigest, job: Job) {
    Parses(digest, job) && job.state == Open && job.deliverable.None? && job.approval.None?
  }

  /// One call

  /** Everything a single call can do to a record. */
  lemma OneCall(digest: PinDigest, job: Job, c: Call)
    requires Parses(digest, job)
    ensures var next := Apply(digest, job, c);
            && Parses(digest, next)
            && CanTransition(job.state, next.state)
            && next.terms.client == job.terms.client && next.terms.evaluator == job.terms.evaluator
            && next.terms.expiresAt == job.terms.expiresAt
            && (next.state == Expired != job.state ==> Clock(c) >= job.terms.expiresAt)
            && (job.state != Open ==> next.terms == job.terms)
            && (job.approval.Some? ==> next.approval == job.approval && next.deliverable == job.deliverable)
  {
  }

  /** A guarded call that changes the state: which action, under which conditions. */
  lemma OneChange(digest: PinDigest, job: Job, c: Call)
    requires Parses(digest, job) && Guarded(c) && Apply(digest, job, c).state != job.state
    ensures c.Move?
    ensures var next, q := Apply(digest, job, c), c.request;
            match next.state
            case Funded => job.state == Open && q.action == Fund && q.actor == job.terms.client &&
                           q.now < job.terms.expiresAt
            case Submitted => job.state == Funded && q.action == Submit && job.terms.provider == Some(q.actor) &&
                              q.now < job.terms.expiresAt
            case Completed => job.state == Submitted && q.action == Complete && q.actor == job.terms.evaluator &&
                              q.now < job.terms.expiresAt && job.approval.Some? && next.approval == job.approval
            case Rejected => q.action == Reject && q.now < job.terms.expiresAt &&
                             q.actor == if job.state == Open then job.terms.client else job.terms.evaluator
            case Expired => (job.state == Funded || job.state == Submitted) && q.action == ClaimRefund &&
                            q.actor == job.terms.client && q.now >= job.terms.expiresAt
            case Open => false
  {
  }

  /// Exactly which calls succeed

  /** The pin is the recorded one, or a mainnet pin whose only change is the lifted budget limit. */
  predicate SamePin(digest: PinDigest, job: Job, pin: Pin) {
    digest(job.pin) == job.pinDigest &&
    (digest(pin) == job.pinDigest ||
     (job.pin.chainId == 56 == pin.chainId && job.pin.maxBudget == 10000000000000000 &&
      pin.maxBudget == UINT256_MAX - 1 && digest(job.pin.(maxBudget := pin.maxBudget)) == digest(pin)))
  }

  predicate BudgetFits(budget: nat, pin: Pin) {
    pin.minBudget <= budget <= pin.maxBudget && budget < UINT256_MAX &&
    (pin.chainId == 97 ==> budget <= 10000000000000000)
  }

  predicate Pinned(digest: PinDigest, job: Job, pin: Pin) {
    SamePin(digest, job, pin) && job.terms.chainId == pin.chainId && job.terms.contract == pin.contract &&
    job.terms.token == pin.token && job.terms.decimals == pin.decimals && BudgetFits(job.terms.budget, pin)
  }

  /** The whole graph. */
  lemma EightMoves(from: State, to: State)
    ensures Allowed(from, to) <==>
            (from, to) in {(Open, Funded), (Open, Rejected), (Funded, Submitted), (Funded, Rejected), (Funded, Expired),
                           (Submitted, Completed), (Submitted, Rejected), (Submitted, Expired)}
  {
  }

  lemma PinIff(digest: PinDigest, job: Job, pin: Pin)
    ensures CheckPin(digest, job, pin).None? <==> Pinned(digest, job, pin)
    ensures CheckBudget(job.terms.budget, pin).None? <==> BudgetFits(job.terms.budget, pin)
  {
  }

  /** The actor is found among the trusted reconcilers, and every one before it is an address. */
  lemma {:induction false} ReconcilerIff(actor: Address, trusted: seq<Address>)
    requires actor != 0
    ensures CheckReconciler(actor, trusted).None? <==>
            exists i :: 0 <= i < |trusted| && trusted[i] == actor && forall j :: 0 <= j < i ==> trusted[j] != 0
    ensures CheckReconciler(actor, trusted) in {None, Some(if 0 in trusted then InvalidAddress else UnauthorizedActor)}
    decreases |trusted|
  {
    if trusted != [] && trusted[0] != 0 && trusted[0] != actor {
      ReconcilerIff(actor, trusted[1..]);
      if i :| 0 <= i < |trusted| && trusted[i] == actor && forall j :: 0 <= j < i ==> trusted[j] != 0 {
        assert trusted[1..][i - 1] == actor;
      }
      if i :| 0 <= i < |trusted[1..]| && trusted[1..][i] == actor && forall j :: 0 <= j < i ==> trusted[1..][j] != 0 {
        assert trusted[i + 1] == actor && forall j :: 0 <= j < i + 1 ==> trusted[j] != 0;
      }
    } else if trusted != [] && trusted[0] == actor {
      assert trusted[0] == actor;
    }
  }

  /** Which action is for which states. */
  predicate StatesFit(state: State, action: Action, next: State) {
    match action
    case Create => Allowed(state, next)
    case SetProvider | SetBudget => state == Open == next
    case Fund => (state, next) == (Open, Funded)
    case Submit => (state, next) == (Funded, Submitted)
    case Complete => (state, next) == (Submitted, Completed)
    case Reject => state in {Open, Funded, Submitted} && next == Rejected
    case ClaimRefund => state in {Funded, Submitted} && next == Expired
    case Reconcile => next == state
  }

  /** Who may ask for it. */
  predicate Entitled(job: Job, q: Request) {
    match q.action
    case Create | SetProvider | Fund | ClaimRefund => q.actor == job.terms.client
    case SetBudget => q.actor == job.terms.client || job.terms.provider == Some(q.actor)
    case Submit => job.terms.provider == Some(q.actor)
    case Complete => q.actor == job.terms.evaluator
    case Reject => q.actor == if job.state == Open then job.terms.client else job.terms.evaluator
    case Reconcile =>
      exists i :: 0 <= i < |q.trusted| && q.trusted[i] == q.actor && forall j :: 0 <= j < i ==> q.trusted[j] != 0
  }

  predicate TooLate(job: Job, q: Request) {
    q.action in {Fund, Submit, Complete, Reject, SetProvider, SetBudget} && q.now >= job.terms.expiresAt
  }

  predicate TooEarly(job: Job, q: Request) {
    q.action != Reconcile && q.next == Expired && q.now < job.terms.expiresAt
  }

  predicate Approved(job: Job) {
    job.approval != None && job.deliverable == Some(job.approval.value.digest)
  }

  /** Who may ask for which action in which state, and when. */
  predicate Permitted(job: Job, q: Request) {
    StatesFit(job.state, q.action, q.next) && Entitled(job, q) && !TooLate(job, q) && !TooEarly(job, q) &&
    (q.action == Complete ==> Approved(job))
  }

  /** Otherwise the guard names the first of these that is wrong. */
  lemma RefusedAs(digest: PinDigest, job: Job, q: Request)
    requires Parses(digest, job)
    ensures Refusal(digest, job, q) ==
            if !SamePin(digest, job, q.pin) then Some(OnchainMismatch)
            else if job.terms.chainId != q.pin.chainId then Some(InvalidChain)
            else if job.terms.contract != q.pin.contract then Some(InvalidContract)
            else if job.terms.token != q.pin.token || job.terms.decimals != q.pin.decimals then Some(InvalidToken)
            else if !BudgetFits(job.terms.budget, q.pin) then Some(InvalidAmount)
            else if !(0 < q.now <= 9007199254740991) || TooLate(job, q) then Some(InvalidExpiry)
            else if !StatesFit(job.state, q.action, q.next) then Some(IllegalTransition)
            else if q.action == Complete && !Approved(job) then Some(ReconciliationRequired)
            else if q.actor == 0 then Some(InvalidAddress)
            else if !Entitled(job, q) then
              Some(if q.action == Reconcile && 0 in q.trusted then InvalidAddress else UnauthorizedActor)
            else if TooEarly(job, q) then Some(InvalidExpiry)
            else if q.action == Create && q.next == Submitted && job.terms.provider == None then Some(InvalidJob)
            else None
  {
    PinIff(digest, job, q.pin);
    if q.actor != 0 {
      ReconcilerIff(q.actor, q.trusted);
    }
  }

  /** The guard refuses nothing exactly when the action is permitted. */
  lemma GuardIff(digest: PinDigest, job: Job, q: Request)
    requires Parses(digest, job)
    ensures Refusal(digest, job, q).None? <==>
            && Pinned(digest, job, q.pin) && IsTimestamp(q.now) && q.actor != 0 && Permitted(job, q)
            && (q.action == Create && q.next == Submitted ==> job.terms.provider != None)
  {
    RefusedAs(digest, job, q);
  }

  /** The metadata a request of this kind needs. */
  predicate Completes(q: Request, pin: Pin) {
    && !q.transactionHash.Malformed? && q.eventValid
    && (q.deliverable.Absent? || (q.deliverable.Given? && q.next == Submitted))
    && (q.action == SetProvider ==> q.provider.Given? && q.provider.value != 0)
    && (q.action == SetBudget ==> q.budget.Given? && q.budget.value <= UINT256_MAX && BudgetFits(q.budget.value, pin))
  }

  /** `transitionErc8183Job` succeeds exactly for these requests. */
  lemma TransitionIff(digest: PinDigest, job: Job, q: Request)
    requires Parses(digest, job)
    ensures Transition(digest, job, q).Success? <==>
            && Pinned(digest, job, q.pin) && 0 < q.now <= 9007199254740991 && q.actor != 0
            && Permitted(job, q) && Completes(q, q.pin)
            && (q.next == Submitted && q.action == Create ==> job.terms.provider != None)
            && (job.approval != None ==>
                  q.next in {Submitted, Completed} &&
                  (q.deliverable.Given? ==> q.deliverable.value == job.approval.value.digest))
  {
    GuardIff(digest, job, q);
  }

  /** A request that the guard lets through fails with the first of these. */
  lemma TransitionFailsAs(digest: PinDigest, job: Job, q: Request)
    requires Parses(digest, job)
    ensures var r := Transition(digest, job, q);
            if Refusal(digest, job, q).Some? then r == Failure(Refusal(digest, job, q).value)
            else if (!q.deliverable.Absent? && q.next != Submitted) || q.transactionHash.Malformed? ||
                    (q.action == SetProvider && q.provider.Absent?)
            then r == Failure(InvalidJob)
            else if q.action == SetProvider && q.provider in {Malformed, Given(0)} then r == Failure(InvalidAddress)
            else if q.action == SetBudget &&
                    !(q.budget.Given? && q.budget.value <= UINT256_MAX && BudgetFits(q.budget.value, q.pin))
            then r == Failure(InvalidAmount)
            else if !q.eventValid then r == Failure(InvalidEvent)
            else r.Success? || r == Failure(SchemaError)
  {
  }

  /** The record it leaves: state and time, the new provider or budget, and the evidence. */
  lemma TransitionLeaves(digest: PinDigest, job: Job, q: Request)
    requires Transition(digest, job, q).Success?
    ensures var next := Transition(digest, job, q).value;
            && next.state == q.next && next.updatedAt == q.now && next.observedAt == Some(q.now)
            && next.terms == (if q.action == SetProvider then job.terms.(provider := Some(q.provider.value))
                              else if q.action == SetBudget then job.terms.(budget := q.budget.value)
                              else job.terms)
            && next.deliverable == (if q.deliverable.Given? then Some(q.deliverable.value) else job.deliverable)
            && next.approval == job.approval && next.pin == job.pin && next.pinDigest == job.pinDigest
            && next.keyChainId == job.keyChainId && next.keyContract == job.keyContract
            && next.bindingChainId == job.bindingChainId
            && next.fundingHash == Evidence(job.fundingHash, q, Funded)
            && next.submissionHash == Evidence(job.submissionHash, q, Submitted)
            && next.completionHash == Evidence(job.completionHash, q, Completed)
            && next.rejectionHash == Evidence(job.rejectionHash, q, Rejected)
            && next.refundHash == Evidence(job.refundHash, q, Expired)
  {
  }

  /** The transaction of a call is evidence for the state it asks for. */
  function Evidence(stored: Option<Digest>, q: Request, state: State): Option<Digest> {
    if q.next == state && q.transactionHash.Given? then Some(q.transactionHash.value) else stored
  }

  /** The client of a submitted job can approve exactly the stored deliverable, once or again. */
  lemma ApproveIff(digest: PinDigest, job: Job, actor: Address, result: Field, now: Time)
    requires Parses(digest, job)
    ensures Approve(digest, job, actor, result, now).Success? <==>
            && job.state == Submitted && actor == job.terms.client && IsTimestamp(now)
            && result.Given? && job.deliverable == Some(result.value)
    ensures Approve(digest, job, actor, result, now).Success? ==>
              Approve(digest, job, actor, result, now).value ==
              if job.approval != None then job
              else job.(approval := Some(Approval(actor, result.value, now)), updatedAt := now)
    ensures Approve(digest, job, actor, result, now).Failure? ==>
              Approve(digest, job, actor, result, now).error ==
              if actor == 0 then InvalidAddress
              else if job.state != Submitted then IllegalTransition
              else if actor != job.terms.client then UnauthorizedActor
              else if !result.Given? then InvalidJob
              else if job.deliverable != Some(result.value) then OnchainMismatch
              else InvalidExpiry
  {
  }

  /// Completed jobs

  lemma {:induction false} TermsFixed(digest: PinDigest, job: Job, calls: seq<Call>)
    requires Parses(digest, job) && job.state != Open
    ensures var r := Run(digest, job, calls);
            Parses(digest, r) && r.state != Open && r.terms == job.terms
    decreases |calls|
  {
    if calls != [] {
      OneCall(digest, job, calls[0]);
      TermsFixed(digest, Apply(digest, job, calls[0]), calls[1..]);
    }
  }

  /** Submitted and completed jobs of guarded runs have a provider; completed ones an approval. */
  predicate Earned(job: Job) {
    && (job.state == Submitted || job.state == Completed ==> job.terms.provider.Some?)
    && (job.state == Completed ==> job.approval.Some?)
  }

  lemma {:induction false} GuardedRunsEarn(digest: PinDigest, job: Job, calls: seq<Call>)
    requires Parses(digest, job) && Earned(job) && forall c :: c in calls ==> Guarded(c)
    ensures Parses(digest, Run(digest, job, calls)) && Earned(Run(digest, job, calls))
    decreases |calls|
  {
    if calls != [] {
      var next := Apply(digest, job, calls[0]);
      OneCall(digest, job, calls[0]);
      if next.state != job.state {
        OneChange(digest, job, calls[0]);
      }
      GuardedRunsEarn(digest, next, calls[1..]);
    }
  }

  lemma {:induction false} RunConcat(digest: PinDigest, job: Job, xs: seq<Call>, ys: seq<Call>)
    ensures Run(digest, job, xs + ys) == Run(digest, Run(digest, job, xs), ys)
    decreases |xs|
  {
    if xs == [] {
      assert xs + ys == ys;
    } else {
      assert (xs + ys)[1..] == xs[1..] + ys;
      RunConcat(digest, Apply(digest, job, xs[0]), xs[1..], ys);
    }
  }

  /** How far a job has come: only funding leads out of `open` towards completion. */
  predicate PastFunding(s: State) {
    s == Funded || s == Submitted || s == Completed
  }

  /** A job that guarded calls take from `open` beyond funding was funded at some call. */
  lemma {:induction false} FundedOnTheWay(digest: PinDigest, job: Job, calls: seq<Call>) returns (k: nat)
    requires Parses(digest, job) && job.state == Open && (forall c :: c in calls ==> Guarded(c))
    requires PastFunding(Run(digest, job, calls).state)
    ensures k <= |calls| && Run(digest, job, calls[..k]).state == Funded
    decreases |calls|
  {
    var next := Apply(digest, job, calls[0]);
    OneCall(digest, job, calls[0]);
    assert calls[..1] == [calls[0]] && [calls[0]][1..] == [];
    assert Run(digest, job, calls[..1]) == Run(digest, next, []);
    if next.state == Open {
      var rest := FundedOnTheWay(digest, next, calls[1..]);
      k := rest + 1;
      assert calls[..k][1..] == calls[1..][..rest];
    } else {
      assert calls[0] in calls;
      OneChange(digest, job, calls[0]);
      FundedFirst(digest, next, calls[1..]);
      k := 1;
    }
  }

  /** Out of `open`, a run that gets beyond funding has just been funded. */
  lemma FundedFirst(digest: PinDigest, job: Job, calls: seq<Call>)
    requires Parses(digest, job) && (job.state == Funded || job.state == Rejected)
    requires PastFunding(Run(digest, job, calls).state)
    ensures job.state == Funded
  {
    AtMostThreeChanges(digest, job, calls);
  }

  /**
   Every completed job that guarded calls can reach was funded on the way; and the buyer approved
   exactly the stored deliverable, a provider is set, and all terms are those of every moment at
   which the job was funded.
   */
  lemma CompletedJobs(digest: PinDigest, job: Job, calls: seq<Call>) returns (k: nat)
    requires IsNew(digest, job) && (forall c :: c in calls ==> Guarded(c))
    requires Run(digest, job, calls).state == Completed
    ensures k <= |calls| && Run(digest, job, calls[..k]).state == Funded
    ensures var funded, r := Run(digest, job, calls[..k]), Run(digest, job, calls);
            && r.terms == funded.terms && r.terms.provider.Some?
            && r.approval.Some? && r.approval.value.buyer == r.terms.client
            && r.deliverable == Some(r.approval.value.digest)
    ensures forall j :: 0 <= j <= |calls| && Run(digest, job, calls[..j]).state == Funded ==>
              Run(digest, job, calls).terms == Run(digest, job, calls[..j]).terms
  {
    k := FundedOnTheWay(digest, job, calls);
    forall j | 0 <= j <= |calls| && Run(digest, job, calls[..j]).state == Funded
      ensures Run(digest, job, calls).terms == Run(digest, job, calls[..j]).terms
    {
      FundedTermsKept(digest, job, calls, j);
    }
    GuardedRunsEarn(digest, job, calls);
  }

  lemma FundedTermsKept(digest: PinDigest, job: Job, calls: seq<Call>, k: nat)
    requires Parses(digest, job) && k <= |calls|
    requires Run(digest, job, calls[..k]).state == Funded
    ensures Run(digest, job, calls).terms == Run(digest, job, calls[..k]).terms
  {
    var xs, ys := calls[..k], calls[k..];
    assert xs + ys == calls;
    RunConcat(digest, job, xs, ys);
    RunKeeps(digest, job, xs);
    TermsFixed(digest, Run(digest, job, xs), ys);
  }

  /**
   Only `create` can complete a job without an approval: whenever the pin, the clock and the
   metadata are in order, the client's `create` completes a submitted job, and no other action
   completes an unapproved one.
   */
  lemma UnapprovedCompletion(digest: PinDigest, job: Job, q: Request)
    requires Parses(digest, job) && job.state == Submitted && job.approval.None? && q.next == Completed
    requires CheckPin(digest, job, q.pin).None? && IsTimestamp(q.now) && q.eventValid
    requires q.deliverable.Absent? && !q.transactionHash.Malformed?
    ensures Transition(digest, job, q).Success? <==> q.action == Create && q.actor == job.terms.client
  {
  }

  /// Number of changes

  /** At most three state changes in any run, and none after a terminal state. */
  lemma {:induction false} AtMostThreeChanges(digest: PinDigest, job: Job, calls: seq<Call>)
    requires Parses(digest, job)
    ensures Changes(digest, job, calls) + Remaining(Run(digest, job, calls).state) <= Remaining(job.state) <= 3
    ensures Remaining(job.state) == 0 ==> Run(digest, job, calls).state == job.state
    decreases |calls|
  {
    if calls != [] {
      OneCall(digest, job, calls[0]);
      AtMostThreeChanges(digest, Apply(digest, job, calls[0]), calls[1..]);
    }
  }

  /// Time

  /** The metadata of a request that any action without terms of its own accepts. */
  predicate InOrder(digest: PinDigest, job: Job, q: Request) {
    CheckPin(digest, job, q.pin).None? && IsTimestamp(q.now) && q.eventValid && !q.transactionHash.Malformed? &&
    (q.deliverable.Absent? || (q.deliverable.Given? && q.next == Submitted))
  }

  /**
   Exactly which calls change the state of a job at or after its expiry.  The expiry guard does
   not list `create`, so the client can still fund, submit, complete or reject with it.
   */
  lemma ChangesAfterExpiry(digest: PinDigest, job: Job, c: Call)
    requires Parses(digest, job) && Clock(c) >= job.terms.expiresAt
    ensures Apply(digest, job, c).state != job.state <==>
            && c.Move? && InOrder(digest, job, c.request)
            && c.request.actor == job.terms.client && Allowed(job.state, c.request.next)
            && (c.request.action == Create || (c.request.action == ClaimRefund && c.request.next == Expired))
            && (c.request.next == Submitted ==> job.terms.provider.Some?)
            && (job.approval.Some? ==> c.request.next == Completed)
    ensures Apply(digest, job, c).state != job.state ==> Apply(digest, job, c).state == c.request.next
  {
    if c.Move? {
      MovesAfterExpiry(digest, job, c.request);
    }
  }

  lemma MovesAfterExpiry(digest: PinDigest, job: Job, q: Request)
    requires Parses(digest, job) && q.now >= job.terms.expiresAt
    ensures Refusal(digest, job, q).None? && q.next != job.state <==>
            && CheckPin(digest, job, q.pin).None? && IsTimestamp(q.now)
            && q.actor == job.terms.client && Allowed(job.state, q.next)
            && (q.action == Create || (q.action == ClaimRefund && q.next == Expired))
            && (q.next == Submitted ==> job.terms.provider.Some?)
  {
  }

  /** For guarded calls, once the clock has passed the expiry, only funded or submitted to expired is left. */
  lemma {:induction false} AfterExpiry(digest: PinDigest, job: Job, calls: seq<Call>)
    requires Parses(digest, job)
    requires forall c :: c in calls ==> Guarded(c) && Clock(c) >= job.terms.expiresAt
    ensures var r := Run(digest, job, calls);
            r.state == job.state || (r.state == Expired && (job.state == Funded || job.state == Submitted))
    decreases |calls|
  {
    if calls != [] {
      var next := Apply(digest, job, calls[0]);
      OneCall(digest, job, calls[0]);
      if next.state != job.state {
        OneChange(digest, job, calls[0]);
      }
      AfterExpiry(digest, next, calls[1..]);
    }
  }

  /** And before it, no job expires. */
  lemma {:induction false} BeforeExpiry(digest: PinDigest, job: Job, calls: seq<Call>)
    requires Parses(digest, job) && job.state != Expired
    requires forall c :: c in calls ==> Clock(c) < job.terms.expiresAt
    ensures Run(digest, job, calls).state != Expired
    decreases |calls|
  {
    if calls != [] {
      assert calls[0] in calls;
      OneCall(digest, job, calls[0]);
      BeforeExpiry(digest, Apply(digest, job, calls[0]), calls[1..]);
    }
  }

  predicate NonDecreasing(calls: seq<Call>) {
    forall i, j :: 0 <= i < j < |calls| ==> Clock(calls[i]) <= Clock(calls[j])
  }

  lemma LaterCalls(calls: seq<Call>, k: nat, expiry: Time)
    requires NonDecreasing(calls) && k < |calls| && Clock(calls[k]) >= expiry
    requires forall c :: c in calls ==> Guarded(c)
    ensures forall c :: c in calls[k..] ==> Guarded(c) && Clock(c) >= expiry
  {
    forall c | c in calls[k..] ensures Guarded(c) && Clock(c) >= expiry {
      var i :| 0 <= i < |calls[k..]| && calls[k..][i] == c;
      assert calls[k + i] == c;
    }
  }

  /** With a clock that does not run backwards, a guarded run has one moment after which only expiry is left. */
  lemma ExpiryDividesRun(digest: PinDigest, job: Job, calls: seq<Call>, k: nat)
    requires Parses(digest, job) && NonDecreasing(calls) && k < |calls|
    requires forall c :: c in calls ==> Guarded(c)
    requires Clock(calls[k]) >= job.terms.expiresAt
    ensures var mid, r := Run(digest, job, calls[..k]), Run(digest, job, calls);
            r.state == mid.state || (r.state == Expired && (mid.state == Funded || mid.state == Submitted))
  {
    RunConcat(digest, job, calls[..k], calls[k..]);
    assert calls[..k] + calls[k..] == calls;
    RunKeeps(digest, job, calls[..k]);
    LaterCalls(calls, k, job.terms.expiresAt);
    AfterExpiry(digest, Run(digest, job, calls[..k]), calls[k..]);
  }

  lemma {:induction false} RunKeeps(digest: PinDigest, job: Job, calls: seq<Call>)
    requires Parses(digest, job)
    ensures var r := Run(digest, job, calls);
            Parses(digest, r) && r.terms.client == job.terms.client && r.terms.evaluator == job.terms.evaluator &&
            r.terms.expiresAt == job.terms.expiresAt
    decreases |calls|
  {
    if calls != [] {
      OneCall(digest, job, calls[0]);
      RunKeeps(digest, Apply(digest, job, calls[0]), calls[1..]);
    }
  }

  /// Approvals

  /**
   To these two functions an approval is final: whatever they are called with, it and the
   deliverable never change again, and the job can no longer be rejected or refunded.  Only a
   settlement that writes a terminal state read from the chain drops it; that is another module.
   */
  lemma {:induction false} ApprovedStaysOrCompletes(digest: PinDigest, job: Job, calls: seq<Call>)
    requires Parses(digest, job) && job.approval.Some?
    ensures var r := Run(digest, job, calls);
            r.approval == job.approval && r.deliverable == job.deliverable && r.terms == job.terms &&
            (r.state == job.state || (job.state == Submitted && r.state == Completed))
    decreases |calls|
  {
    if calls != [] {
      var next := Apply(digest, job, calls[0]);
      OneCall(digest, job, calls[0]);
      assert ApprovalParses(next);
      ApprovedStaysOrCompletes(digest, next, calls[1..]);
    }
  }

  /** The client asks `create` for `completed`, with metadata in order. */
  predicate CompletesLate(digest: PinDigest, job: Job, c: Call) {
    c.Move? && InOrder(digest, job, c.request) && c.request.action == Create && c.request.next == Completed &&
    c.request.actor == job.terms.client
  }

  lemma LateCompletion(digest: PinDigest, job: Job, c: Call)
    requires Parses(digest, job) && job.approval.Some? && job.state == Submitted && Clock(c) >= job.terms.expiresAt
    ensures Apply(digest, job, c).state == (if CompletesLate(digest, job, c) then Completed else Submitted)
  {
    ChangesAfterExpiry(digest, job, c);
  }

  /** A call depends on the pin and the terms of the record only, which stay as they are once funded. */
  lemma CompletesLateKept(digest: PinDigest, job: Job, next: Job, c: Call)
    requires next.terms == job.terms && next.pin == job.pin && next.pinDigest == job.pinDigest
    ensures CompletesLate(digest, next, c) <==> CompletesLate(digest, job, c)
  {
  }

  lemma PinKept(digest: PinDigest, job: Job, c: Call)
    ensures Apply(digest, job, c).pin == job.pin && Apply(digest, job, c).pinDigest == job.pinDigest
  {
  }

  /**
   What becomes of an approved job that was not completed before its expiry: it is completed if
   and only if the client asks for that with `create`, and stays submitted otherwise.
   */
  lemma {:induction false} ApprovedPastExpiryIff(digest: PinDigest, job: Job, calls: seq<Call>)
    requires Parses(digest, job) && job.approval.Some? && job.state == Submitted
    requires forall c :: c in calls ==> Clock(c) >= job.terms.expiresAt
    ensures Run(digest, job, calls).state == Completed <==> exists c :: c in calls && CompletesLate(digest, job, c)
    ensures Run(digest, job, calls).state == Completed || Run(digest, job, calls).state == Submitted
    decreases |calls|
  {
    if calls != [] {
      var next := Apply(digest, job, calls[0]);
      OneCall(digest, job, calls[0]);
      LateCompletion(digest, job, calls[0]);
      PinKept(digest, job, calls[0]);
      if next.state == Submitted {
        ApprovedPastExpiryIff(digest, next, calls[1..]);
        forall c ensures CompletesLate(digest, next, c) <==> CompletesLate(digest, job, c) {
          CompletesLateKept(digest, job, next, c);
        }
      } else {
        AtMostThreeChanges(digest, next, calls[1..]);
      }
    }
  }

  /** An approved job of client 3 with expiry 100, completed by `create` at time 200. */
  lemma CreateAfterExpiry(digest: PinDigest) returns (job: Job, q: Request)
    ensures Parses(digest, job) && job.state == Submitted && job.approval.Some?
    ensures q.action == Create && q.actor == job.terms.client && q.now == 200 && job.terms.expiresAt == 100
    ensures Apply(digest, job, Move(q)).state == Completed
    ensures Apply(digest, job, Move(q.(action := Complete, actor := job.terms.evaluator))) == job
  {
    var pin := Pin(97, 1, 2, 18, 1, 100, "");
    var terms := Terms(97, 1, 2, 18, 3, Some(4), 5, 10, 100);
    job := Job(97, 1, terms, pin, digest(pin), Submitted, 50, Some(7), None, Some(Approval(3, 7, 60)),
               None, None, None, None, None, None);
    q := Request(pin, Completed, Create, 3, 200, [], Absent, Absent, Absent, Absent, true);
  }

  /** So guarded calls leave an approved job that was not completed before its expiry submitted. */
  lemma ApprovedPastExpiryIsStuck(digest: PinDigest, job: Job, calls: seq<Call>)
    requires Parses(digest, job) && job.approval.Some? && job.state == Submitted
    requires forall c :: c in calls ==> Guarded(c) && Clock(c) >= job.terms.expiresAt
    ensures Run(digest, job, calls).state == Submitted
  {
    AfterExpiry(digest, job, calls);
    ApprovedStaysOrCompletes(digest, job, calls);
  }

  /** Without an approval, a reconciliation of a submitted job may replace its deliverable. */
  lemma ReconcileReplacesDeliverable(digest: PinDigest, job: Job, q: Request)
    requires Parses(digest, job) && job.state == Submitted == q.next && q.action == Reconcile && q.deliverable.Given?
    requires Refusal(digest, job, q).None? && !q.transactionHash.Malformed? && q.eventValid
    ensures Transition(digest, job, q).Success?
            <==> job.approval.None? || job.approval.value.digest == q.deliverable.value
    ensures Transition(digest, job, q).Success? ==>
              Transition(digest, job, q).value.deliverable == Some(q.deliverable.value)
  {
  }

  /** Approving twice is approving once; approving anything else afterwards is refused. */
  lemma ApprovalIdempotent(digest: PinDigest, job: Job, actor: Address, result: Field, now: Time, later: Time)
    requires Approve(digest, job, actor, result, now).Success? && IsTimestamp(later)
    ensures var once := Approve(digest, job, actor, result, now).value;
            && Approve(digest, once, actor, result, later) == Success(once)
            && (forall b, other :: Approve(digest, once, b, other, later).Success? ==>
                  Approve(digest, once, b, other, later).value == once && b == actor && other == result)
  {
  }
}
