/**
 The bounded reference provider: admission transactions that insert slots, one worker that
 drives each slot to a single broadcast, and every other user of the operation ledger.
 A step is one SQL statement, one RPC call or one return; between any two steps of one
 party any other party may act, and the worker may crash.
 */
module ReferenceSlots {
  import opened Wrappers
  import L = Ledger

  const MAX_JOBS: nat := 3
  const GAS_LIMIT: nat := 400000
  const GAS_PRICE: nat := 250000000
  const GAS_RESERVATION: nat := 100000000000000
  const GAS_BUDGET: nat := 300000000000000
  const BASELINE_JOB := "1171"
  const COMMERCE := "0xa206c0517b6371c6638cd9e4a42cc9f02a33b0de"

  type Job = string

  datatype SlotState = Reserved | Claimed | Signing | Unknown | Submitted | Reconciled | Blocked

  datatype Slot = Slot(
    job: Job, state: SlotState, txHash: Option<L.Hash>, nonce: Option<int>, gasReserved: nat, gasSpent: Option<nat>)

  type Slots = map<nat, Slot>

  /// Capacity

  /** The allowance row, with the age of its heartbeat in milliseconds. */
  datatype Allowance = Allowance(configMatches: bool, enabled: bool, healthy: bool, age: Option<int>)

  datatype Reason =
    | ConfigurationMismatch | AdmissionDisabled | Unhealthy | WorkerStale | CapacityExhausted | GasBudgetExhausted
    | Ready

  datatype Capacity = Capacity(reason: Reason, remaining: nat, admitted: nat)

  function SumReserved(slots: Slots, n: nat): nat {
    if n == 0 then 0 else SumReserved(slots, n - 1) + (if n in slots then slots[n].gasReserved else 0)
  }

  /** `readReferenceCapacity`; the slot table only holds numbers 1 to 3. */
  function ReadCapacity(a: Allowance, slots: Slots): Capacity {
    var admitted := |slots|;
    var remaining := if admitted < MAX_JOBS then MAX_JOBS - admitted else 0;
    if !a.configMatches then Capacity(ConfigurationMismatch, 0, 0)
    else
      var reason :=
        if !a.enabled then AdmissionDisabled
        else if !a.healthy then Unhealthy
        else if a.age.None? || a.age.value < 0 || a.age.value > 20000 then WorkerStale
        else if remaining == 0 then CapacityExhausted
        else if SumReserved(slots, MAX_JOBS) + GAS_RESERVATION > GAS_BUDGET then GasBudgetExhausted
        else Ready;
      Capacity(reason, remaining, admitted)
  }

  /// State

  /** The admission transaction that holds the advisory lock; all others wait for it. */
  datatype Admission =
    | Locked(job: Job)
    | Decided(job: Job, slot: nat)
    | Inserted(job: Job, slot: nat)

  datatype RunResult =
    | RanSubmitted | RanReplayed | RanReconciled | RanPending | RanManualReview | RanReverted | RanNothing

  predicate IsSuccess(r: RunResult) {
    r == RanSubmitted || r == RanReplayed || r == RanReconciled
  }

  /**
   Where the worker process stands.  `slot` is the slot of the commerce job at hand and
   `failed` says that a submission in this run has returned FAILED.
   */
  datatype Worker =
    | Idle
    | Selected(slot: nat, hash: Option<L.Hash>)
    | Running(slot: nat, failed: bool)
    | Checked(slot: nat, failed: bool, gasPrice: nat)
    | Holding(slot: nat, failed: bool, gasPrice: nat)
    | Signed(slot: nat, failed: bool, gasPrice: nat, txHash: L.Hash, nonce: int)
    | SlotRecorded(slot: nat, failed: bool, gasPrice: nat, txHash: L.Hash)
    | ReadyToSend(slot: nat, failed: bool, gasPrice: nat, txHash: L.Hash, op: L.Id)
    | Sent(slot: nat, failed: bool, txHash: L.Hash)
    | Finished(slot: nat, result: RunResult)
    | NothingPending
    | ClaimReady

  /** A broadcast, with what the slot row and the ledger row held at that moment. */
  datatype Broadcast = Broadcast(
    slot: nat, txHash: L.Hash, gasPrice: nat, gasUsed: nat, slotHash: Option<L.Hash>, ledgerRow: L.Row)

  datatype System = System(
    slots: Slots, admission: Option<Admission>, worker: Worker, ledger: L.Table,
    protocolId: map<Job, string>, chain: seq<Broadcast>)

  datatype Receipt = Receipt(success: bool, gasUsed: nat, gasPrice: nat)

  datatype Action =
    | Lock(job: Job)
    | ReadAllowance(allowance: Allowance)
    | InsertSlot
    | Commit
    | Abort
    | Other(statement: L.Statement)
    | Crash
    | SelectPending
    | FetchReceipt(found: Option<Receipt>)
    | StartRun
    | CheckSubmit(gasPrice: nat, gasEstimate: nat)
    | HoldSlot
    | Sign(txHash: L.Hash, nonce: int)
    | RecordInSlot
    | RecordInLedger(now: L.Time)
    | Send(gasUsed: nat)
    | AwaitReceipt(receipt: Receipt)
    | SubmitThrows
    | RunReturns(result: RunResult)
    | ApplyResult
    | CheckHealth
    | ClaimSlot(fundedJobs: set<Job>)

  /// Steps

  predicate IsPending(st: SlotState) {
    st == Unknown || st == Signing || st == Claimed || st == Submitted
  }

  predicate IsUncertain(st: SlotState) {
    st == Blocked || st == Signing || st == Unknown
  }

  /** The first row of `SELECT ... WHERE state IN ('unknown','signing','claimed','submitted') ORDER BY slot`. */
  predicate FirstPending(slots: Slots, n: nat) {
    n in slots && IsPending(slots[n].state) && forall m :: m in slots && m < n ==> !IsPending(slots[m].state)
  }

  predicate IsClaimable(slot: Slot, funded: set<Job>) {
    slot.state == Reserved && slot.job in funded
  }

  predicate FirstClaimable(slots: Slots, n: nat, funded: set<Job>) {
    n in slots && IsClaimable(slots[n], funded) && forall m :: m in slots && m < n ==> !IsClaimable(slots[m], funded)
  }

  predicate JobAdmitted(slots: Slots, job: Job) {
    exists n :: n in slots && slots[n].job == job
  }

  /** The slot check of `healthCheck`. */
  predicate Healthy(slots: Slots) {
    forall n :: n in slots ==> !IsUncertain(slots[n].state)
  }

  /**
   `recordReceipt`: the row whose hash is the given one, unless its gas check refuses the row,
   in which case the statement throws.
   */
  function RecordReceipt(slots: Slots, n: nat, hash: L.Hash, r: Receipt): Option<Slots> {
    if n !in slots || slots[n].txHash != Some(hash) then Some(slots)
    else if r.gasUsed * r.gasPrice > slots[n].gasReserved then None
    else Some(slots[n := slots[n].(state := if r.success then Submitted else Blocked,
                                   gasSpent := Some(r.gasUsed * r.gasPrice))])
  }

  function SetState(slots: Slots, n: nat, st: SlotState): Slots {
    if n in slots then slots[n := slots[n].(state := st)] else slots
  }

  /** The last UPDATE of a tick. */
  function AfterRun(slots: Slots, n: nat, result: RunResult): Slots {
    if IsSuccess(result) then
      if n in slots && slots[n].txHash.Some? then SetState(slots, n, Reconciled) else slots
    else if result == RanManualReview || result == RanReverted then SetState(slots, n, Blocked)
    else if result == RanPending then SetState(slots, n, Unknown)
    else slots
  }

  function BoundedTargets(t: L.Table, jobId: string): set<L.Id> {
    set id | id in t && L.BoundedMatches(t[id], COMMERCE, jobId)
  }

  /// Admission, and the other users of the ledger

  function LockStep(s: System, job: Job): System {
    if s.admission.None? then s.(admission := Some(Locked(job))) else s
  }

  function ReadAllowanceStep(s: System, allowance: Allowance): System {
    if s.admission.Some? && s.admission.value.Locked? then
      var capacity := ReadCapacity(allowance, s.slots);
      if capacity.reason == Ready
      then s.(admission := Some(Decided(s.admission.value.job, capacity.admitted + 1)))
      else s.(admission := None)
    else s
  }

  /** The insert of the slot; a taken number or an admitted job violates a unique constraint. */
  function InsertStep(s: System): System {
    if s.admission.Some? && s.admission.value.Decided? then
      var Decided(job, slot) := s.admission.value;
      if slot in s.slots || JobAdmitted(s.slots, job) then s.(admission := None)
      else s.(admission := Some(Inserted(job, slot)))
    else s
  }

  function CommitStep(s: System): System {
    if s.admission.Some? && s.admission.value.Inserted? then
      var Inserted(job, slot) := s.admission.value;
      s.(slots := s.slots[slot := Slot(job, Reserved, None, None, GAS_RESERVATION, None)], admission := None)
    else s
  }

  /** The worker's own update is a step of its submission, not of another caller. */
  function StatementStep(s: System, statement: L.Statement): System {
    if statement.BoundedDispatch? then s else s.(ledger := L.Execute(s.ledger, statement))
  }

  /** Steps of the admission transaction and of the other users of the ledger. */
  function OtherStep(s: System, a: Action): System {
    match a
    case Lock(job) => LockStep(s, job)
    case ReadAllowance(allowance) => ReadAllowanceStep(s, allowance)
    case InsertSlot => InsertStep(s)
    case Commit => CommitStep(s)
    case Abort => s.(admission := None)
    case Other(statement) => StatementStep(s, statement)
    case _ => s
  }

  predicate IsOther(a: Action) {
    a.Lock? || a.ReadAllowance? || a.InsertSlot? || a.Commit? || a.Abort? || a.Other?
  }

  /// A tick

  ghost function SelectStep(s: System): System {
    if !s.worker.Idle? then s
    else if exists n :: FirstPending(s.slots, n) then
      var n :| FirstPending(s.slots, n);
      s.(worker := if s.slots[n].state == Signing then Idle else Selected(n, s.slots[n].txHash))
    else s.(worker := NothingPending)
  }

  function FetchStep(s: System, found: Option<Receipt>): System {
    if !s.worker.Selected? || s.worker.hash.None? then s
    else if found.None? then s.(worker := Idle)
    else
      var n := s.worker.slot;
      var slots := RecordReceipt(s.slots, n, s.worker.hash.value, found.value);
      if slots.None? then s.(worker := Idle)
      else s.(slots := slots.value, worker := if found.value.success then Running(n, false) else Idle)
  }

  function StartStep(s: System): System {
    if s.worker.Selected? && s.worker.hash.None? then s.(worker := Running(s.worker.slot, false)) else s
  }

  /** The runner never reports success after a submission that came back FAILED. */
  function ReturnStep(s: System, result: RunResult): System {
    if s.worker.Running? && !(s.worker.failed && IsSuccess(result))
    then s.(worker := Finished(s.worker.slot, result)) else s
  }

  function ApplyStep(s: System): System {
    if s.worker.Finished?
    then s.(slots := AfterRun(s.slots, s.worker.slot, s.worker.result), worker := Idle) else s
  }

  function HealthStep(s: System): System {
    if s.worker.NothingPending? then s.(worker := if Healthy(s.slots) then ClaimReady else Idle) else s
  }

  ghost function ClaimStep(s: System, funded: set<Job>): System {
    if !s.worker.ClaimReady? then s
    else if exists n :: FirstClaimable(s.slots, n, funded) then
      var n :| FirstClaimable(s.slots, n, funded);
      s.(slots := SetState(s.slots, n, Claimed), worker := Idle)
    else s.(worker := Idle)
  }

  /// `boundedSubmit`

  /** The job of the slot has a protocol id, and it is not the baseline job. */
  predicate InScope(slots: Slots, protocolId: map<Job, string>, n: nat) {
    n in slots && slots[n].job in protocolId && protocolId[slots[n].job] != BASELINE_JOB
  }

  /** The checks before the slot is held. */
  predicate ChecksPass(slots: Slots, protocolId: map<Job, string>, n: nat, gasPrice: nat, gasEstimate: nat) {
    InScope(slots, protocolId, n) && Healthy(slots) && gasPrice <= GAS_PRICE && gasEstimate * 12 / 10 <= GAS_LIMIT
  }

  function CheckStep(s: System, gasPrice: nat, gasEstimate: nat): System {
    if s.worker.Running? && ChecksPass(s.slots, s.protocolId, s.worker.slot, gasPrice, gasEstimate)
    then s.(worker := Checked(s.worker.slot, s.worker.failed, gasPrice)) else s
  }

  function HoldStep(s: System): System {
    if !s.worker.Checked? then s
    else
      var Checked(n, failed, gasPrice) := s.worker;
      if n in s.slots && s.slots[n].state == Claimed && s.slots[n].txHash.None?
      then s.(slots := SetState(s.slots, n, Signing), worker := Holding(n, failed, gasPrice))
      else s.(worker := Running(n, failed))
  }

  function SignStep(s: System, hash: L.Hash, nonce: int): System {
    if s.worker.Holding?
    then s.(worker := Signed(s.worker.slot, s.worker.failed, s.worker.gasPrice, hash, nonce)) else s
  }

  function StoreHash(slots: Slots, n: nat, hash: L.Hash, nonce: int): Slots {
    if n in slots && slots[n].state == Signing
    then slots[n := slots[n].(txHash := Some(hash), nonce := Some(nonce), state := Unknown)] else slots
  }

  function RecordSlotStep(s: System): System {
    if !s.worker.Signed? then s
    else
      var Signed(n, failed, gasPrice, hash, nonce) := s.worker;
      s.(slots := StoreHash(s.slots, n, hash, nonce), worker := SlotRecorded(n, failed, gasPrice, hash))
  }

  /** The update of the ledger by job; only a sole updated row lets the worker go on. */
  ghost function RecordLedgerStep(s: System, now: L.Time): System {
    if !s.worker.SlotRecorded? then s
    else
      var SlotRecorded(n, failed, gasPrice, hash) := s.worker;
      if n in s.slots && s.slots[n].job in s.protocolId then
        var jobId := s.protocolId[s.slots[n].job];
        var targets := BoundedTargets(s.ledger, jobId);
        var ledger := L.Execute(s.ledger, L.BoundedDispatch(COMMERCE, jobId, hash, now));
        if exists op :: op in targets && targets == {op} then
          var op :| op in targets && targets == {op};
          s.(ledger := ledger, worker := ReadyToSend(n, failed, gasPrice, hash, op))
        else s.(ledger := ledger, worker := Running(n, failed))
      else s.(worker := Running(n, failed))
  }

  function SendStep(s: System, gasUsed: nat): System {
    if !s.worker.ReadyToSend? then s
    else
      var ReadyToSend(n, failed, gasPrice, hash, op) := s.worker;
      if n in s.slots && op in s.ledger && gasUsed <= GAS_LIMIT then
        s.(worker := Sent(n, failed, hash),
           chain := s.chain + [Broadcast(n, hash, gasPrice, gasUsed, s.slots[n].txHash, s.ledger[op])])
      else s
  }

  function ReceiptStep(s: System, receipt: Receipt): System {
    if !s.worker.Sent? then s
    else
      var Sent(n, failed, hash) := s.worker;
      var slots := RecordReceipt(s.slots, n, hash, receipt);
      if slots.None? then s.(worker := Running(n, failed))
      else s.(slots := slots.value, worker := Running(n, failed || !receipt.success))
  }

  predicate InSubmit(w: Worker) {
    w.Checked? || w.Holding? || w.Signed? || w.SlotRecorded? || w.ReadyToSend? || w.Sent?
  }

  function ThrowStep(s: System): System {
    if InSubmit(s.worker) then s.(worker := Running(s.worker.slot, s.worker.failed)) else s
  }

  /// Runs

  /** Steps of a tick outside `boundedSubmit`. */
  ghost function TickStep(s: System, a: Action): System {
    match a
    case SelectPending => SelectStep(s)
    case FetchReceipt(found) => FetchStep(s, found)
    case StartRun => StartStep(s)
    case RunReturns(result) => ReturnStep(s, result)
    case ApplyResult => ApplyStep(s)
    case CheckHealth => HealthStep(s)
    case ClaimSlot(funded) => ClaimStep(s, funded)
    case _ => s
  }

  predicate IsTick(a: Action) {
    a.SelectPending? || a.FetchReceipt? || a.StartRun? || a.RunReturns? || a.ApplyResult? || a.CheckHealth? ||
    a.ClaimSlot?
  }

  /** Steps of `boundedSubmit`. */
  ghost function SubmitStep(s: System, a: Action): System {
    match a
    case CheckSubmit(gasPrice, gasEstimate) => CheckStep(s, gasPrice, gasEstimate)
    case HoldSlot => HoldStep(s)
    case Sign(hash, nonce) => SignStep(s, hash, nonce)
    case RecordInSlot => RecordSlotStep(s)
    case RecordInLedger(now) => RecordLedgerStep(s, now)
    case Send(gasUsed) => SendStep(s, gasUsed)
    case AwaitReceipt(receipt) => ReceiptStep(s, receipt)
    case SubmitThrows => ThrowStep(s)
    case _ => s
  }

  /** One step; an action that is not possible where its party stands changes nothing. */
  ghost function Step(s: System, a: Action): System {
    if a.Crash? then s.(worker := Idle)
    else if IsOther(a) then OtherStep(s, a)
    else if IsTick(a) then TickStep(s, a)
    else SubmitStep(s, a)
  }

  ghost function Run(s: System, actions: seq<Action>): System
    decreases |actions|
  {
    if actions == [] then s else Run(Step(s, actions[0]), actions[1..])
  }

  lemma {:induction false} RunConcat(s: System, xs: seq<Action>, ys: seq<Action>)
    ensures Run(s, xs + ys) == Run(Run(s, xs), ys)
    decreases |xs|
  {
    if xs == [] {
      assert xs + ys == ys;
    } else {
      assert (xs + ys)[1..] == xs[1..] + ys;
      RunConcat(Step(s, xs[0]), xs[1..], ys);
    }
  }

  lemma RunSnoc(s: System, actions: seq<Action>, a: Action)
    ensures Run(s, actions + [a]) == Step(Run(s, actions), a)
  {
    RunConcat(s, actions, [a]);
    assert Run(Run(s, actions), [a]) == Run(Step(Run(s, actions), a), []);
  }

  /** No slot admitted and nothing broadcast yet; the ledger may hold any rows of earlier operations. */
  predicate Initial(s: System) {
    s.slots == map[] && s.admission.None? && s.worker.Idle? && s.chain == [] &&
    forall id :: id in s.ledger ==> L.Sealed(s.ledger[id])
  }
}
