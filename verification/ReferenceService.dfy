/**
 The worker process and the admission call as code: every method rewrites the slot and
 operation tables statement by statement, and each statement is one step of the state
 machine, so that whatever holds of every run holds of every `Service` object.
 */
module ReferenceService {
  import opened Wrappers
  import L = Ledger
  import opened ReferenceSlots
  import Safety = ReferenceSafety
  import Guarantees = ReferenceGuarantees

  /** What the network and the clock answer during one submission. */
  datatype Submission = Submission(
    checksPass: bool, gasPrice: nat, gasEstimate: nat, txHash: L.Hash, nonce: int, now: L.Time,
    sameChain: bool, reachesChain: bool, gasUsed: nat, sendReplies: bool, receipt: Option<Receipt>)

  datatype AdmissionError = NotReady(reason: Reason) | DuplicateJob

  datatype SubmitError = CheckFailed | AlreadyAttempted | ExactOperationRequired | TransactionUnknown(txHash: L.Hash)

  /** How a tick ends, in the order in which it decides. */
  datatype TickOutcome =
    | SigningReview | PendingNoRebroadcast | ReceiptRefused | SubmissionReverted | Ran(result: RunResult)
    | CheckRefused | ClaimedJob(job: Job) | NothingToClaim

  /** What other callers do between two statements: admissions and ledger statements. */
  type Schedule = nat -> seq<Action>

  ghost predicate OnlyOthers(others: Schedule) {
    forall i, a :: a in others(i) ==> IsOther(a)
  }

  /** The states a trace goes through, the first one included. */
  ghost predicate IsHistory(start: System, trace: seq<Action>, history: seq<System>) {
    && |history| == |trace| + 1 && history[0] == start
    && forall i {:trigger trace[i]} :: 0 <= i < |trace| ==> history[i + 1] == Step(history[i], trace[i])
  }

  lemma {:induction false} HistoryIsRun(start: System, trace: seq<Action>, history: seq<System>)
    requires IsHistory(start, trace, history)
    ensures history[|trace|] == Run(start, trace)
    decreases |trace|
  {
    if trace != [] {
      var n := |trace| - 1;
      var front := trace[..n];
      assert forall i {:trigger front[i]} :: 0 <= i < n ==> front[i] == trace[i];
      HistoryIsRun(start, front, history[..n + 1]);
      RunSnoc(start, front, trace[n]);
      assert front + [trace[n]] == trace;
    }
  }

  lemma HistoryKeepsInv(start: System, trace: seq<Action>, history: seq<System>)
    requires Initial(start) && IsHistory(start, trace, history)
    ensures Safety.Inv(history[|trace|])
  {
    HistoryIsRun(start, trace, history);
    Safety.InitialInv(start);
    Safety.RunKeepsInv(start, trace);
  }

  lemma RunFour(s: System, a: Action, b: Action, c: Action, d: Action)
    ensures Run(s, [a, b, c, d]) == Step(Step(Step(Step(s, a), b), c), d)
  {
    assert [a, b, c, d] == [] + [a] + [b] + [c] + [d];
    RunSnoc(s, [], a);
    RunSnoc(s, [] + [a], b);
    RunSnoc(s, [] + [a] + [b], c);
    RunSnoc(s, [] + [a] + [b] + [c], d);
  }

  /** A whole admission transaction, in one piece. */
  function Admitted(slots: Slots, job: Job, allowance: Allowance, commits: bool): Slots {
    if ReadCapacity(allowance, slots).reason == Ready && !JobAdmitted(slots, job) && commits
    then slots[|slots| + 1 := Safety.Added(job)] else slots
  }

  lemma AdmissionRun(s: System, job: Job, allowance: Allowance, commits: bool)
    requires Safety.Inv(s) && s.admission.None?
    ensures Run(s, [Lock(job), ReadAllowance(allowance), InsertSlot, if commits then Commit else Abort])
         == s.(slots := Admitted(s.slots, job, allowance, commits))
  {
    RunFour(s, Lock(job), ReadAllowance(allowance), InsertSlot, if commits then Commit else Abort);
    assert |s.slots| + 1 !in s.slots;
    AdmissionSteps(s, job, allowance, commits);
  }

  lemma AdmissionSteps(s: System, job: Job, allowance: Allowance, commits: bool)
    requires s.admission.None? && |s.slots| + 1 !in s.slots
    ensures var read := ReadAllowanceStep(LockStep(s, job), allowance);
            (if commits then CommitStep(InsertStep(read)) else InsertStep(read).(admission := None))
            == s.(slots := Admitted(s.slots, job, allowance, commits))
  {
    var read := ReadAllowanceStep(LockStep(s, job), allowance);
    if ReadCapacity(allowance, s.slots).reason == Ready {
      assert read == s.(admission := Some(Decided(job, |s.slots| + 1)));
    } else {
      assert read == s;
    }
  }

  /** What decides which submissions pass the checks. */
  datatype Setting = Setting(slots: Slots, protocolId: map<Job, string>, n: nat)

  class Service {
    var slots: Slots
    var ledger: L.Table
    var admission: Option<Admission>
    var protocolId: map<Job, string>
    ghost var worker: Worker
    ghost var chain: seq<Broadcast>
    ghost const start: System
    ghost var trace: seq<Action>
    ghost var history: seq<System>

    ghost function State(): System
      reads this
    {
      System(slots, admission, worker, ledger, protocolId, chain)
    }

    /** The object is where its history leads from an initial state. */
    ghost predicate Valid()
      reads this
    {
      Initial(start) && IsHistory(start, trace, history) && State() == history[|trace|]
    }

    /** One step was taken. */
    twostate predicate Took(a: Action)
      reads this
    {
      trace == old(trace) + [a] && State() == Step(old(State()), a)
    }

    /** So every theorem about runs from an initial state is one about this object. */
    lemma IsReachable()
      requires Valid()
      ensures State() == Run(start, trace) && Safety.Inv(State())
    {
      HistoryIsRun(start, trace, history);
      Safety.InitialInv(start);
      Safety.RunKeepsInv(start, trace);
    }

    lemma ValidInv()
      requires Valid()
      ensures Safety.Inv(State())
    {
      IsReachable();
    }

    lemma Numbered()
      requires Valid()
      ensures forall n :: n in slots <==> 1 <= n <= |slots|
    {
      ValidInv();
    }

    /** What the row and the ledger hold while a transaction is on its way. */
    lemma Underway()
      requires Valid() && (worker.ReadyToSend? || worker.Sent?)
      ensures worker.slot in slots && slots[worker.slot].txHash == Some(worker.txHash)
      ensures slots[worker.slot].gasReserved == GAS_RESERVATION
      ensures worker.ReadyToSend? ==> worker.op in ledger
    {
      ValidInv();
      assert Safety.SlotOk(slots[worker.slot]);
    }

    /** Puts a step that has been taken on record. */
    ghost method Log(a: Action)
      requires Initial(start) && IsHistory(start, trace, history) && State() == Step(history[|trace|], a)
      modifies this`trace, this`history
      ensures Valid() && Safety.Extends(old(history[|trace|]).slots, slots)
      ensures trace == old(trace) + [a]
    {
      HistoryKeepsInv(start, trace, history);
      Safety.StepKeepsInv(history[|trace|], a);
      trace, history := trace + [a], history + [State()];
    }

    constructor (ledger: L.Table, protocolId: map<Job, string>)
      requires forall id :: id in ledger ==> L.Sealed(ledger[id])
      ensures Valid() && slots == map[] && this.ledger == ledger && chain == [] && worker.Idle?
    {
      this.slots := map[];
      this.ledger := ledger;
      this.admission := None;
      this.protocolId := protocolId;
      worker := Idle;
      chain := [];
      start := System(map[], None, Idle, ledger, protocolId, []);
      trace := [];
      history := [System(map[], None, Idle, ledger, protocolId, [])];
    }

    /// Other callers

    method Interfere(actions: seq<Action>)
      requires Valid() && forall a :: a in actions ==> IsOther(a)
      modifies this
      ensures Valid() && Safety.Extends(old(slots), slots)
      ensures worker == old(worker) && chain == old(chain) && protocolId == old(protocolId) && old(trace) <= trace
      ensures forall n :: n in old(slots) ==> slots[n] == old(slots)[n]
      ensures actions == [] ==> ledger == old(ledger)
      ensures forall n :: n in slots && n !in old(slots) ==> slots[n].state == Reserved
    {
      for i := 0 to |actions|
        invariant Valid() && Safety.Extends(old(slots), slots)
        invariant worker == old(worker) && chain == old(chain) && protocolId == old(protocolId) && old(trace) <= trace
        invariant i == 0 ==> ledger == old(ledger)
        invariant forall n :: n in old(slots) ==> n in slots && slots[n] == old(slots)[n]
        invariant forall n :: n in slots && n !in old(slots) ==> slots[n].state == Reserved
      {
        OtherStatement(actions[i]);
      }
    }

    method OtherStatement(a: Action)
      requires Valid() && IsOther(a)
      modifies this
      ensures Valid() && Took(a) && Safety.Extends(old(slots), slots)
      ensures worker == old(worker) && chain == old(chain) && protocolId == old(protocolId)
      ensures forall n :: n in old(slots) ==> n in slots && slots[n] == old(slots)[n]
      ensures forall n :: n in slots && n !in old(slots) ==> slots[n].state == Reserved
    {
      OtherEffect(a);
      var next := OtherStep(System(slots, admission, Idle, ledger, protocolId, []), a);
      slots, admission, ledger := next.slots, next.admission, next.ledger;
      Log(a);
    }

    /** It does not depend on the worker, and at most adds a slot. */
    lemma OtherEffect(a: Action)
      requires Valid() && IsOther(a)
      ensures var next := OtherStep(System(slots, admission, Idle, ledger, protocolId, []), a);
              Step(State(), a) == next.(worker := worker, chain := chain) && next.protocolId == protocolId &&
              (forall n :: n in slots ==> n in next.slots && next.slots[n] == slots[n]) &&
              forall n :: n in next.slots && n !in slots ==> next.slots[n].state == Reserved
    {
      ValidInv();
      OtherIgnoresWorker(State(), a);
      OnlyAdds(State(), a);
    }

    static lemma OtherIgnoresWorker(s: System, a: Action)
      requires IsOther(a)
      ensures var next := OtherStep(System(s.slots, s.admission, Idle, s.ledger, s.protocolId, []), a);
              Step(s, a) == OtherStep(s, a) == next.(worker := s.worker, chain := s.chain)
    {
    }

    static lemma OnlyAdds(s: System, a: Action)
      requires Safety.Inv(s) && IsOther(a)
      ensures forall n :: n in s.slots ==> n in OtherStep(s, a).slots && OtherStep(s, a).slots[n] == s.slots[n]
      ensures forall n :: n in OtherStep(s, a).slots && n !in s.slots ==> OtherStep(s, a).slots[n].state == Reserved
    {
      if a.Commit? && s.admission.Some? && s.admission.value.Inserted? {
        assert s.admission.value.slot !in s.slots;
      } else {
        assert OtherStep(s, a).slots == s.slots;
      }
    }

    /// Admission

    /** `reserveReferenceCapacity` and the end of the transaction around it, for the caller that gets the lock. */
    method Reserve(job: Job, allowance: Allowance, commits: bool) returns (r: Result<nat, AdmissionError>)
      requires Valid() && admission.None?
      modifies this
      ensures Valid() && admission.None? && ledger == old(ledger) && worker == old(worker) && chain == old(chain)
      ensures var reason := ReadCapacity(allowance, old(slots)).reason;
              r == if reason != Ready then Failure(NotReady(reason))
                   else if JobAdmitted(old(slots), job) then Failure(DuplicateJob)
                   else Success(|old(slots)| + 1)
      ensures slots == if r.Success? && commits then old(slots)[r.value := Safety.Added(job)] else old(slots)
      ensures r.Success? <==>
                && allowance.configMatches && allowance.enabled && allowance.healthy
                && allowance.age.Some? && 0 <= allowance.age.value <= 20000 && |old(slots)| < 3
                && forall n :: n in old(slots) ==> old(slots)[n].job != job
      ensures r.Success? && commits ==>
                slots == old(slots)[|old(slots)| + 1 := Slot(job, Reserved, None, None, 100000000000000, None)]
      ensures r == Failure(NotReady(ConfigurationMismatch)) <==> !allowance.configMatches
      ensures r == Failure(NotReady(AdmissionDisabled)) <==> allowance.configMatches && !allowance.enabled
      ensures r == Failure(NotReady(Unhealthy)) <==>
                allowance.configMatches && allowance.enabled && !allowance.healthy
      ensures r == Failure(NotReady(WorkerStale)) <==>
                allowance.configMatches && allowance.enabled && allowance.healthy &&
                !(allowance.age.Some? && 0 <= allowance.age.value <= 20000)
      ensures r == Failure(NotReady(CapacityExhausted)) ==> |old(slots)| == 3
      ensures r == Failure(DuplicateJob) ==> exists n :: n in old(slots) && old(slots)[n].job == job
      ensures r != Failure(NotReady(GasBudgetExhausted))
    {
      WhenReady(allowance);
      admission := Some(Locked(job));
      Log(Lock(job));
      var capacity := ReadCapacity(allowance, slots);
      var slot := capacity.admitted + 1;
      admission := if capacity.reason == Ready then Some(Decided(job, slot)) else None;
      Log(ReadAllowance(allowance));
      if capacity.reason != Ready {
        return Failure(NotReady(capacity.reason));
      }
      Numbered();
      r := InsertDecided(job, slot, commits);
    }

    /** When there is capacity; three reservations never exceed the gas budget. */
    lemma WhenReady(allowance: Allowance)
      requires Valid()
      ensures |slots| <= 3
      ensures ReadCapacity(allowance, slots).reason == Ready <==>
                && allowance.configMatches && allowance.enabled && allowance.healthy
                && allowance.age.Some? && 0 <= allowance.age.value <= 20000 && |slots| < 3
      ensures ReadCapacity(allowance, slots).reason != GasBudgetExhausted
    {
      ValidInv();
      Guarantees.SumReservedIs(slots, MAX_JOBS);
    }

    /** The insert and the end of the transaction. */
    method InsertDecided(job: Job, slot: nat, commits: bool) returns (r: Result<nat, AdmissionError>)
      requires Valid() && admission == Some(Decided(job, slot)) && slot !in slots
      modifies this
      ensures Valid() && admission.None? && ledger == old(ledger) && worker == old(worker) && chain == old(chain)
      ensures r == if JobAdmitted(old(slots), job) then Failure(DuplicateJob) else Success(slot)
      ensures slots == if r.Success? && commits then old(slots)[slot := Safety.Added(job)] else old(slots)
    {
      if slot in slots || exists n :: n in slots && slots[n].job == job {
        admission := None;
        Log(InsertSlot);
        return Failure(DuplicateJob);
      }
      admission := Some(Inserted(job, slot));
      Log(InsertSlot);
      admission := None;
      if commits {
        slots := slots[slot := Slot(job, Reserved, None, None, GAS_RESERVATION, None)];
        Log(Commit);
      } else {
        Log(Abort);
      }
      r := Success(slot);
    }

    /// Statements of a submission

    static function UpdateWhere(slots: Slots, p: Slot -> bool, f: Slot -> Slot): Slots {
      map n | n in slots :: if p(slots[n]) then f(slots[n]) else slots[n]
    }

    static lemma UpdateOne(slots: Slots, p: Slot -> bool, f: Slot -> Slot, n: nat)
      requires n in slots && forall m :: m in slots && m != n ==> !p(slots[m])
      ensures UpdateWhere(slots, p, f) == if p(slots[n]) then slots[n := f(slots[n])] else slots
    {
    }

    /** The commerce job of a slot names that slot alone. */
    lemma JobNamesSlot(n: nat)
      requires Valid() && n in slots
      ensures forall m :: m in slots && m != n ==> slots[m].job != slots[n].job
    {
      ValidInv();
    }

    method HoldSlot(job: Job) returns (held: bool)
      requires Valid() && worker.Checked? && worker.slot in slots && slots[worker.slot].job == job
      modifies this
      ensures Valid() && Took(ReferenceSlots.HoldSlot) && Safety.Extends(old(slots), slots) && chain == old(chain)
      ensures held == (old(slots)[old(worker).slot].state == Claimed && old(slots)[old(worker).slot].txHash.None?)
      ensures worker == if held then Holding(old(worker).slot, old(worker).failed, old(worker).gasPrice)
                        else Running(old(worker).slot, old(worker).failed)
      ensures protocolId == old(protocolId) && ledger == old(ledger)
      ensures slots == var n := old(worker).slot;
                       if held then old(slots)[n := old(slots)[n].(state := Signing)] else old(slots)
    {
      ghost var n := worker.slot;
      JobNamesSlot(n);
      var matches := (s: Slot) => s.job == job && s.state == Claimed && s.txHash.None?;
      held := exists m :: m in slots && matches(slots[m]);
      UpdateOne(slots, matches, (s: Slot) => s.(state := Signing), n);
      slots := UpdateWhere(slots, matches, (s: Slot) => s.(state := Signing));
      worker := if held then Holding(n, worker.failed, worker.gasPrice) else Running(n, worker.failed);
      Log(ReferenceSlots.HoldSlot);
    }

    lemma SignedRow()
      requires Valid() && (worker.Signed? || worker.Holding?)
      ensures worker.slot in slots && slots[worker.slot].state == Signing
    {
      ValidInv();
    }

    method RecordInSlot(job: Job, hash: L.Hash, nonce: int)
      requires Valid() && worker.Signed? && worker.slot in slots && slots[worker.slot].job == job
      requires worker.txHash == hash && worker.nonce == nonce
      modifies this
      ensures Valid() && Took(ReferenceSlots.RecordInSlot) && Safety.Extends(old(slots), slots)
      ensures chain == old(chain) && protocolId == old(protocolId) && ledger == old(ledger)
      ensures worker == SlotRecorded(old(worker).slot, old(worker).failed, old(worker).gasPrice, hash)
      ensures slots == var n := old(worker).slot;
                       old(slots)[n := old(slots)[n].(state := Unknown, txHash := Some(hash), nonce := Some(nonce))]
    {
      ghost var n := worker.slot;
      SignedRow();
      JobNamesSlot(n);
      var matches := (s: Slot) => s.job == job && s.state == Signing;
      var record := (s: Slot) => s.(txHash := Some(hash), nonce := Some(nonce), state := Unknown);
      UpdateOne(slots, matches, record, n);
      slots := UpdateWhere(slots, matches, record);
      worker := SlotRecorded(n, worker.failed, worker.gasPrice, hash);
      Log(ReferenceSlots.RecordInSlot);
    }

    /** The direct UPDATE of the operation table; only a sole updated row lets the worker go on. */
    method RecordInLedger(job: Job, jobId: string, hash: L.Hash, now: L.Time) returns (recorded: bool)
      requires Valid() && worker.SlotRecorded? && worker.slot in slots && slots[worker.slot].job == job
      requires worker.txHash == hash && job in protocolId && protocolId[job] == jobId
      modifies this
      ensures Valid() && Took(ReferenceSlots.RecordInLedger(now)) && slots == old(slots) && chain == old(chain)
      ensures recorded == worker.ReadyToSend? == (|BoundedTargets(old(ledger), jobId)| == 1)
      ensures !recorded ==> worker == Running(old(worker).slot, old(worker).failed)
      ensures recorded ==>
                worker == ReadyToSend(old(worker).slot, old(worker).failed, old(worker).gasPrice, hash, worker.op)
      ensures protocolId == old(protocolId)
      ensures recorded ==> worker.op in old(ledger) && IsExact(old(ledger)[worker.op], jobId)
      ensures InFlight(old(ledger), ledger, jobId, hash, now)
    {
      ghost var before := State();
      var targets := UpdateLedger(jobId, hash, now);
      recorded := |targets| == 1;
      if recorded {
        var op :| op in targets;
        OnlyMember(targets, op);
        RecordEffect(before, now, jobId, op);
        worker := ReadyToSend(worker.slot, worker.failed, worker.gasPrice, hash, op);
      } else {
        RecordRefused(before, now, jobId);
        worker := Running(worker.slot, worker.failed);
      }
      Log(ReferenceSlots.RecordInLedger(now));
    }

    /** The submission of this job on the bounded deployment that nobody has signed yet. */
    static predicate IsExact(row: L.Row, jobId: string) {
      row.chainId == 97 && row.contract == "0xa206c0517b6371c6638cd9e4a42cc9f02a33b0de" && row.jobId == Some(jobId) &&
      row.kind == L.Submit && row.status == L.AwaitingSignature && row.txHash == None
    }

    /** Every such row has received the hash, and no other row has changed. */
    static ghost predicate InFlight(before: L.Table, after: L.Table, jobId: string, hash: L.Hash, now: L.Time) {
      after.Keys == before.Keys &&
      forall id :: id in before ==>
        after[id] == if IsExact(before[id], jobId)
                     then before[id].(txHash := Some(hash), status := L.Unknown,
                                      failureCode := Some("BOUNDED_DISPATCH_IN_FLIGHT"), updatedAt := now)
                     else before[id]
    }

    /** The rows that were updated. */
    method UpdateLedger(jobId: string, hash: L.Hash, now: L.Time) returns (targets: set<L.Id>)
      modifies this`ledger
      ensures targets == BoundedTargets(old(ledger), jobId)
      ensures ledger == L.Execute(old(ledger), L.BoundedDispatch(COMMERCE, jobId, hash, now))
      ensures InFlight(old(ledger), ledger, jobId, hash, now)
      ensures forall id :: id in targets <==> id in old(ledger) && IsExact(old(ledger)[id], jobId)
    {
      targets := set id | id in ledger && L.BoundedMatches(ledger[id], COMMERCE, jobId);
      ledger := map id | id in ledger ::
        if L.BoundedMatches(ledger[id], COMMERCE, jobId) then L.BoundedAssign(ledger[id], hash, now) else ledger[id];
    }

    static lemma RecordEffect(s: System, now: L.Time, jobId: string, op: L.Id)
      requires s.worker.SlotRecorded? && s.worker.slot in s.slots
      requires s.slots[s.worker.slot].job in s.protocolId && jobId == s.protocolId[s.slots[s.worker.slot].job]
      requires BoundedTargets(s.ledger, jobId) == {op}
      ensures var SlotRecorded(n, failed, gasPrice, hash) := s.worker;
              Step(s, ReferenceSlots.RecordInLedger(now))
              == s.(ledger := L.Execute(s.ledger, L.BoundedDispatch(COMMERCE, jobId, hash, now)),
                    worker := ReadyToSend(n, failed, gasPrice, hash, op))
    {
      assert op in BoundedTargets(s.ledger, jobId);
    }

    static lemma RecordRefused(s: System, now: L.Time, jobId: string)
      requires s.worker.SlotRecorded? && s.worker.slot in s.slots
      requires s.slots[s.worker.slot].job in s.protocolId && jobId == s.protocolId[s.slots[s.worker.slot].job]
      requires |BoundedTargets(s.ledger, jobId)| != 1
      ensures var SlotRecorded(n, failed, gasPrice, hash) := s.worker;
              Step(s, ReferenceSlots.RecordInLedger(now))
              == s.(ledger := L.Execute(s.ledger, L.BoundedDispatch(COMMERCE, jobId, hash, now)),
                    worker := Running(n, failed))
    {
      var targets := BoundedTargets(s.ledger, jobId);
      assert forall op :: targets == {op} ==> |targets| == 1;
    }

    static lemma OnlyMember(ids: set<L.Id>, op: L.Id)
      requires op in ids && |ids| == 1
      ensures ids == {op}
    {
      assert |ids - {op}| == 0;
    }

    /** The row once the receipt of its transaction is stored. */
    static function Confirmed(row: Slot, receipt: Receipt): Slot {
      row.(state := if receipt.success then Submitted else Blocked,
           gasSpent := Some(receipt.gasUsed * receipt.gasPrice))
    }

    /** `recordReceipt`; refused when the row's gas check refuses it. */
    method RecordReceiptOf(job: Job, hash: L.Hash, receipt: Receipt) returns (ok: bool)
      requires Valid() && exists n :: n in slots && slots[n].job == job && slots[n].txHash == Some(hash)
      modifies this`slots
      ensures forall n :: n in old(slots) && old(slots)[n].job == job ==>
                var after := ReferenceSlots.RecordReceipt(old(slots), n, hash, receipt);
                ok == after.Some? && slots == (if ok then after.value else old(slots))
      ensures forall n :: n in old(slots) && old(slots)[n].job == job ==>
                (ok <==> receipt.gasUsed * receipt.gasPrice <= old(slots)[n].gasReserved) &&
                slots == if ok then old(slots)[n := Confirmed(old(slots)[n], receipt)] else old(slots)
    {
      ghost var n :| n in slots && slots[n].job == job && slots[n].txHash == Some(hash);
      JobNamesSlot(n);
      var spent := receipt.gasUsed * receipt.gasPrice;
      var matches := (s: Slot) => s.job == job && s.txHash == Some(hash);
      var assign := (s: Slot) => s.(state := if receipt.success then Submitted else Blocked, gasSpent := Some(spent));
      ok := forall m :: m in slots && matches(slots[m]) ==> spent <= slots[m].gasReserved;
      if ok {
        UpdateOne(slots, matches, assign, n);
        slots := UpdateWhere(slots, matches, assign);
      }
    }

    /** A step that moves only the worker. */
    ghost method Move(a: Action, w: Worker)
      requires Valid() && Step(State(), a) == State().(worker := w)
      modifies this`worker, this`trace, this`history
      ensures Valid() && worker == w
    {
      worker := w;
      Log(a);
    }

    ghost method Throw()
      requires Valid() && InSubmit(worker)
      modifies this`worker, this`trace, this`history
      ensures Valid() && worker == Running(old(worker).slot, old(worker).failed)
    {
      Move(SubmitThrows, Running(worker.slot, worker.failed));
    }

    ghost method Transmit(gasUsed: nat)
      requires Valid() && worker.ReadyToSend? && worker.slot in slots && worker.op in ledger
      requires gasUsed <= GAS_LIMIT
      modifies this`worker, this`chain, this`trace, this`history
      ensures Valid()
      ensures var ReadyToSend(n, failed, gasPrice, hash, op) := old(worker);
              worker == Sent(n, failed, hash) &&
              chain == old(chain) + [Broadcast(n, hash, gasPrice, gasUsed, slots[n].txHash, ledger[op])]
    {
      var ReadyToSend(n, failed, gasPrice, hash, op) := worker;
      chain := chain + [Broadcast(n, hash, gasPrice, gasUsed, slots[n].txHash, ledger[op])];
      worker := Sent(n, failed, hash);
      Log(Send(gasUsed));
    }

    /// A submission

    /** Every check before the hold passes. */
    static predicate InOrder(slots: Slots, protocolId: map<Job, string>, n: nat, sub: Submission) {
      sub.checksPass && ChecksPass(slots, protocolId, n, sub.gasPrice, sub.gasEstimate)
    }

    /** Every answer from the send on is the one hoped for, and the fee fits the reservation. */
    static predicate Answered(sub: Submission) {
      sub.sameChain && sub.reachesChain && sub.sendReplies && sub.receipt.Some? &&
      sub.receipt.value.gasUsed * sub.receipt.value.gasPrice <= GAS_RESERVATION
    }

    static function Reply(sub: Submission): Result<bool, SubmitError> {
      if Answered(sub) then Success(sub.receipt.value.success) else Failure(TransactionUnknown(sub.txHash))
    }

    /** A submission that was sent to the node ends well exactly if every answer came and the fee is covered. */
    static predicate Answers(sub: Submission, r: Result<bool, SubmitError>) {
      var well := sub.sameChain && sub.reachesChain && sub.sendReplies && sub.receipt.Some? &&
                  sub.receipt.value.gasUsed * sub.receipt.value.gasPrice <= 100000000000000;
      match r
      case Success(ok) => well && ok == sub.receipt.value.success
      case Failure(TransactionUnknown(hash)) => !well && hash == sub.txHash
      case _ => true
    }

    static lemma ReplyAnswers(sub: Submission)
      ensures Answers(sub, Reply(sub))
    {
    }

    /** Every slot but `n` keeps its row. */
    static predicate KeepsOthers(before: Slots, after: Slots, n: nat) {
      forall m :: m in before && m != n ==> m in after && after[m] == before[m]
    }

    /** The slot has this row now, and every other slot keeps its own. */
    static predicate Leaves(before: Slots, after: Slots, n: nat, row: Slot) {
      KeepsOthers(before, after, n) && n in before && n in after && after[n] == row
    }

    /** The row of a slot whose transaction is signed, and of one whose outcome is known. */
    static function SignedFor(row: Slot, sub: Submission): Slot {
      row.(state := Unknown, txHash := Some(sub.txHash), nonce := Some(sub.nonce))
    }

    static function After(row: Slot, sub: Submission, r: Result<bool, SubmitError>): Slot {
      match r
      case Success(ok) =>
        SignedFor(row, sub).(
          state := if ok then Submitted else Blocked,
          gasSpent := if sub.receipt.Some? then Some(sub.receipt.value.gasUsed * sub.receipt.value.gasPrice) else None)
      case Failure(e) => if e.CheckFailed? || e.AlreadyAttempted? then row else SignedFor(row, sub)
    }

    /** The transaction goes out exactly when the update was exact and the node can be reached. */
    ghost predicate Sends(before: seq<Broadcast>, n: nat, sub: Submission, r: Result<bool, SubmitError>)
      reads this
    {
      var sends := sub.sameChain && sub.reachesChain &&
                   (r.Success? || r.error == TransactionUnknown(sub.txHash));
      if sends then
        |chain| == |before| + 1 && before <= chain && n in slots &&
        var b := chain[|before|];
        b.slot == n && b.txHash == sub.txHash && b.gasPrice == sub.gasPrice && b.gasUsed == sub.gasUsed &&
        b.slotHash == Some(sub.txHash)
      else chain == before
    }

    /**
     `boundedSubmit` on the slot of `job`.  A slot that is not `claimed` without a hash is never
     broadcast; a success is one broadcast whose hash and fee are on the row.  The answer is
     fixed by the checks, the slot, the number of ledger rows updated and the network.
     */
    method BoundedSubmit(job: Job, sub: Submission, others: Schedule) returns (r: Result<bool, SubmitError>)
      requires Valid() && worker.Running? && worker.slot in slots && slots[worker.slot].job == job
      requires OnlyOthers(others) && sub.gasUsed <= GAS_LIMIT
      modifies this
      ensures Valid() && Safety.Extends(old(slots), slots)
      ensures worker == Running(old(worker).slot, old(worker).failed || r == Success(false))
      ensures Progress(old(chain), old(worker).slot, sub, r)
      ensures r.Failure? && r.error in {CheckFailed, AlreadyAttempted} ==> chain == old(chain)
      ensures r == Failure(CheckFailed) <==> !InOrder(old(slots), old(protocolId), old(worker).slot, sub)
      ensures r == Failure(AlreadyAttempted) <==>
                InOrder(old(slots), old(protocolId), old(worker).slot, sub) && !Claimable(old(slots)[old(worker).slot])
      ensures r in {Failure(CheckFailed), Failure(AlreadyAttempted), Failure(ExactOperationRequired), Reply(sub)}
      ensures NobodyElse(others) && InOrder(old(slots), old(protocolId), old(worker).slot, sub) &&
              Claimable(old(slots)[old(worker).slot]) ==>
                (r == Failure(ExactOperationRequired) <==>
                 |BoundedTargets(old(ledger), old(protocolId)[job])| != 1)
      ensures protocolId == old(protocolId)
      ensures r == Failure(CheckFailed) ==> slots == old(slots) && ledger == old(ledger)
      ensures r == Failure(CheckFailed) <==>
                !(&& sub.checksPass && sub.gasPrice <= 250000000 && sub.gasEstimate * 12 / 10 <= 400000
                  && job in old(protocolId) && old(protocolId)[job] != "1171"
                  && forall m :: m in old(slots) ==> old(slots)[m].state !in {Blocked, Signing, Unknown})
      ensures r == Failure(AlreadyAttempted) <==>
                r != Failure(CheckFailed) &&
                (old(slots)[old(worker).slot].state != Claimed || old(slots)[old(worker).slot].txHash != None)
      ensures var n := old(worker).slot;
              Leaves(old(slots), slots, n,
                     After(old(slots)[n], sub, r))
      ensures Sends(old(chain), old(worker).slot, sub, r)
      ensures Answers(sub, r)
    {
      ghost var n, failed := worker.slot, worker.failed;
      WhatIsChecked(slots, protocolId, n, sub);
      ReplyAnswers(sub);
      if !sub.checksPass || job !in protocolId || protocolId[job] == BASELINE_JOB || !Healthy(slots) {
        return Failure(CheckFailed);
      }
      if sub.gasPrice > GAS_PRICE || sub.gasEstimate * 12 / 10 > GAS_LIMIT {
        return Failure(CheckFailed);
      }
      assert InOrder(slots, protocolId, n, sub);
      Move(CheckSubmit(sub.gasPrice, sub.gasEstimate), Checked(n, failed, sub.gasPrice));
      r := HoldAndSend(job, sub, others);
      KeptExtends(old(slots), slots, n);
    }

    static lemma KeptExtends(before: Slots, after: Slots, n: nat)
      requires KeepsOthers(before, after, n) && n in before && n in after
      requires after[n].job == before[n].job && after[n].gasReserved == before[n].gasReserved
      requires before[n].txHash.Some? ==> after[n].txHash == before[n].txHash
      ensures Safety.Extends(before, after)
    {
    }

    /** Every limit and check, one by one. */
    static lemma WhatIsChecked(slots: Slots, protocolId: map<Job, string>, n: nat, sub: Submission)
      requires n in slots
      ensures InOrder(slots, protocolId, n, sub) <==>
                && sub.checksPass && sub.gasPrice <= 250000000 && sub.gasEstimate * 12 / 10 <= 400000
                && slots[n].job in protocolId && protocolId[slots[n].job] != "1171"
                && forall m :: m in slots ==> slots[m].state !in {Blocked, Signing, Unknown}
    {
    }

    static predicate Claimable(slot: Slot) {
      slot.state == Claimed && slot.txHash.None?
    }

    static ghost predicate NobodyElse(others: Schedule) {
      forall i {:trigger others(i)} :: others(i) == []
    }

    /** At most one broadcast, of this slot; with an answer, its hash and its outcome are on the row. */
    ghost predicate Progress(before: seq<Broadcast>, n: nat, sub: Submission, r: Result<bool, SubmitError>)
      reads this
    {
      && before <= chain && |chain| <= |before| + 1
      && (chain != before ==> chain[|before|].slot == n && n in slots && slots[n].txHash.Some?)
      && (r.Success? ==>
            |chain| == |before| + 1 && n in slots && chain[|before|].txHash == sub.txHash &&
            slots[n].txHash == Some(sub.txHash) && slots[n].state == (if r.value then Submitted else Blocked))
    }

    /** From the checks to the receipt. */
    method HoldAndSend(job: Job, sub: Submission, others: Schedule) returns (r: Result<bool, SubmitError>)
      requires Valid() && worker.Checked? && worker.slot in slots && slots[worker.slot].job == job && job in protocolId
      requires worker.gasPrice == sub.gasPrice
      requires OnlyOthers(others) && sub.gasUsed <= GAS_LIMIT
      modifies this
      ensures Valid()
      ensures worker == Running(old(worker).slot, old(worker).failed || r == Success(false))
      ensures r == Failure(AlreadyAttempted) <==> !Claimable(old(slots)[old(worker).slot])
      ensures r in {Failure(AlreadyAttempted), Failure(ExactOperationRequired), Reply(sub)}
      ensures NobodyElse(others) && Claimable(old(slots)[old(worker).slot]) ==>
                (r == Failure(ExactOperationRequired) <==>
                 |BoundedTargets(old(ledger), old(protocolId)[job])| != 1)
      ensures protocolId == old(protocolId)
      ensures var n := old(worker).slot;
              Leaves(old(slots), slots, n,
                     After(old(slots)[n], sub, r))
      ensures Sends(old(chain), old(worker).slot, sub, r)
    {
      Interfere(others(0));
      var held := HoldSlot(job);
      if !held {
        return Failure(AlreadyAttempted);
      }
      r := SignAndSend(job, sub, others);
    }

    /** From the held slot to the stored hash. */
    method PersistHash(job: Job, sub: Submission, others: Schedule)
      requires Valid() && worker.Holding? && worker.slot in slots && slots[worker.slot].job == job
      requires worker.gasPrice == sub.gasPrice
      requires OnlyOthers(others)
      modifies this
      ensures Valid() && chain == old(chain) && protocolId == old(protocolId)
      ensures worker == SlotRecorded(old(worker).slot, old(worker).failed, old(worker).gasPrice, sub.txHash)
      ensures NobodyElse(others) ==> ledger == old(ledger)
      ensures var n := old(worker).slot;
              Leaves(old(slots), slots, n,
                     SignedFor(old(slots)[n], sub))
    {
      ghost var n, failed, gasPrice := worker.slot, worker.failed, worker.gasPrice;
      Interfere(others(1));
      Move(Sign(sub.txHash, sub.nonce), Signed(n, failed, gasPrice, sub.txHash, sub.nonce));
      RecordInSlot(job, sub.txHash, sub.nonce);
    }

    /** From the stored hash to the receipt. */
    method SendAndConfirm(job: Job, sub: Submission, others: Schedule) returns (r: Result<bool, SubmitError>)
      requires Valid() && worker.ReadyToSend? && worker.slot in slots && slots[worker.slot].job == job
      requires worker.txHash == sub.txHash && worker.gasPrice == sub.gasPrice
      requires OnlyOthers(others) && sub.gasUsed <= GAS_LIMIT
      modifies this
      ensures Valid()
      ensures worker == Running(old(worker).slot, old(worker).failed || r == Success(false))
      ensures r == Reply(sub)
      ensures protocolId == old(protocolId)
      ensures var n := old(worker).slot;
              Leaves(old(slots), slots, n,
                     if r.Success? then Confirmed(old(slots)[n], sub.receipt.value) else old(slots)[n])
      ensures Sends(old(chain), old(worker).slot, sub, r)
    {
      Underway();
      if !sub.sameChain || !sub.reachesChain {
        Throw();
        return Failure(TransactionUnknown(sub.txHash));
      }
      Transmit(sub.gasUsed);
      Interfere(others(4));
      if !sub.sendReplies || sub.receipt.None? {
        Throw();
        return Failure(TransactionUnknown(sub.txHash));
      }
      r := TakeReceipt(job, sub.txHash, sub.receipt.value);
    }

    /** From the held slot to the receipt. */
    method SignAndSend(job: Job, sub: Submission, others: Schedule) returns (r: Result<bool, SubmitError>)
      requires Valid() && worker.Holding? && worker.slot in slots && slots[worker.slot].job == job && job in protocolId
      requires worker.gasPrice == sub.gasPrice
      requires OnlyOthers(others) && sub.gasUsed <= GAS_LIMIT
      modifies this
      ensures Valid()
      ensures worker == Running(old(worker).slot, old(worker).failed || r == Success(false))
      ensures r == Failure(ExactOperationRequired) || r == Reply(sub)
      ensures NobodyElse(others) ==>
                (r == Failure(ExactOperationRequired) <==>
                 |BoundedTargets(old(ledger), old(protocolId)[job])| != 1)
      ensures protocolId == old(protocolId)
      ensures var n := old(worker).slot;
              Leaves(old(slots), slots, n,
                     if r.Success? then Confirmed(SignedFor(old(slots)[n], sub), sub.receipt.value)
                     else SignedFor(old(slots)[n], sub))
      ensures Sends(old(chain), old(worker).slot, sub, r)
    {
      PersistHash(job, sub, others);
      Interfere(others(2));
      var recorded := RecordInLedger(job, protocolId[job], sub.txHash, sub.now);
      if !recorded {
        return Failure(ExactOperationRequired);
      }
      Interfere(others(3));
      r := SendAndConfirm(job, sub, others);
    }

    static lemma ReceiptEffect(s: System, receipt: Receipt)
      requires s.worker.Sent?
      ensures var Sent(n, failed, hash) := s.worker;
              var after := ReferenceSlots.RecordReceipt(s.slots, n, hash, receipt);
              Step(s, AwaitReceipt(receipt))
              == s.(slots := if after.Some? then after.value else s.slots,
                    worker := Running(n, failed || (after.Some? && !receipt.success)))
    {
    }

    method TakeReceipt(job: Job, hash: L.Hash, receipt: Receipt) returns (r: Result<bool, SubmitError>)
      requires Valid() && worker.Sent? && worker.slot in slots && slots[worker.slot].job == job && worker.txHash == hash
      modifies this
      ensures Valid() && chain == old(chain)
      ensures worker == Running(old(worker).slot, old(worker).failed || r == Success(false))
      ensures r == if receipt.gasUsed * receipt.gasPrice <= GAS_RESERVATION then Success(receipt.success)
                   else Failure(TransactionUnknown(hash))
      ensures protocolId == old(protocolId)
      ensures var n := old(worker).slot;
              Leaves(old(slots), slots, n,
                     if r.Success? then Confirmed(old(slots)[n], receipt) else old(slots)[n])
    {
      Underway();
      ghost var n, failed := worker.slot, worker.failed;
      ReceiptEffect(State(), receipt);
      var ok := RecordReceiptOf(job, hash, receipt);
      worker := Running(n, failed || (ok && !receipt.success));
      Log(AwaitReceipt(receipt));
      r := if ok then Success(receipt.success) else Failure(TransactionUnknown(hash));
    }

    /// A tick

    /** `ORDER BY slot LIMIT 1`. */
    method FirstWhere(p: Slot -> bool) returns (first: Option<nat>)
      requires Valid()
      ensures first.None? ==> forall n :: n in slots ==> !p(slots[n])
      ensures first.Some? ==> first.value in slots && p(slots[first.value]) &&
                              forall m :: m in slots && m < first.value ==> !p(slots[m])
    {
      Numbered();
      for n := 1 to |slots| + 1
        invariant forall m :: m in slots && m < n ==> !p(slots[m])
      {
        if p(slots[n]) {
          return Some(n);
        }
      }
      first := None;
    }

    /** The last UPDATE of a tick, which selects by commerce job. */
    static function Closed(slots: Slots, job: Job, result: RunResult): Slots {
      var next := if IsSuccess(result) then Reconciled else if result == RanPending then Unknown else Blocked;
      if result == RanNothing then slots
      else
        map m | m in slots ::
          if slots[m].job == job && (IsSuccess(result) ==> slots[m].txHash.Some?) then slots[m].(state := next)
          else slots[m]
    }

    static lemma ClosedIsAfterRun(slots: Slots, n: nat, result: RunResult)
      requires n in slots && forall m :: m in slots && m != n ==> slots[m].job != slots[n].job
      ensures Closed(slots, slots[n].job, result) == AfterRun(slots, n, result)
    {
    }

    /** What the closing update leaves of the row, result by result. */
    static predicate Closes(row: Slot, closed: Slot, result: RunResult) {
      match result
      case RanManualReview => closed == row.(state := Blocked)
      case RanReverted => closed == row.(state := Blocked)
      case RanPending => closed == row.(state := Unknown)
      case RanNothing => closed == row
      case _ => closed == if row.txHash == None then row else row.(state := Reconciled)
    }

    /** The update that closes a tick; the table is the one the state machine reaches. */
    method CloseRun(job: Job, result: RunResult)
      requires Valid() && worker.Finished? && worker.result == result
      requires worker.slot in slots && slots[worker.slot].job == job
      modifies this
      ensures Valid() && worker.Idle? && chain == old(chain) && Safety.Extends(old(slots), slots)
      ensures slots == AfterRun(old(slots), old(worker).slot, result)
      ensures KeepsOthers(old(slots), slots, old(worker).slot)
      ensures Closes(old(slots)[old(worker).slot], slots[old(worker).slot], result)
    {
      ghost var n := worker.slot;
      JobNamesSlot(n);
      ClosedIsAfterRun(slots, n, result);
      slots := Closed(slots, job, result);
      worker := Idle;
      Log(ApplyResult);
    }

    static predicate Passes(s: Setting, sub: Submission) {
      InOrder(s.slots, s.protocolId, s.n, sub)
    }

    static ghost predicate PassAlike(s: Setting, t: Setting) {
      forall sub :: Passes(s, sub) <==> Passes(t, sub)
    }

    /**
     What the submissions of one run make of the row: the first that passes the checks holds a
     claimed row; nothing happens if there is none, or the row cannot be held.
     */
    static ghost predicate Attempted(row: Slot, tried: Slot, attempts: seq<Submission>, s: Setting) {
      if row.state == Claimed && row.txHash == None && exists i :: 0 <= i < |attempts| && Passes(s, attempts[i])
      then HeldByFirst(row, tried, attempts, s)
      else tried == row
    }

    static ghost predicate HeldByFirst(row: Slot, tried: Slot, attempts: seq<Submission>, s: Setting) {
      exists i :: 0 <= i < |attempts| && Passes(s, attempts[i]) && Held(row, tried, attempts[i]) &&
                  forall j :: 0 <= j < i ==> !Passes(s, attempts[j])
    }

    /** The hash is on the row; so is the outcome, if the update was exact and every answer came. */
    static predicate Held(row: Slot, tried: Slot, sub: Submission) {
      tried == SignedFor(row, sub) ||
      (sub.sameChain && sub.reachesChain && sub.sendReplies && sub.receipt.Some? &&
       sub.receipt.value.gasUsed * sub.receipt.value.gasPrice <= 100000000000000 &&
       tried == Confirmed(SignedFor(row, sub), sub.receipt.value))
    }

    /** A run: its submissions, then the closing update.  After a reverted submission a success is a revert. */
    static ghost predicate RunsTo(row: Slot, closed: Slot, attempts: seq<Submission>, s: Setting,
                                  result: RunResult, ran: RunResult) {
      exists tried :: Attempted(row, tried, attempts, s) && Closes(tried, closed, ran) &&
        ran == if tried != row && tried.state == Blocked && result in {RanSubmitted, RanReplayed, RanReconciled}
               then RanReverted else result
    }

    /** At most one broadcast was added: of this slot, whose row had no hash. */
    static predicate SendsAtMostOne(before: seq<Broadcast>, after: seq<Broadcast>, n: nat, row: Slot) {
      before <= after && |after| <= |before| + 1 &&
      (after != before ==> after[|before|].slot == n && row.txHash.None?)
    }

    /**
     One run of the provider runner on a slot: any number of submissions, then a result.  A run
     in which a submission came back FAILED does not report success; a run that throws or
     reports nothing leaves the slot as it is.
     */
    method RunSlot(job: Job, attempts: seq<Submission>, result: RunResult, others: Schedule) returns (ran: RunResult)
      requires Valid() && worker.Running? && !worker.failed && worker.slot in slots && slots[worker.slot].job == job
      requires OnlyOthers(others) && forall sub :: sub in attempts ==> sub.gasUsed <= GAS_LIMIT
      modifies this
      ensures Valid() && worker.Idle? && Safety.Extends(old(slots), slots)
      ensures SendsAtMostOne(old(chain), chain, old(worker).slot, old(slots)[old(worker).slot])
      ensures IsSuccess(ran) && slots[old(worker).slot].txHash.Some? ==> slots[old(worker).slot].state == Reconciled
      ensures ran == result || (IsSuccess(result) && ran == RanReverted)
      ensures KeepsOthers(old(slots), slots, old(worker).slot)
      ensures RunsTo(old(slots)[old(worker).slot], slots[old(worker).slot], attempts,
                     old(Setting(slots, protocolId, worker.slot)), result, ran)
    {
      var failed := Attempt(job, attempts, others);
      ghost var tried := slots[worker.slot];
      ran := if failed && IsSuccess(result) then RanReverted else result;
      Finish(job, ran, others(5));
      RunsVia(old(slots)[old(worker).slot], tried, slots[old(worker).slot], attempts,
              old(Setting(slots, protocolId, worker.slot)), result, ran);
    }

    static lemma RunsVia(row: Slot, tried: Slot, closed: Slot, attempts: seq<Submission>,
                         s: Setting, result: RunResult, ran: RunResult)
      requires Attempted(row, tried, attempts, s) && Closes(tried, closed, ran)
      requires ran == if tried != row && tried.state == Blocked && IsSuccess(result) then RanReverted else result
      ensures RunsTo(row, closed, attempts, s, result, ran)
      ensures IsSuccess(ran) && closed.txHash.Some? ==> closed.state == Reconciled
      ensures ran == result || (IsSuccess(result) && ran == RanReverted)
    {
    }

    method Finish(job: Job, result: RunResult, others: seq<Action>)
      requires Valid() && worker.Running? && worker.slot in slots && slots[worker.slot].job == job
      requires !(worker.failed && IsSuccess(result)) && forall a :: a in others ==> IsOther(a)
      modifies this
      ensures Valid() && worker.Idle? && chain == old(chain) && Safety.Extends(old(slots), slots)
      ensures KeepsOthers(old(slots), slots, old(worker).slot)
      ensures Closes(old(slots)[old(worker).slot], slots[old(worker).slot], result)
    {
      ghost var n := worker.slot;
      Move(RunReturns(result), Finished(n, result));
      Interfere(others);
      CloseRun(job, result);
    }

    method Attempt(job: Job, attempts: seq<Submission>, others: Schedule) returns (failed: bool)
      requires Valid() && worker.Running? && !worker.failed && worker.slot in slots && slots[worker.slot].job == job
      requires OnlyOthers(others) && forall sub :: sub in attempts ==> sub.gasUsed <= GAS_LIMIT
      modifies this
      ensures Valid() && worker == Running(old(worker).slot, failed) && Safety.Extends(old(slots), slots)
      ensures SendsAtMostOne(old(chain), chain, old(worker).slot, old(slots)[old(worker).slot])
      ensures KeepsOthers(old(slots), slots, old(worker).slot)
      ensures Attempted(old(slots)[old(worker).slot], slots[old(worker).slot], attempts,
                        old(Setting(slots, protocolId, worker.slot)))
      ensures failed <==> slots[old(worker).slot] != old(slots)[old(worker).slot] &&
                          slots[old(worker).slot].state == Blocked
    {
      ghost var n, s := worker.slot, Setting(slots, protocolId, worker.slot);
      failed := false;
      for i := 0 to |attempts|
        invariant Valid() && Safety.Extends(old(slots), slots) && worker == Running(n, failed)
        invariant SendsAtMostOne(old(chain), chain, n, old(slots)[n])
        invariant chain != old(chain) ==> slots[n].txHash.Some?
        invariant KeepsOthers(old(slots), slots, n) && protocolId == old(protocolId)
        invariant slots[n] == old(slots)[n] ==>
                    !Claimable(slots[n]) || (slots == old(slots) && forall j :: 0 <= j < i ==> !Passes(s, attempts[j]))
        invariant slots[n] != old(slots)[n] ==>
                    Claimable(old(slots)[n]) && HeldByFirst(old(slots)[n], slots[n], attempts, s)
        invariant slots[n] != old(slots)[n] ==> slots[n].txHash.Some?
        invariant failed <==> slots[n] != old(slots)[n] && slots[n].state == Blocked
      {
        HashedNotClaimed(n);
        ghost var row := slots[n];
        var r := BoundedSubmit(job, attempts[i], others);
        if Claimable(row) && Passes(s, attempts[i]) {
          AfterHeld(row, attempts[i], r);
          FirstHeld(row, slots[n], attempts, s, i);
        }
        failed := failed || r == Success(false);
      }
    }

    static lemma AfterHeld(row: Slot, sub: Submission, r: Result<bool, SubmitError>)
      requires Claimable(row) && r in {Failure(ExactOperationRequired), Reply(sub)}
      ensures Held(row, After(row, sub, r), sub) && After(row, sub, r).txHash.Some?
      ensures r == Success(false) <==> After(row, sub, r).state == Blocked
    {
    }

    static lemma FirstHeld(row: Slot, tried: Slot, attempts: seq<Submission>, s: Setting, i: nat)
      requires i < |attempts| && Passes(s, attempts[i]) && Held(row, tried, attempts[i])
      requires forall j :: 0 <= j < i ==> !Passes(s, attempts[j])
      ensures HeldByFirst(row, tried, attempts, s)
    {
    }

    lemma HashedNotClaimed(n: nat)
      requires Valid() && n in slots
      ensures slots[n].txHash.Some? ==> slots[n].state != Claimed
    {
      ValidInv();
      assert Safety.SlotOk(slots[n]);
    }

    /** The claim of the next funded job; only with no slot pending and none blocked. */
    method ClaimNext(checksPass: bool, funded: set<Job>, others: Schedule) returns (outcome: TickOutcome)
      requires Valid() && worker.NothingPending? && OnlyOthers(others)
      modifies this
      ensures Valid() && worker.Idle? && chain == old(chain) && Safety.Extends(old(slots), slots)
      ensures IsClaimOutcome(outcome)
      ensures outcome == CheckRefused <==> !checksPass || !Healthy(old(slots))
      ensures outcome == CheckRefused ==> slots == old(slots)
      ensures outcome == NothingToClaim ==> forall n :: n in slots ==> !IsClaimable(slots[n], funded)
      ensures outcome.ClaimedJob? ==>
                outcome.job in funded && AllQuiet(old(slots)) && HoldsClaim(slots, outcome.job)
      ensures outcome == CheckRefused <==>
                !checksPass || exists n :: n in old(slots) && old(slots)[n].state in {Blocked, Signing, Unknown}
      ensures outcome in {CheckRefused, NothingToClaim} ==>
                forall n :: n in old(slots) ==> n in slots && slots[n] == old(slots)[n]
      ensures outcome.ClaimedJob? ==> ClaimsLowest(old(slots), slots, outcome.job, funded)
    {
      QuietIfHealthy();
      if !checksPass || !Healthy(slots) {
        Quit();
        return CheckRefused;
      }
      Move(CheckHealth, ClaimReady);
      Interfere(others(6));
      ghost var mid := slots;
      outcome := ClaimFirst(funded);
      if outcome.ClaimedJob? {
        ClaimsLater(old(slots), mid, slots, outcome.job, funded);
      }
    }

    /** Slots that others add before the claim do not matter to the rows there were. */
    static lemma ClaimsLater(before: Slots, mid: Slots, after: Slots, job: Job, funded: set<Job>)
      requires forall n :: n in before ==> n in mid && mid[n] == before[n]
      requires ClaimsLowest(mid, after, job, funded)
      ensures ClaimsLowest(before, after, job, funded)
    {
      var n :|
        && n in after && after[n].job == job && job in funded && after[n].state == Claimed
        && KeepsOthers(mid, after, n)
        && (n in mid ==> mid[n].state == Reserved && after[n] == mid[n].(state := Claimed))
        && forall m :: m in after && m < n ==> after[m].state != Reserved || after[m].job !in funded;
      assert KeepsOthers(before, after, n);
    }

    static predicate IsClaimOutcome(outcome: TickOutcome) {
      outcome == CheckRefused || outcome == NothingToClaim || outcome.ClaimedJob?
    }

    /** The job of the lowest reserved slot whose job is funded; that slot is claimed, every other keeps its row. */
    static ghost predicate ClaimsLowest(before: Slots, after: Slots, job: Job, funded: set<Job>) {
      exists n ::
        && n in after && after[n].job == job && job in funded && after[n].state == Claimed
        && KeepsOthers(before, after, n)
        && (n in before ==> before[n].state == Reserved && after[n] == before[n].(state := Claimed))
        && forall m :: m in after && m < n ==> after[m].state != Reserved || after[m].job !in funded
    }

    static predicate AllQuiet(slots: Slots) {
      forall n :: n in slots ==> !Safety.IsActive(slots[n].state)
    }

    static predicate HoldsClaim(slots: Slots, job: Job) {
      exists n :: n in slots && slots[n].job == job && slots[n].state == Claimed
    }

    lemma QuietIfHealthy()
      requires Valid() && worker.NothingPending?
      ensures Healthy(slots) ==> AllQuiet(slots)
    {
      ValidInv();
    }

    method ClaimFirst(funded: set<Job>) returns (outcome: TickOutcome)
      requires Valid() && worker.ClaimReady?
      modifies this
      ensures Valid() && worker.Idle? && chain == old(chain) && Safety.Extends(old(slots), slots)
      ensures outcome == NothingToClaim || outcome.ClaimedJob?
      ensures outcome.ClaimedJob? ==> outcome.job in funded && HoldsClaim(slots, outcome.job)
      ensures outcome == NothingToClaim ==>
                slots == old(slots) && forall n :: n in slots ==> !IsClaimable(slots[n], funded)
      ensures outcome == NothingToClaim <==>
                forall n :: n in old(slots) ==> old(slots)[n].state != Reserved || old(slots)[n].job !in funded
      ensures outcome.ClaimedJob? ==> ClaimsLowest(old(slots), slots, outcome.job, funded)
    {
      var first := FirstWhere((s: Slot) => IsClaimable(s, funded));
      if first.None? {
        NoClaimEffect(State(), funded);
        Move(ClaimSlot(funded), Idle);
        return NothingToClaim;
      }
      outcome := ClaimedJob(slots[first.value].job);
      ClaimRow(first.value, funded);
    }

    method ClaimRow(n: nat, funded: set<Job>)
      requires Valid() && worker.ClaimReady? && FirstClaimable(slots, n, funded)
      modifies this
      ensures Valid() && worker.Idle? && chain == old(chain) && Safety.Extends(old(slots), slots)
      ensures slots == old(slots)[n := old(slots)[n].(state := Claimed)]
    {
      ClaimEffect(State(), n, funded);
      slots := slots[n := slots[n].(state := Claimed)];
      worker := Idle;
      Log(ClaimSlot(funded));
    }

    static lemma NoClaimEffect(s: System, funded: set<Job>)
      requires s.worker.ClaimReady? && forall n :: n in s.slots ==> !IsClaimable(s.slots[n], funded)
      ensures Step(s, ClaimSlot(funded)) == s.(worker := Idle)
    {
    }

    static lemma ClaimEffect(s: System, n: nat, funded: set<Job>)
      requires s.worker.ClaimReady? && FirstClaimable(s.slots, n, funded)
      ensures Step(s, ClaimSlot(funded)) == s.(slots := s.slots[n := s.slots[n].(state := Claimed)], worker := Idle)
    {
      assert forall m :: FirstClaimable(s.slots, m, funded) ==> m == n;
    }

    /** A tick that throws: the process goes back to waiting. */
    ghost method Quit()
      requires Valid()
      modifies this`worker, this`trace, this`history
      ensures Valid() && worker.Idle?
    {
      Move(Crash, Idle);
    }

    static lemma SelectEffect(s: System, n: nat)
      requires s.worker.Idle? && FirstPending(s.slots, n)
      ensures Step(s, SelectPending)
           == s.(worker := if s.slots[n].state == Signing then Idle else Selected(n, s.slots[n].txHash))
    {
      assert forall m :: FirstPending(s.slots, m) ==> m == n;
    }

    lemma SelectedHash()
      requires Valid() && worker.Selected?
      ensures worker.slot in slots && slots[worker.slot].txHash == worker.hash
    {
      ValidInv();
    }

    /** The receipt of a stored hash, before anything is run again. */
    method FetchStored(job: Job, hash: L.Hash, receipt: Receipt) returns (ok: bool)
      requires Valid() && worker.Selected? && worker.hash == Some(hash)
      requires worker.slot in slots && slots[worker.slot].job == job
      modifies this
      ensures Valid() && chain == old(chain) && Safety.Extends(old(slots), slots)
      ensures worker == if ok && receipt.success then Running(old(worker).slot, false) else Idle
      ensures !ok ==> slots == old(slots)
      ensures ok && !receipt.success ==> slots[old(worker).slot].state == Blocked
      ensures protocolId == old(protocolId)
      ensures ok <==> receipt.gasUsed * receipt.gasPrice <= old(slots)[old(worker).slot].gasReserved
      ensures slots == if ok then old(slots)[old(worker).slot := Confirmed(old(slots)[old(worker).slot], receipt)]
                       else old(slots)
    {
      ghost var n := worker.slot;
      SelectedHash();
      ok := RecordReceiptOf(job, hash, receipt);
      worker := if ok && receipt.success then Running(n, false) else Idle;
      Log(FetchReceipt(Some(receipt)));
    }

    /**
     `tick`.  Whatever the network and the runner answer, a tick sends at most one transaction:
     for the first pending slot, and only if that slot had no hash.  It claims a job only when
     every slot is `reserved` or `reconciled`, and it does not do both.
     */
    method Tick(found: Option<Receipt>, attempts: seq<Submission>, result: RunResult, checksPass: bool,
                funded: set<Job>, others: Schedule) returns (outcome: TickOutcome)
      requires Valid() && worker.Idle? && OnlyOthers(others)
      requires forall sub :: sub in attempts ==> sub.gasUsed <= GAS_LIMIT
      modifies this
      ensures Valid() && worker.Idle? && Safety.Extends(old(slots), slots)
      ensures old(chain) <= chain && |chain| <= |old(chain)| + 1
      ensures chain != old(chain) ==>
                FirstPending(old(slots), chain[|old(chain)|].slot) &&
                old(slots)[chain[|old(chain)|].slot].txHash.None?
      ensures IsClaimOutcome(outcome) <==> forall n :: n in old(slots) ==> !IsPending(old(slots)[n].state)
      ensures outcome == CheckRefused ==> !checksPass || !Healthy(slots)
      ensures outcome == NothingToClaim ==> forall n :: n in slots ==> !IsClaimable(slots[n], funded)
      ensures outcome.ClaimedJob? ==>
                chain == old(chain) && outcome.job in funded && AllQuiet(old(slots)) && HoldsClaim(slots, outcome.job)
      ensures IsClaimOutcome(outcome) <==>
                forall n :: n in old(slots) ==> old(slots)[n].state in {Reserved, Reconciled, Blocked}
      ensures outcome in {CheckRefused, NothingToClaim} ==>
                forall n :: n in old(slots) ==> n in slots && slots[n] == old(slots)[n]
      ensures outcome.ClaimedJob? ==> ClaimsLowest(old(slots), slots, outcome.job, funded)
      ensures IsClaimOutcome(outcome) ==>
                (outcome == CheckRefused <==>
                 !checksPass || exists n :: n in old(slots) && old(slots)[n].state == Blocked)
      ensures !IsClaimOutcome(outcome) ==>
                exists n :: FirstPending(old(slots), n) && n in slots && KeepsOthers(old(slots), slots, n) &&
                  Settles(old(slots)[n], slots[n], found, attempts, old(Setting(slots, protocolId, n)), result, outcome)
    {
      var first := Select();
      if first.None? {
        outcome := ClaimTick(checksPass, funded, others);
        return;
      }
      var n := first.value;
      if slots[n].state == Signing {
        return SigningReview;
      }
      outcome := Work(n, found, attempts, result, others);
    }

    /** A tick that found nothing pending. */
    method ClaimTick(checksPass: bool, funded: set<Job>, others: Schedule) returns (outcome: TickOutcome)
      requires Valid() && worker.NothingPending? && OnlyOthers(others)
      requires forall n :: n in slots ==> !IsPending(slots[n].state)
      modifies this
      ensures Valid() && worker.Idle? && chain == old(chain) && Safety.Extends(old(slots), slots)
      ensures IsClaimOutcome(outcome)
      ensures outcome == CheckRefused ==> !checksPass || !Healthy(slots)
      ensures outcome == CheckRefused <==>
                !checksPass || exists n :: n in old(slots) && old(slots)[n].state == Blocked
      ensures outcome == NothingToClaim ==> forall n :: n in slots ==> !IsClaimable(slots[n], funded)
      ensures outcome in {CheckRefused, NothingToClaim} ==>
                forall n :: n in old(slots) ==> n in slots && slots[n] == old(slots)[n]
      ensures outcome.ClaimedJob? ==>
                outcome.job in funded && AllQuiet(old(slots)) && HoldsClaim(slots, outcome.job) &&
                ClaimsLowest(old(slots), slots, outcome.job, funded)
    {
      Interfere(others(7));
      outcome := ClaimNext(checksPass, funded, others);
    }

    /** The fee of a receipt fits the reservation of the row. */
    static predicate Fits(row: Slot, receipt: Receipt) {
      receipt.gasUsed * receipt.gasPrice <= row.gasReserved
    }

    /** What a tick does to the slot it selected, and what it then reports; no two cases overlap. */
    static ghost predicate Settles(before: Slot, after: Slot, found: Option<Receipt>, attempts: seq<Submission>,
                                   s: Setting, result: RunResult, outcome: TickOutcome) {
      match outcome
      case SigningReview => before.state == Signing && after == before
      case Ran(ran) =>
        && before.state != Signing
        && (before.txHash != None ==> found != None && Fits(before, found.value) && found.value.success)
        && RunsTo(if before.txHash == None then before else Confirmed(before, found.value), after, attempts, s,
                  result, ran)
      case _ => EndsEarly(before, after, found, outcome)
    }

    static predicate EndsEarly(before: Slot, after: Slot, found: Option<Receipt>, outcome: TickOutcome) {
      match outcome
      case PendingNoRebroadcast => before.state != Signing && before.txHash != None && found == None && after == before
      case ReceiptRefused => EndsWith(before, found) && !Fits(before, found.value) && after == before
      case SubmissionReverted =>
        EndsWith(before, found) && Fits(before, found.value) && !found.value.success &&
        after == Confirmed(before, found.value)
      case _ => false
    }

    static predicate EndsWith(before: Slot, found: Option<Receipt>) {
      before.state != Signing && before.txHash != None && found != None
    }

    /** The state in which a tick that ran the runner leaves the slot, result by result. */
    static lemma EndStates(before: Slot, after: Slot, found: Option<Receipt>, attempts: seq<Submission>,
                           s: Setting, result: RunResult, ran: RunResult)
      requires Safety.SlotOk(before) && before.state != Reconciled
      requires Settles(before, after, found, attempts, s, result, Ran(ran))
      ensures ran == RanManualReview || ran == RanReverted ==> after.state == Blocked
      ensures ran == RanPending ==> after.state == Unknown
      ensures ran in {RanSubmitted, RanReplayed, RanReconciled} ==>
                (after.state == Reconciled <==> after.txHash != None) && (after.txHash == None ==> after == before)
      ensures ran == RanNothing ==> after.state != Reconciled && (attempts == [] && found == None ==> after == before)
    {
      var start := if before.txHash == None then before else Confirmed(before, found.value);
      var tried :| Attempted(start, tried, attempts, s) && Closes(tried, after, ran);
    }

    /** A tick on a selected slot: its receipt if it has a hash, then the runner. */
    method Work(n: nat, found: Option<Receipt>, attempts: seq<Submission>, result: RunResult, others: Schedule)
        returns (outcome: TickOutcome)
      requires Valid() && n in slots && slots[n].state != Signing && worker == Selected(n, slots[n].txHash)
      requires OnlyOthers(others) && forall sub :: sub in attempts ==> sub.gasUsed <= GAS_LIMIT
      modifies this
      ensures Valid() && worker.Idle? && Safety.Extends(old(slots), slots) && !IsClaimOutcome(outcome)
      ensures SendsAtMostOne(old(chain), chain, n, old(slots)[n])
      ensures KeepsOthers(old(slots), slots, n)
      ensures Settles(old(slots)[n], slots[n], found, attempts, old(Setting(slots, protocolId, n)), result, outcome)
    {
      ghost var s := Setting(slots, protocolId, n);
      var next := Begin(n, found, others);
      if next.Some? {
        return next.value;
      }
      ghost var resumed := slots[n];
      var ran := RunFrom(n, slots[n].job, attempts, result, others, s);
      SettledByRun(old(slots)[n], resumed, slots[n], found, attempts, s, result, ran);
      outcome := Ran(ran);
    }

    /** The part of a tick before the runner; it may already end it. */
    method Begin(n: nat, found: Option<Receipt>, others: Schedule) returns (ends: Option<TickOutcome>)
      requires Valid() && n in slots && slots[n].state != Signing && worker == Selected(n, slots[n].txHash)
      requires OnlyOthers(others)
      modifies this
      ensures Valid() && Safety.Extends(old(slots), slots) && chain == old(chain) && KeepsOthers(old(slots), slots, n)
      ensures worker == if ends.None? then Running(n, false) else Idle
      ensures ends.Some? ==> EndsEarly(old(slots)[n], slots[n], found, ends.value)
      ensures ends.None? ==>
                if old(slots)[n].txHash == None
                then slots[n] == old(slots)[n] &&
                     PassAlike(Setting(slots, protocolId, n), old(Setting(slots, protocolId, n)))
                else found != None && Fits(old(slots)[n], found.value) && found.value.success &&
                     slots[n] == Confirmed(old(slots)[n], found.value)
    {
      var job, hash := slots[n].job, slots[n].txHash;
      Interfere(others(7));
      ends := Resume(job, hash, found);
      OthersPassAlike(old(slots), slots, protocolId, n);
    }

    static lemma SettledByRun(before: Slot, resumed: Slot, after: Slot, found: Option<Receipt>,
                              attempts: seq<Submission>, s: Setting, result: RunResult, ran: RunResult)
      requires before.state != Signing
      requires before.txHash != None ==> found != None && Fits(before, found.value) && found.value.success
      requires resumed == if before.txHash == None then before else Confirmed(before, found.value)
      requires RunsTo(resumed, after, attempts, s, result, ran)
      ensures Settles(before, after, found, attempts, s, result, Ran(ran))
    {
    }

    /** The run of a resumed tick; which submissions pass is decided by what the tick found at first. */
    method RunFrom(n: nat, job: Job, attempts: seq<Submission>, result: RunResult, others: Schedule,
                   ghost s: Setting) returns (ran: RunResult)
      requires Valid() && worker == Running(n, false) && n in slots && slots[n].job == job
      requires OnlyOthers(others) && forall sub :: sub in attempts ==> sub.gasUsed <= GAS_LIMIT
      requires slots[n].txHash != None || PassAlike(Setting(slots, protocolId, n), s)
      modifies this
      ensures Valid() && worker.Idle? && Safety.Extends(old(slots), slots)
      ensures SendsAtMostOne(old(chain), chain, n, old(slots)[n])
      ensures KeepsOthers(old(slots), slots, n)
      ensures RunsTo(old(slots)[n], slots[n], attempts, s, result, ran)
    {
      ran := RunSlot(job, attempts, result, others);
      RunsAlike(old(slots)[n], slots[n], attempts, old(Setting(slots, protocolId, n)), s, result, ran);
    }

    /** Slots that others add are reserved, so they make no check fail. */
    static lemma OthersPassAlike(before: Slots, after: Slots, protocolId: map<Job, string>, n: nat)
      requires n in before && KeepsOthers(before, after, n)
      requires forall m :: m in after && m !in before ==> after[m].state == Reserved
      ensures n in after && after[n] == before[n] ==>
                PassAlike(Setting(after, protocolId, n), Setting(before, protocolId, n))
    {
      if n in after && after[n] == before[n] {
        assert Healthy(before) <==> Healthy(after);
      }
    }

    static lemma RunsAlike(row: Slot, closed: Slot, attempts: seq<Submission>, p: Setting,
                           q: Setting, result: RunResult, ran: RunResult)
      requires RunsTo(row, closed, attempts, p, result, ran)
      requires row.txHash != None || PassAlike(p, q)
      ensures RunsTo(row, closed, attempts, q, result, ran)
    {
      var tried :| Attempted(row, tried, attempts, p) && Closes(tried, closed, ran) &&
        ran == if tried != row && tried.state == Blocked && result in {RanSubmitted, RanReplayed, RanReconciled}
               then RanReverted else result;
      assert Attempted(row, tried, attempts, q);
    }

    lemma SigningHasNoHash(n: nat)
      requires Valid() && n in slots
      ensures slots[n].state == Signing ==> slots[n].txHash.None?
    {
      ValidInv();
      assert Safety.SlotOk(slots[n]);
    }

    method Select() returns (first: Option<nat>)
      requires Valid() && worker.Idle?
      modifies this`worker, this`trace, this`history
      ensures Valid()
      ensures first.None? ==> worker.NothingPending? && forall n :: n in slots ==> !IsPending(slots[n].state)
      ensures first.Some? ==>
                FirstPending(slots, first.value) &&
                (slots[first.value].state == Signing ==> slots[first.value].txHash.None?) &&
                worker == if slots[first.value].state == Signing then Idle
                          else Selected(first.value, slots[first.value].txHash)
    {
      first := FirstWhere((s: Slot) => IsPending(s.state));
      if first.None? {
        Move(SelectPending, NothingPending);
      } else {
        var n := first.value;
        SigningHasNoHash(n);
        SelectEffect(State(), n);
        Move(SelectPending, if slots[n].state == Signing then Idle else Selected(n, slots[n].txHash));
      }
    }

    /** The check of a stored hash: how the tick ends, or nothing if it goes on to the runner. */
    method Resume(job: Job, hash: Option<L.Hash>, found: Option<Receipt>) returns (ends: Option<TickOutcome>)
      requires Valid() && worker.Selected? && worker.hash == hash
      requires worker.slot in slots && slots[worker.slot].job == job
      modifies this
      ensures Valid() && chain == old(chain) && Safety.Extends(old(slots), slots)
      ensures worker == if ends.None? then Running(old(worker).slot, false) else Idle
      ensures ends.None? <==> hash.None? || (found.Some? && found.value.success && ends != Some(ReceiptRefused))
      ensures ends.Some? ==> ends.value in {PendingNoRebroadcast, ReceiptRefused, SubmissionReverted}
      ensures ends == Some(PendingNoRebroadcast) <==> hash.Some? && found.None?
      ensures ends == Some(PendingNoRebroadcast) || ends == Some(ReceiptRefused) ==> slots == old(slots)
      ensures ends == Some(SubmissionReverted) ==> slots[old(worker).slot].state == Blocked
      ensures protocolId == old(protocolId) && slots.Keys == old(slots).Keys
      ensures ends == Some(ReceiptRefused) <==>
                hash != None && found != None &&
                found.value.gasUsed * found.value.gasPrice > old(slots)[old(worker).slot].gasReserved
      ensures ends == Some(SubmissionReverted) <==>
                hash != None && found != None && !found.value.success && ends != Some(ReceiptRefused)
      ensures var n := old(worker).slot;
              Leaves(old(slots), slots, n,
                     if hash != None && found != None && ends != Some(ReceiptRefused)
                     then Confirmed(old(slots)[n], found.value) else old(slots)[n])
    {
      if hash.None? {
        Move(StartRun, Running(worker.slot, false));
        return None;
      }
      if found.None? {
        Move(FetchReceipt(None), Idle);
        return Some(PendingNoRebroadcast);
      }
      var ok := FetchStored(job, hash.value, found.value);
      ends := if !ok then Some(ReceiptRefused) else if !found.value.success then Some(SubmissionReverted) else None;
    }
  }
}
