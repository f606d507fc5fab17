/**
 Safety of the bounded reference provider over every run: every interleaving of admissions,
 ledger statements of other callers, worker steps, lost replies and crashes.
 */
module ReferenceSafety {
  import opened Wrappers
  import L = Ledger
  import opened ReferenceSlots

  /// The invariant

  predicate SlotOk(slot: Slot) {
    && slot.gasReserved == GAS_RESERVATION
    && (slot.gasSpent.Some? ==> slot.gasSpent.value <= slot.gasReserved)
    && (slot.state in {Reserved, Claimed, Signing} ==> slot.txHash.None?)
    && (slot.state in {Submitted, Reconciled} ==> slot.txHash.Some?)
  }

  /** Numbered 1 to k with k at most 3, one slot per job. */
  ghost predicate SlotsOk(slots: Slots) {
    && |slots| <= MAX_JOBS
    && (forall n :: n in slots <==> 1 <= n <= |slots|)
    && (forall n :: n in slots ==> SlotOk(slots[n]))
    && OneJobEach(slots)
  }

  predicate IsActive(st: SlotState) {
    st != Reserved && st != Reconciled
  }

  predicate OneActive(slots: Slots) {
    forall m, n :: m in slots && n in slots && IsActive(slots[m].state) && IsActive(slots[n].state) ==> m == n
  }

  predicate AdmissionOk(admission: Option<Admission>, slots: Slots) {
    match admission
    case None => true
    case Some(Locked(_)) => true
    case Some(Decided(_, slot)) => slot == |slots| + 1 <= MAX_JOBS
    case Some(Inserted(job, slot)) => slot == |slots| + 1 <= MAX_JOBS && !JobAdmitted(slots, job)
  }

  predicate NotBroadcast(chain: seq<Broadcast>, n: nat) {
    forall i :: 0 <= i < |chain| ==> chain[i].slot != n
  }

  predicate AtWork(slots: Slots, n: nat, failed: bool) {
    n in slots && (if failed then slots[n].state == Blocked else IsPending(slots[n].state))
  }

  predicate HashStored(slots: Slots, n: nat, hash: L.Hash) {
    n in slots && slots[n].state == Unknown && slots[n].txHash == Some(hash)
  }

  predicate WorkerOk(w: Worker, slots: Slots, chain: seq<Broadcast>, ledger: L.Table) {
    match w
    case Idle => true
    case Selected(n, hash) => AtWork(slots, n, false) && slots[n].state != Signing && slots[n].txHash == hash
    case Running(n, failed) => AtWork(slots, n, failed)
    case Checked(n, failed, gasPrice) => AtWork(slots, n, failed) && gasPrice <= GAS_PRICE
    case Holding(n, failed, gasPrice) => n in slots && slots[n].state == Signing && !failed && gasPrice <= GAS_PRICE
    case Signed(n, failed, gasPrice, _, _) =>
      n in slots && slots[n].state == Signing && !failed && gasPrice <= GAS_PRICE
    case SlotRecorded(n, failed, gasPrice, hash) =>
      HashStored(slots, n, hash) && NotBroadcast(chain, n) && !failed && gasPrice <= GAS_PRICE
    case ReadyToSend(n, failed, gasPrice, hash, op) =>
      HashStored(slots, n, hash) && NotBroadcast(chain, n) && !failed && gasPrice <= GAS_PRICE &&
      op in ledger && ledger[op].txHash.Some?
    case Sent(n, failed, hash) => HashStored(slots, n, hash) && !failed
    case Finished(n, result) => AtWork(slots, n, false) || (AtWork(slots, n, true) && !IsSuccess(result))
    case NothingPending => forall n :: n in slots ==> !IsPending(slots[n].state)
    case ClaimReady => forall n :: n in slots ==> !IsActive(slots[n].state)
  }

  /** The slot row held the transaction's hash when it was sent and still holds it; the ledger row was sealed. */
  predicate BroadcastOk(b: Broadcast, slots: Slots) {
    && b.slot in slots && slots[b.slot].txHash == Some(b.txHash)
    && b.slotHash == Some(b.txHash)
    && b.ledgerRow.txHash.Some? && b.ledgerRow.status != L.AwaitingSignature
    && b.gasPrice <= GAS_PRICE && b.gasUsed <= GAS_LIMIT
  }

  predicate ChainOk(chain: seq<Broadcast>, slots: Slots) {
    && (forall i :: 0 <= i < |chain| ==> BroadcastOk(chain[i], slots))
    && (forall i, j :: 0 <= i < j < |chain| ==> chain[i].slot != chain[j].slot)
  }

  predicate LedgerOk(ledger: L.Table) {
    forall id :: id in ledger ==> L.Sealed(ledger[id])
  }

  ghost predicate Inv(s: System) {
    && SlotsOk(s.slots) && OneActive(s.slots) && AdmissionOk(s.admission, s.slots)
    && WorkerOk(s.worker, s.slots, s.chain, s.ledger) && ChainOk(s.chain, s.slots) && LedgerOk(s.ledger)
  }

  /// Every step keeps it

  /** Slots keep their job, their reservation and any hash once stored. */
  predicate Extends(prior: Slots, slots: Slots) {
    forall n :: n in prior ==>
      n in slots && slots[n].job == prior[n].job && slots[n].gasReserved == prior[n].gasReserved &&
      (prior[n].txHash.Some? ==> slots[n].txHash == prior[n].txHash)
  }

  lemma ChainFrame(chain: seq<Broadcast>, prior: Slots, slots: Slots)
    requires ChainOk(chain, prior) && Extends(prior, slots)
    ensures ChainOk(chain, slots)
  {
    forall i | 0 <= i < |chain| ensures BroadcastOk(chain[i], slots) {
      assert BroadcastOk(chain[i], prior);
    }
  }

  lemma NoHashNotBroadcast(chain: seq<Broadcast>, slots: Slots, n: nat)
    requires ChainOk(chain, slots) && n in slots && slots[n].txHash.None?
    ensures NotBroadcast(chain, n)
  {
    forall i | 0 <= i < |chain| ensures chain[i].slot != n {
      assert BroadcastOk(chain[i], slots);
    }
  }

  ghost predicate OneJobEach(slots: Slots) {
    forall m, n :: m in slots && n in slots && slots[m].job == slots[n].job ==> m == n
  }

  lemma RewriteKeepsJobs(slots: Slots, n: nat, slot: Slot)
    requires OneJobEach(slots) && n in slots && slot.job == slots[n].job
    ensures OneJobEach(slots[n := slot])
  {
  }

  lemma RewriteKeepsActive(slots: Slots, n: nat, slot: Slot)
    requires OneActive(slots) && n in slots
    requires IsActive(slot.state) ==> IsActive(slots[n].state) || forall m :: m in slots ==> !IsActive(slots[m].state)
    ensures OneActive(slots[n := slot])
  {
  }

  lemma RewriteKeepsSize(slots: Slots, n: nat, slot: Slot)
    requires n in slots
    ensures |slots[n := slot]| == |slots|
  {
    var next := slots[n := slot];
    assert next.Keys == slots.Keys;
    assert |next| == |next.Keys| == |slots.Keys| == |slots|;
  }

  lemma RewriteKeepsNumbers(slots: Slots, n: nat, slot: Slot)
    requires SlotsOk(slots) && n in slots && SlotOk(slot) && slot.job == slots[n].job
    ensures SlotsOk(slots[n := slot]) && |slots[n := slot]| == |slots|
  {
    RewriteKeepsJobs(slots, n, slot);
    RewriteKeepsSize(slots, n, slot);
  }

  /** Rewriting one slot in place, with the same job and reservation. */
  lemma RewriteKeepsSlots(slots: Slots, n: nat, slot: Slot)
    requires SlotsOk(slots) && OneActive(slots) && n in slots
    requires SlotOk(slot) && slot.job == slots[n].job
    requires IsActive(slot.state) ==> IsActive(slots[n].state) || forall m :: m in slots ==> !IsActive(slots[m].state)
    requires slots[n].txHash.Some? ==> slot.txHash == slots[n].txHash
    ensures SlotsOk(slots[n := slot]) && OneActive(slots[n := slot]) && Extends(slots, slots[n := slot])
    ensures |slots[n := slot]| == |slots|
  {
    RewriteKeepsNumbers(slots, n, slot);
    RewriteKeepsActive(slots, n, slot);
  }

  lemma AdmissionFrame(admission: Option<Admission>, slots: Slots, n: nat, slot: Slot)
    requires AdmissionOk(admission, slots) && n in slots && slot.job == slots[n].job
    requires |slots[n := slot]| == |slots|
    ensures AdmissionOk(admission, slots[n := slot])
  {
  }

  lemma StatementKeepsLedger(t: L.Table, st: L.Statement, op: L.Id)
    requires LedgerOk(t)
    ensures LedgerOk(L.Execute(t, st))
    ensures op in t && t[op].txHash.Some? ==> op in L.Execute(t, st) && L.Execute(t, st)[op].txHash.Some?
  {
    var next := L.Execute(t, st);
    forall id | id in next ensures L.Sealed(next[id]) {
      if id in t {
        L.TouchSealed(t[id], id, st);
        assert next[id] == L.Touch(t[id], id, st);
      }
    }
    if op in t {
      L.TouchSealed(t[op], op, st);
      assert next[op] == L.Touch(t[op], op, st);
    }
  }

  function Added(job: Job): Slot {
    Slot(job, Reserved, None, None, GAS_RESERVATION, None)
  }

  lemma CommitKeepsNumbers(slots: Slots, job: Job, slot: nat)
    requires SlotsOk(slots) && slot == |slots| + 1
    ensures var next := slots[slot := Added(job)];
            |next| == slot && forall n :: n in next <==> 1 <= n <= slot
  {
    var next := slots[slot := Added(job)];
    assert slot !in slots;
    assert next.Keys == slots.Keys + {slot};
    assert |next| == |next.Keys| == |slots| + 1;
  }

  lemma CommitKeepsJobs(slots: Slots, job: Job, slot: nat)
    requires OneJobEach(slots) && slot !in slots && !JobAdmitted(slots, job)
    ensures OneJobEach(slots[slot := Added(job)])
  {
  }

  lemma CommitKeepsSlots(slots: Slots, job: Job, slot: nat)
    requires SlotsOk(slots) && OneActive(slots) && slot == |slots| + 1 <= MAX_JOBS && !JobAdmitted(slots, job)
    ensures var next := slots[slot := Added(job)];
            SlotsOk(next) && OneActive(next) && Extends(slots, next)
  {
    CommitKeepsNumbers(slots, job, slot);
    CommitKeepsJobs(slots, job, slot);
  }

  lemma WorkerSurvivesCommit(w: Worker, slots: Slots, slot: nat, added: Slot, chain: seq<Broadcast>, ledger: L.Table)
    requires WorkerOk(w, slots, chain, ledger) && slot !in slots && added.state == Reserved
    ensures WorkerOk(w, slots[slot := added], chain, ledger)
  {
  }

  lemma CommitKeepsInv(s: System)
    requires Inv(s)
    ensures Inv(CommitStep(s)) && Extends(s.slots, CommitStep(s).slots)
  {
    if s.admission.Some? && s.admission.value.Inserted? {
      var Inserted(job, slot) := s.admission.value;
      CommitKeepsSlots(s.slots, job, slot);
      WorkerSurvivesCommit(s.worker, s.slots, slot, Added(job), s.chain, s.ledger);
      ChainFrame(s.chain, s.slots, s.slots[slot := Added(job)]);
    }
  }

  lemma StatementKeepsInv(s: System, statement: L.Statement)
    requires Inv(s)
    ensures Inv(s.(ledger := L.Execute(s.ledger, statement)))
  {
    StatementKeepsLedger(s.ledger, statement, if s.worker.ReadyToSend? then s.worker.op else "");
  }

  lemma AdmissionMoves(s: System, admission: Option<Admission>)
    requires Inv(s) && AdmissionOk(admission, s.slots)
    ensures Inv(s.(admission := admission))
  {
  }

  lemma ReadAllowanceKeepsInv(s: System, allowance: Allowance)
    requires Inv(s)
    ensures Inv(ReadAllowanceStep(s, allowance)) && Extends(s.slots, ReadAllowanceStep(s, allowance).slots)
    ensures ReadAllowanceStep(s, allowance).slots == s.slots
  {
    var admission := ReadAllowanceStep(s, allowance).admission;
    assert AdmissionOk(admission, s.slots);
    AdmissionMoves(s, admission);
    assert ReadAllowanceStep(s, allowance) == s.(admission := admission);
  }

  lemma InsertKeepsInv(s: System)
    requires Inv(s)
    ensures Inv(InsertStep(s)) && Extends(s.slots, InsertStep(s).slots)
    ensures InsertStep(s).slots == s.slots
  {
    var admission := InsertStep(s).admission;
    assert AdmissionOk(admission, s.slots);
    AdmissionMoves(s, admission);
    assert InsertStep(s) == s.(admission := admission);
  }

  lemma OtherKeepsInv(s: System, a: Action)
    requires Inv(s) && IsOther(a)
    ensures Inv(OtherStep(s, a)) && Extends(s.slots, OtherStep(s, a).slots)
  {
    match a
    case Lock(job) => AdmissionMoves(s, Some(Locked(job)));
    case ReadAllowance(allowance) => ReadAllowanceKeepsInv(s, allowance);
    case InsertSlot => InsertKeepsInv(s);
    case Commit => CommitKeepsInv(s);
    case Abort => AdmissionMoves(s, None);
    case Other(statement) => StatementKeepsInv(s, statement);
  }

  /// Steps of the worker

  /** A worker step that rewrites its slot and moves to `w`. */
  lemma WorkerRewrites(s: System, n: nat, slot: Slot, w: Worker)
    requires Inv(s) && n in s.slots
    requires SlotOk(slot) && slot.job == s.slots[n].job
    requires IsActive(slot.state) ==>
               IsActive(s.slots[n].state) || forall m :: m in s.slots ==> !IsActive(s.slots[m].state)
    requires s.slots[n].txHash.Some? ==> slot.txHash == s.slots[n].txHash
    requires WorkerOk(w, s.slots[n := slot], s.chain, s.ledger)
    ensures Inv(s.(slots := s.slots[n := slot], worker := w)) && Extends(s.slots, s.slots[n := slot])
  {
    RewriteKeepsSlots(s.slots, n, slot);
    AdmissionFrame(s.admission, s.slots, n, slot);
    ChainFrame(s.chain, s.slots, s.slots[n := slot]);
  }

  lemma WorkerMoves(s: System, w: Worker)
    requires Inv(s) && WorkerOk(w, s.slots, s.chain, s.ledger)
    ensures Inv(s.(worker := w))
  {
  }

  lemma ReceiptRecorded(s: System, n: nat, hash: L.Hash, r: Receipt, w: Worker)
    requires Inv(s) && n in s.slots && s.slots[n].txHash == Some(hash) && IsActive(s.slots[n].state)
    requires RecordReceipt(s.slots, n, hash, r).Some?
    requires w == Running(n, !r.success) || w == Idle
    ensures var slots := RecordReceipt(s.slots, n, hash, r).value;
            Inv(s.(slots := slots, worker := w)) && Extends(s.slots, slots)
  {
    var fee := r.gasUsed * r.gasPrice;
    var slot := s.slots[n].(state := if r.success then Submitted else Blocked, gasSpent := Some(fee));
    assert SlotOk(s.slots[n]) && SlotOk(slot);
    WorkerRewrites(s, n, slot, w);
  }

  lemma {:induction false} FirstPendingExists(slots: Slots, n: nat)
    requires n in slots && IsPending(slots[n].state)
    ensures exists m :: FirstPending(slots, m)
    decreases n
  {
    if m: nat :| m in slots && m < n && IsPending(slots[m].state) {
      FirstPendingExists(slots, m);
    } else {
      assert FirstPending(slots, n);
    }
  }

  lemma SelectKeepsInv(s: System)
    requires Inv(s)
    ensures Inv(SelectStep(s)) && Extends(s.slots, SelectStep(s).slots)
    ensures SelectStep(s).slots == s.slots
  {
    if s.worker.Idle? {
      if n :| n in s.slots && IsPending(s.slots[n].state) {
        FirstPendingExists(s.slots, n);
      }
      WorkerMoves(s, SelectStep(s).worker);
    }
  }

  lemma FetchKeepsInv(s: System, found: Option<Receipt>)
    requires Inv(s)
    ensures Inv(FetchStep(s, found)) && Extends(s.slots, FetchStep(s, found).slots)
  {
    if s.worker.Selected? && s.worker.hash.Some? {
      var n, hash := s.worker.slot, s.worker.hash.value;
      if found.None? || RecordReceipt(s.slots, n, hash, found.value).None? {
        WorkerMoves(s, Idle);
      } else {
        var w := if found.value.success then Running(n, false) else Idle;
        ReceiptRecorded(s, n, hash, found.value, w);
      }
    }
  }

  lemma StartKeepsInv(s: System)
    requires Inv(s)
    ensures Inv(StartStep(s)) && Extends(s.slots, StartStep(s).slots)
    ensures StartStep(s).slots == s.slots
  {
    if s.worker.Selected? && s.worker.hash.None? {
      WorkerMoves(s, Running(s.worker.slot, false));
    }
  }

  lemma ReturnKeepsInv(s: System, result: RunResult)
    requires Inv(s)
    ensures Inv(ReturnStep(s, result)) && Extends(s.slots, ReturnStep(s, result).slots)
    ensures ReturnStep(s, result).slots == s.slots
  {
    if s.worker.Running? && !(s.worker.failed && IsSuccess(result)) {
      WorkerMoves(s, Finished(s.worker.slot, result));
    }
  }

  /** The last UPDATE of a tick writes the selected slot or nothing. */
  lemma AfterRunRewrites(slots: Slots, n: nat, result: RunResult)
    requires n in slots && SlotOk(slots[n])
    requires IsActive(slots[n].state) && (slots[n].state == Blocked ==> !IsSuccess(result))
    ensures var next := AfterRun(slots, n, result);
            next == slots ||
            (n in next && next == slots[n := next[n]] && SlotOk(next[n]) &&
             next[n] == slots[n].(state := next[n].state))
  {
  }

  lemma ApplyKeepsInv(s: System)
    requires Inv(s)
    ensures Inv(ApplyStep(s)) && Extends(s.slots, ApplyStep(s).slots)
  {
    if s.worker.Finished? {
      var Finished(n, result) := s.worker;
      AfterRunRewrites(s.slots, n, result);
      var slots := AfterRun(s.slots, n, result);
      if slots == s.slots {
        WorkerMoves(s, Idle);
      } else {
        WorkerRewrites(s, n, slots[n], Idle);
      }
    }
  }

  lemma HealthKeepsInv(s: System)
    requires Inv(s)
    ensures Inv(HealthStep(s)) && Extends(s.slots, HealthStep(s).slots)
    ensures HealthStep(s).slots == s.slots
  {
    if s.worker.NothingPending? {
      WorkerMoves(s, if Healthy(s.slots) then ClaimReady else Idle);
    }
  }

  lemma ClaimOneKeepsInv(s: System, n: nat)
    requires Inv(s) && s.worker.ClaimReady? && n in s.slots && s.slots[n].state == Reserved
    ensures Inv(s.(slots := SetState(s.slots, n, Claimed), worker := Idle))
    ensures Extends(s.slots, SetState(s.slots, n, Claimed))
  {
    assert SlotOk(s.slots[n]);
    WorkerRewrites(s, n, s.slots[n].(state := Claimed), Idle);
  }

  lemma ClaimKeepsInv(s: System, funded: set<Job>)
    requires Inv(s)
    ensures Inv(ClaimStep(s, funded)) && Extends(s.slots, ClaimStep(s, funded).slots)
  {
    var next := ClaimStep(s, funded);
    if s.worker.ClaimReady? {
      if next.slots == s.slots {
        WorkerMoves(s, Idle);
      } else {
        var n :| FirstClaimable(s.slots, n, funded) &&
                 next == s.(slots := SetState(s.slots, n, Claimed), worker := Idle);
        ClaimOneKeepsInv(s, n);
      }
    }
  }

  lemma CheckKeepsInv(s: System, gasPrice: nat, gasEstimate: nat)
    requires Inv(s)
    ensures Inv(CheckStep(s, gasPrice, gasEstimate)) && Extends(s.slots, CheckStep(s, gasPrice, gasEstimate).slots)
    ensures CheckStep(s, gasPrice, gasEstimate).slots == s.slots
  {
    if s.worker.Running? && gasPrice <= GAS_PRICE {
      WorkerMoves(s, Checked(s.worker.slot, s.worker.failed, gasPrice));
    }
  }

  lemma HoldKeepsInv(s: System)
    requires Inv(s)
    ensures Inv(HoldStep(s)) && Extends(s.slots, HoldStep(s).slots)
  {
    if s.worker.Checked? {
      var Checked(n, failed, gasPrice) := s.worker;
      if s.slots[n].state == Claimed && s.slots[n].txHash.None? {
        assert SlotOk(s.slots[n]);
        WorkerRewrites(s, n, s.slots[n].(state := Signing), Holding(n, failed, gasPrice));
      } else {
        WorkerMoves(s, Running(n, failed));
      }
    }
  }

  lemma SignKeepsInv(s: System, hash: L.Hash, nonce: int)
    requires Inv(s)
    ensures Inv(SignStep(s, hash, nonce)) && Extends(s.slots, SignStep(s, hash, nonce).slots)
    ensures SignStep(s, hash, nonce).slots == s.slots
  {
    if s.worker.Holding? {
      WorkerMoves(s, Signed(s.worker.slot, s.worker.failed, s.worker.gasPrice, hash, nonce));
    }
  }

  lemma RecordSlotKeepsInv(s: System)
    requires Inv(s)
    ensures Inv(RecordSlotStep(s)) && Extends(s.slots, RecordSlotStep(s).slots)
  {
    if s.worker.Signed? {
      var Signed(n, failed, gasPrice, hash, nonce) := s.worker;
      assert SlotOk(s.slots[n]);
      NoHashNotBroadcast(s.chain, s.slots, n);
      var slot := s.slots[n].(txHash := Some(hash), nonce := Some(nonce), state := Unknown);
      WorkerRewrites(s, n, slot, SlotRecorded(n, failed, gasPrice, hash));
    }
  }

  /** The ledger receives the worker's update or is left alone; only a sole matching row lets the worker go on. */
  lemma RecordOutcome(s: System, now: L.Time) returns (jobId: string)
    requires Inv(s) && s.worker.SlotRecorded?
    ensures var SlotRecorded(n, failed, gasPrice, hash) := s.worker;
            var next := RecordLedgerStep(s, now);
            var st := L.BoundedDispatch(COMMERCE, jobId, hash, now);
            && next == s.(ledger := next.ledger, worker := next.worker)
            && (next.ledger == s.ledger || next.ledger == L.Execute(s.ledger, st))
            && (next.worker == Running(n, failed) ||
                (next.ledger == L.Execute(s.ledger, st) && next.worker.ReadyToSend? &&
                 next.worker == ReadyToSend(n, failed, gasPrice, hash, next.worker.op) &&
                 next.worker.op in s.ledger && L.BoundedMatches(s.ledger[next.worker.op], COMMERCE, jobId)))
  {
    var n := s.worker.slot;
    jobId := if s.slots[n].job in s.protocolId then s.protocolId[s.slots[n].job] else "";
  }

  lemma RecordLedgerKeepsInv(s: System, now: L.Time)
    requires Inv(s)
    ensures Inv(RecordLedgerStep(s, now)) && Extends(s.slots, RecordLedgerStep(s, now).slots)
    ensures RecordLedgerStep(s, now).slots == s.slots
  {
    if s.worker.SlotRecorded? {
      var jobId := RecordOutcome(s, now);
      StatementKeepsInv(s, L.BoundedDispatch(COMMERCE, jobId, s.worker.txHash, now));
      var next := RecordLedgerStep(s, now);
      WorkerMoves(s.(ledger := next.ledger), next.worker);
    }
  }

  /** One more broadcast, of a slot not broadcast before. */
  lemma ChainGrows(chain: seq<Broadcast>, b: Broadcast, slots: Slots)
    requires ChainOk(chain, slots) && BroadcastOk(b, slots) && NotBroadcast(chain, b.slot)
    ensures ChainOk(chain + [b], slots)
  {
    var next := chain + [b];
    forall i | 0 <= i < |next| ensures BroadcastOk(next[i], slots) {
      assert i < |chain| ==> next[i] == chain[i];
    }
  }

  lemma SendKeepsInv(s: System, gasUsed: nat)
    requires Inv(s)
    ensures Inv(SendStep(s, gasUsed)) && Extends(s.slots, SendStep(s, gasUsed).slots)
    ensures SendStep(s, gasUsed).slots == s.slots
  {
    if s.worker.ReadyToSend? && gasUsed <= GAS_LIMIT {
      var ReadyToSend(n, failed, gasPrice, hash, op) := s.worker;
      assert L.Sealed(s.ledger[op]);
      ChainGrows(s.chain, Broadcast(n, hash, gasPrice, gasUsed, s.slots[n].txHash, s.ledger[op]), s.slots);
    }
  }

  lemma ReceiptKeepsInv(s: System, receipt: Receipt)
    requires Inv(s)
    ensures Inv(ReceiptStep(s, receipt)) && Extends(s.slots, ReceiptStep(s, receipt).slots)
  {
    if s.worker.Sent? {
      var Sent(n, failed, hash) := s.worker;
      if RecordReceipt(s.slots, n, hash, receipt).Some? {
        ReceiptRecorded(s, n, hash, receipt, Running(n, !receipt.success));
      } else {
        WorkerMoves(s, Running(n, failed));
      }
    }
  }

  lemma ThrowKeepsInv(s: System)
    requires Inv(s)
    ensures Inv(ThrowStep(s)) && Extends(s.slots, ThrowStep(s).slots)
    ensures ThrowStep(s).slots == s.slots
  {
    if InSubmit(s.worker) {
      WorkerMoves(s, Running(s.worker.slot, s.worker.failed));
    }
  }

  /// Every step, every run

  /** The steps that lead a tick to a run or to a claim. */
  lemma ChoosingKeepsInv(s: System, a: Action)
    requires Inv(s) && (a.SelectPending? || a.FetchReceipt? || a.StartRun? || a.CheckHealth?)
    ensures Inv(TickStep(s, a)) && Extends(s.slots, TickStep(s, a).slots)
  {
    match a
    case SelectPending => SelectKeepsInv(s);
    case FetchReceipt(found) => FetchKeepsInv(s, found);
    case StartRun => StartKeepsInv(s);
    case CheckHealth => HealthKeepsInv(s);
  }

  /** And those that close it. */
  lemma ClosingKeepsInv(s: System, a: Action)
    requires Inv(s) && (a.RunReturns? || a.ApplyResult? || a.ClaimSlot?)
    ensures Inv(TickStep(s, a)) && Extends(s.slots, TickStep(s, a).slots)
  {
    match a
    case RunReturns(result) => ReturnKeepsInv(s, result);
    case ApplyResult => ApplyKeepsInv(s);
    case ClaimSlot(funded) => ClaimKeepsInv(s, funded);
  }

  lemma TickKeepsInv(s: System, a: Action)
    requires Inv(s) && IsTick(a)
    ensures Inv(TickStep(s, a)) && Extends(s.slots, TickStep(s, a).slots)
  {
    if a.RunReturns? || a.ApplyResult? || a.ClaimSlot? {
      ClosingKeepsInv(s, a);
    } else {
      ChoosingKeepsInv(s, a);
    }
  }

  /** The steps of a submission up to the signature. */
  lemma SigningKeepsInv(s: System, a: Action)
    requires Inv(s) && (a.CheckSubmit? || a.HoldSlot? || a.Sign? || a.SubmitThrows?)
    ensures Inv(SubmitStep(s, a)) && Extends(s.slots, SubmitStep(s, a).slots)
  {
    match a
    case CheckSubmit(gasPrice, gasEstimate) => CheckKeepsInv(s, gasPrice, gasEstimate);
    case HoldSlot => HoldKeepsInv(s);
    case Sign(hash, nonce) => SignKeepsInv(s, hash, nonce);
    case SubmitThrows => ThrowKeepsInv(s);
  }

  /** Those that store the hash. */
  lemma RecordingKeepsInv(s: System, a: Action)
    requires Inv(s) && (a.RecordInSlot? || a.RecordInLedger?)
    ensures Inv(SubmitStep(s, a)) && Extends(s.slots, SubmitStep(s, a).slots)
  {
    match a
    case RecordInSlot => RecordSlotKeepsInv(s);
    case RecordInLedger(now) => RecordLedgerKeepsInv(s, now);
  }

  /** And the send with its receipt. */
  lemma SendingKeepsInv(s: System, a: Action)
    requires Inv(s) && (a.Send? || a.AwaitReceipt?)
    ensures Inv(SubmitStep(s, a)) && Extends(s.slots, SubmitStep(s, a).slots)
  {
    match a
    case Send(gasUsed) => SendKeepsInv(s, gasUsed);
    case AwaitReceipt(receipt) => ReceiptKeepsInv(s, receipt);
  }

  lemma SubmitKeepsInv(s: System, a: Action)
    requires Inv(s) && !IsTick(a) && !IsOther(a) && !a.Crash?
    ensures Inv(SubmitStep(s, a)) && Extends(s.slots, SubmitStep(s, a).slots)
  {
    if a.CheckSubmit? || a.HoldSlot? || a.Sign? || a.SubmitThrows? {
      SigningKeepsInv(s, a);
    } else if a.RecordInSlot? || a.RecordInLedger? {
      RecordingKeepsInv(s, a);
    } else {
      SendingKeepsInv(s, a);
    }
  }

  lemma StepKeepsInv(s: System, a: Action)
    requires Inv(s)
    ensures Inv(Step(s, a)) && Extends(s.slots, Step(s, a).slots)
  {
    if a.Crash? {
      WorkerMoves(s, Idle);
    } else if IsOther(a) {
      OtherKeepsInv(s, a);
    } else if IsTick(a) {
      TickKeepsInv(s, a);
    } else {
      SubmitKeepsInv(s, a);
    }
  }

  lemma {:induction false} RunKeepsInv(s: System, actions: seq<Action>)
    requires Inv(s)
    ensures Inv(Run(s, actions)) && Extends(s.slots, Run(s, actions).slots)
    decreases |actions|
  {
    if actions != [] {
      StepKeepsInv(s, actions[0]);
      RunKeepsInv(Step(s, actions[0]), actions[1..]);
    }
  }

  lemma InitialInv(s: System)
    requires Initial(s)
    ensures Inv(s)
  {
  }
}
