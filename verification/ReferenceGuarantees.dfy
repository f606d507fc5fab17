/** What the bounded provider promises over whole runs, drawn from the invariant of `ReferenceSafety`. */
module ReferenceGuarantees {
  import opened Wrappers
  import L = Ledger
  import opened ReferenceSlots
  import opened ReferenceSafety

  /// One broadcast per slot, with its evidence

  /**
   In every run a slot, and so a job, is broadcast at most once, and the slot row held the
   transaction's hash when it was sent and holds it ever after.  The ledger row held a hash
   and was closed to any further dispatch.
   */
  lemma BroadcastOncePerSlot(s: System, actions: seq<Action>)
    requires Initial(s)
    ensures var r := Run(s, actions);
            && (forall i :: 0 <= i < |r.chain| ==>
                  var b := r.chain[i];
                  b.slot in r.slots && b.slotHash == Some(b.txHash) == r.slots[b.slot].txHash &&
                  b.ledgerRow.txHash.Some? && b.ledgerRow.status != L.AwaitingSignature)
            && (forall i, j :: 0 <= i < j < |r.chain| ==>
                  r.chain[i].slot != r.chain[j].slot &&
                  r.slots[r.chain[i].slot].job != r.slots[r.chain[j].slot].job)
  {
    InitialInv(s);
    RunKeepsInv(s, actions);
    var r := Run(s, actions);
    forall i | 0 <= i < |r.chain| ensures BroadcastOk(r.chain[i], r.slots) {
    }
    forall i, j | 0 <= i < j < |r.chain|
      ensures r.slots[r.chain[i].slot].job != r.slots[r.chain[j].slot].job
    {
      assert BroadcastOk(r.chain[i], r.slots) && BroadcastOk(r.chain[j], r.slots);
    }
  }

  /** A ledger statement that records a receipt on a row with a hash carries that hash. */
  predicate Honest(ledger: L.Table, a: Action) {
    a.Other? && a.statement.On? && a.statement.update.MarkReceipt? &&
    a.statement.id in ledger && ledger[a.statement.id].txHash.Some?
    ==> ledger[a.statement.id].txHash == Some(a.statement.update.hash)
  }

  ghost predicate HonestRun(s: System, actions: seq<Action>)
    decreases |actions|
  {
    actions == [] || (Honest(s.ledger, actions[0]) && HonestRun(Step(s, actions[0]), actions[1..]))
  }

  /** Both rows hold the hash at every send, past and coming. */
  ghost predicate Evidence(s: System) {
    && (forall i :: 0 <= i < |s.chain| ==> s.chain[i].ledgerRow.txHash == Some(s.chain[i].txHash))
    && (s.worker.ReadyToSend? && s.worker.op in s.ledger ==>
          s.ledger[s.worker.op].txHash == Some(s.worker.txHash))
  }

  lemma StatementKeepsHash(ledger: L.Table, st: L.Statement, op: L.Id)
    requires LedgerOk(ledger) && op in ledger && ledger[op].txHash.Some? && Honest(ledger, Other(st))
    ensures op in L.Execute(ledger, st) && L.Execute(ledger, st)[op].txHash == ledger[op].txHash
  {
    assert L.Execute(ledger, st)[op] == L.Touch(ledger[op], op, st);
    assert L.Sealed(ledger[op]);
  }

  lemma SendEvidence(s: System, gasUsed: nat)
    requires Inv(s) && Evidence(s)
    ensures Evidence(SendStep(s, gasUsed))
  {
  }

  lemma RecordEvidence(s: System, now: L.Time)
    requires Inv(s) && Evidence(s)
    ensures Evidence(RecordLedgerStep(s, now))
  {
  }

  /** Nothing sent, nothing written to the ledger, and nothing made ready to send. */
  ghost predicate Quiet(s: System, next: System) {
    next.chain == s.chain && next.ledger == s.ledger && (next.worker.ReadyToSend? ==> next.worker == s.worker)
  }

  lemma QuietTick(s: System, a: Action)
    ensures Quiet(s, TickStep(s, a))
  {
  }

  lemma QuietSubmit(s: System, a: Action)
    requires !a.Send? && !a.RecordInLedger?
    ensures Quiet(s, SubmitStep(s, a))
  {
  }

  lemma OtherEvidence(s: System, a: Action)
    requires Inv(s) && Evidence(s) && Honest(s.ledger, a) && IsOther(a)
    ensures Evidence(OtherStep(s, a))
  {
    if a.Other? && !a.statement.BoundedDispatch? {
      if s.worker.ReadyToSend? {
        StatementKeepsHash(s.ledger, a.statement, s.worker.op);
      }
    } else {
      assert Quiet(s, OtherStep(s, a));
    }
  }

  lemma StepEvidence(s: System, a: Action)
    requires Inv(s) && Evidence(s) && Honest(s.ledger, a)
    ensures Evidence(Step(s, a))
  {
    if IsOther(a) {
      OtherEvidence(s, a);
    } else if IsTick(a) {
      QuietTick(s, a);
    } else if a.Send? {
      SendEvidence(s, a.gasUsed);
    } else if a.RecordInLedger? {
      RecordEvidence(s, a.now);
    } else if !a.Crash? {
      QuietSubmit(s, a);
    }
  }

  lemma {:induction false} RunEvidence(s: System, actions: seq<Action>)
    requires Inv(s) && Evidence(s) && HonestRun(s, actions)
    ensures Evidence(Run(s, actions))
    decreases |actions|
  {
    if actions != [] {
      StepEvidence(s, actions[0]);
      StepKeepsInv(s, actions[0]);
      RunEvidence(Step(s, actions[0]), actions[1..]);
    }
  }

  /** While no receipt replaces a stored hash, the ledger row holds the transaction's own hash at every send. */
  lemma LedgerHoldsHashAtSend(s: System, actions: seq<Action>)
    requires Initial(s) && HonestRun(s, actions)
    ensures var r := Run(s, actions);
            forall i :: 0 <= i < |r.chain| ==> r.chain[i].ledgerRow.txHash == Some(r.chain[i].txHash)
  {
    InitialInv(s);
    RunEvidence(s, actions);
  }

  function Statements(actions: seq<Action>): seq<L.Statement>
    decreases |actions|
  {
    if actions == [] then []
    else (if actions[0].Other? && !actions[0].statement.BoundedDispatch? then [actions[0].statement] else [])
         + Statements(actions[1..])
  }

  lemma {:induction false} OthersFollow(s: System, actions: seq<Action>, op: L.Id)
    requires op in s.ledger && forall a :: a in actions ==> IsOther(a)
    ensures var r := Run(s, actions);
            r.worker == s.worker && r.chain == s.chain && op in r.ledger &&
            r.ledger[op] == L.Follow(s.ledger[op], op, Statements(actions))
    decreases |actions|
  {
    if actions != [] {
      var a, next := actions[0], Step(s, actions[0]);
      assert IsOther(a);
      OthersFollow(next, actions[1..], op);
      if a.Other? && !a.statement.BoundedDispatch? {
        assert next.ledger[op] == L.Touch(s.ledger[op], op, a.statement);
        assert Statements(actions)[1..] == Statements(actions[1..]);
      } else {
        assert Statements(actions) == Statements(actions[1..]);
      }
    }
  }

  lemma SendAppends(s: System, gasUsed: nat)
    requires Inv(s) && s.worker.ReadyToSend? && gasUsed <= GAS_LIMIT
    ensures var ReadyToSend(n, _, gasPrice, hash, op) := s.worker;
            Step(s, Send(gasUsed)).chain
            == s.chain + [Broadcast(n, hash, gasPrice, gasUsed, s.slots[n].txHash, s.ledger[op])]
  {
  }

  /**
   Exactly when the promise "the ledger row holds this hash when the transaction is sent" is
   kept: whatever others do between the two steps, it is kept if and only if the last receipt
   they recorded on that row, if any, carries the same hash.
   */
  lemma EvidenceIffLastReceipt(s: System, actions: seq<Action>, gasUsed: nat)
    requires Inv(s) && s.worker.ReadyToSend? && gasUsed <= GAS_LIMIT
    requires s.ledger[s.worker.op].txHash == Some(s.worker.txHash)
    requires forall a :: a in actions ==> IsOther(a)
    ensures var r := Step(Run(s, actions), Send(gasUsed));
            |r.chain| == |s.chain| + 1 && r.chain[|s.chain|].txHash == s.worker.txHash &&
            (r.chain[|s.chain|].ledgerRow.txHash == Some(s.worker.txHash)
             <==> L.LastReceipt(s.ledger[s.worker.op], s.worker.op, Statements(actions), s.worker.txHash)
                  == s.worker.txHash)
  {
    var op := s.worker.op;
    var held := Run(s, actions);
    OthersFollow(s, actions, op);
    RunKeepsInv(s, actions);
    SendAppends(held, gasUsed);
    assert L.Sealed(s.ledger[op]);
    L.HashIsLastReceipt(s.ledger[op], op, Statements(actions), s.worker.txHash);
  }

  /** One receipt with another hash between the two steps breaks the promise. */
  lemma ForeignReceiptBreaksEvidence(s: System, other: L.Hash, block: L.Block, now: L.Time)
    requires Inv(s) && s.worker.ReadyToSend? && s.ledger[s.worker.op].status == L.Unknown && other != s.worker.txHash
    ensures var receipt := Other(L.On(s.worker.op, L.MarkReceipt(true, other, block, None, now)));
            var r := Step(Step(s, receipt), Send(0));
            |r.chain| == |s.chain| + 1 && r.chain[|s.chain|].txHash == s.worker.txHash &&
            r.chain[|s.chain|].ledgerRow.txHash == Some(other)
  {
    var op, update := s.worker.op, L.MarkReceipt(true, other, block, None, now);
    var next := Step(s, Other(L.On(op, update)));
    assert next == s.(ledger := L.Execute(s.ledger, L.On(op, update)));
    assert next.ledger[op] == L.Assign(s.ledger[op], update);
    StepKeepsInv(s, Other(L.On(op, update)));
    SendAppends(next, 0);
  }

  /// Spending

  function Fees(chain: seq<Broadcast>): nat {
    if chain == [] then 0
    else Fees(chain[..|chain| - 1]) + chain[|chain| - 1].gasPrice * chain[|chain| - 1].gasUsed
  }

  lemma ProductBound(x: nat, y: nat, a: nat, b: nat)
    requires x <= a && y <= b
    ensures x * y <= a * b
  {
    assert a * b - x * y == (a - x) * y + a * (b - y);
  }

  lemma FeeBound(gasPrice: nat, gasUsed: nat)
    requires gasPrice <= GAS_PRICE && gasUsed <= GAS_LIMIT
    ensures gasPrice * gasUsed <= GAS_RESERVATION
  {
    ProductBound(gasPrice, gasUsed, GAS_PRICE, GAS_LIMIT);
  }

  lemma {:induction false} FeesBound(chain: seq<Broadcast>)
    requires forall i :: 0 <= i < |chain| ==> chain[i].gasPrice <= GAS_PRICE && chain[i].gasUsed <= GAS_LIMIT
    ensures Fees(chain) <= |chain| * GAS_RESERVATION
    ensures forall i :: 0 <= i < |chain| ==> chain[i].gasPrice * chain[i].gasUsed <= 100000000000000
  {
    if chain != [] {
      var last := chain[|chain| - 1];
      FeeBound(last.gasPrice, last.gasUsed);
      FeesBound(chain[..|chain| - 1]);
    }
  }

  lemma {:induction false} DistinctSlots(chain: seq<Broadcast>, keys: set<nat>)
    requires forall i :: 0 <= i < |chain| ==> chain[i].slot in keys
    requires forall i, j :: 0 <= i < j < |chain| ==> chain[i].slot != chain[j].slot
    ensures |chain| <= |keys|
  {
    if chain != [] {
      var last := chain[|chain| - 1].slot;
      DistinctSlots(chain[..|chain| - 1], keys - {last});
    }
  }

  lemma {:induction false} SumReservedIs(slots: Slots, n: nat)
    requires SlotsOk(slots)
    ensures SumReserved(slots, n) == (if n < |slots| then n else |slots|) * GAS_RESERVATION
  {
    if n > 0 {
      SumReservedIs(slots, n - 1);
      if n <= |slots| {
        assert SlotOk(slots[n]);
      }
    }
  }

  lemma FeesCovered(r: System)
    requires Inv(r)
    ensures |r.chain| <= |r.slots| <= 3
    ensures forall i :: 0 <= i < |r.chain| ==> r.chain[i].gasPrice * r.chain[i].gasUsed <= 100000000000000
    ensures forall n :: n in r.slots ==> r.slots[n].gasReserved == 100000000000000
    ensures Fees(r.chain) <= SumReserved(r.slots, 3) == 100000000000000 * |r.slots| <= 300000000000000
  {
    forall i | 0 <= i < |r.chain| ensures BroadcastOk(r.chain[i], r.slots) {
    }
    forall n | n in r.slots ensures SlotOk(r.slots[n]) {
    }
    FeesBound(r.chain);
    DistinctSlots(r.chain, r.slots.Keys);
    assert |r.slots.Keys| == |r.slots|;
    SumReservedIs(r.slots, MAX_JOBS);
  }

  /**
   Everything ever paid in fees is covered by the reservations of the slots that exist, and
   those never exceed the budget.
   */
  lemma FeesWithinBudget(s: System, actions: seq<Action>)
    requires Initial(s)
    ensures var r := Run(s, actions);
            && |r.chain| <= |r.slots| <= 3
            && (forall i :: 0 <= i < |r.chain| ==> r.chain[i].gasPrice * r.chain[i].gasUsed <= 100000000000000)
            && (forall n :: n in r.slots ==> r.slots[n].gasReserved == 100000000000000)
            && Fees(r.chain) <= SumReserved(r.slots, 3) == 100000000000000 * |r.slots| <= 300000000000000
  {
    InitialInv(s);
    RunKeepsInv(s, actions);
    FeesCovered(Run(s, actions));
  }

  /// Slots

  /**
   Slots are numbered 1 to k without gaps, k is at most three, no job has two, and none is ever
   recycled: later in the run the slot belongs to the same job and holds the same hash.
   */
  lemma SlotsNumberedNeverRecycled(s: System, xs: seq<Action>, ys: seq<Action>)
    requires Initial(s)
    ensures var before, after := Run(s, xs).slots, Run(s, xs + ys).slots;
            && |before| <= |after| <= 3
            && (forall n :: n in after <==> 1 <= n <= |after|)
            && (forall m, n :: m in after && n in after && after[m].job == after[n].job ==> m == n)
            && (forall n :: n in before ==>
                  n in after && after[n].job == before[n].job &&
                  (before[n].txHash.Some? ==> after[n].txHash == before[n].txHash))
  {
    InitialInv(s);
    RunKeepsInv(s, xs);
    RunKeepsInv(Run(s, xs), ys);
    RunConcat(s, xs, ys);
    var before, after := Run(s, xs).slots, Run(s, xs + ys).slots;
    assert |after| < |before| ==> |before| in before;
  }

  /** At every moment of every run at most one slot is outside `reserved` and `reconciled`. */
  lemma AtMostOneActiveSlot(s: System, actions: seq<Action>, m: nat, n: nat)
    requires Initial(s)
    requires m in Run(s, actions).slots && IsActive(Run(s, actions).slots[m].state)
    requires n in Run(s, actions).slots && IsActive(Run(s, actions).slots[n].state)
    ensures m == n
  {
    InitialInv(s);
    RunKeepsInv(s, actions);
  }

  /// Slots that stop the worker

  /** Blocked, left in the middle of signing, or handed on without a hash. */
  predicate IsStuck(slot: Slot) {
    slot.state == Blocked || slot.state == Signing || (slot.state == Unknown && slot.txHash.None?)
  }

  /** Where a worker with such a slot can stand. */
  predicate FrozenWorker(w: Worker, slot: Slot) {
    match w
    case Idle => true
    case NothingPending => true
    case Selected(_, _) => true
    case Running(_, failed) => slot.state == Unknown && !failed
    case Checked(_, failed, _) => slot.state == Unknown && !failed
    case Finished(_, _) => slot.state == Unknown
    case _ => false
  }

  ghost predicate Frozen(s: System, b: nat) {
    Inv(s) && b in s.slots && IsStuck(s.slots[b]) && FrozenWorker(s.worker, s.slots[b])
  }

  /** Nothing is sent, nothing is claimed, and every slot but `b` keeps its row. */
  ghost predicate Untouched(s: System, next: System, b: nat) {
    && next.chain == s.chain
    && (forall n :: n in s.slots ==> n in next.slots && (n != b ==> next.slots[n] == s.slots[n]))
    && (forall n :: n in next.slots && n !in s.slots ==> next.slots[n].state == Reserved)
    && b in s.slots && next.slots[b].txHash == s.slots[b].txHash
  }

  lemma OtherFrozen(s: System, a: Action, b: nat)
    requires Frozen(s, b) && IsOther(a)
    ensures Frozen(OtherStep(s, a), b) && Untouched(s, OtherStep(s, a), b)
  {
    OtherKeepsInv(s, a);
    OtherAdds(s, a);
    AddedFrozen(s, OtherStep(s, a), b);
  }

  /** At most one reserved slot is added, and nothing else is written outside the worker. */
  ghost predicate AddsSlot(prior: Slots, slots: Slots) {
    slots == prior || exists n: nat, job :: n !in prior && slots == prior[n := Added(job)]
  }

  lemma AddedFrozen(s: System, next: System, b: nat)
    requires Frozen(s, b) && Inv(next) && AddsSlot(s.slots, next.slots)
    requires next.worker == s.worker && next.chain == s.chain
    ensures Frozen(next, b) && Untouched(s, next, b)
  {
    assert next.slots[b] == s.slots[b];
  }

  lemma OtherAdds(s: System, a: Action)
    requires Inv(s) && IsOther(a)
    ensures var next := OtherStep(s, a);
            next.worker == s.worker && next.chain == s.chain && AddsSlot(s.slots, next.slots)
  {
    if a.Commit? && s.admission.Some? && s.admission.value.Inserted? {
      var Inserted(job, slot) := s.admission.value;
      assert slot !in s.slots && OtherStep(s, a).slots == s.slots[slot := Added(job)];
    }
  }

  lemma WorkerFrozen(s: System, w: Worker, b: nat)
    requires Frozen(s, b) && FrozenWorker(w, s.slots[b]) && Inv(s.(worker := w))
    ensures Frozen(s.(worker := w), b) && Untouched(s, s.(worker := w), b)
  {
  }

  lemma CheckOnlyMoves(s: System, gasPrice: nat, gasEstimate: nat, b: nat)
    requires Frozen(s, b)
    ensures var next := CheckStep(s, gasPrice, gasEstimate);
            next == s.(worker := next.worker) && FrozenWorker(next.worker, s.slots[b])
  {
  }

  lemma HoldOnlyMoves(s: System, b: nat)
    requires Frozen(s, b)
    ensures HoldStep(s) == s.(worker := HoldStep(s).worker) && FrozenWorker(HoldStep(s).worker, s.slots[b])
  {
    if s.worker.Checked? {
      assert IsActive(s.slots[s.worker.slot].state) && s.worker.slot == b;
    }
  }

  /** Inside a submission on a stuck slot the hold is refused, so the worker never gets to sign. */
  lemma SubmitOnlyMoves(s: System, a: Action, b: nat)
    requires Frozen(s, b) && !IsTick(a) && !IsOther(a)
    ensures var next := SubmitStep(s, a);
            next == s.(worker := next.worker) && FrozenWorker(next.worker, s.slots[b])
  {
    match a
    case HoldSlot => HoldOnlyMoves(s, b);
    case CheckSubmit(gasPrice, gasEstimate) => CheckOnlyMoves(s, gasPrice, gasEstimate, b);
    case _ =>
  }

  lemma SubmitFrozen(s: System, a: Action, b: nat)
    requires Frozen(s, b) && !IsTick(a) && !IsOther(a) && !a.Crash?
    ensures Frozen(SubmitStep(s, a), b) && Untouched(s, SubmitStep(s, a), b)
  {
    SubmitOnlyMoves(s, a, b);
    SubmitKeepsInv(s, a);
    WorkerFrozen(s, SubmitStep(s, a).worker, b);
  }

  lemma AfterRunStuck(slots: Slots, b: nat, result: RunResult)
    requires b in slots && slots[b].state == Unknown && slots[b].txHash.None?
    ensures var next := AfterRun(slots, b, result);
            next.Keys == slots.Keys && IsStuck(next[b]) && next[b].txHash.None? &&
            forall n :: n in slots && n != b ==> next[n] == slots[n]
  {
  }

  lemma AppliedFrozen(s: System, slots: Slots, b: nat)
    requires Frozen(s, b) && Inv(s.(slots := slots, worker := Idle)) && slots.Keys == s.slots.Keys
    requires IsStuck(slots[b]) && slots[b].txHash == s.slots[b].txHash
    requires forall n :: n in s.slots && n != b ==> slots[n] == s.slots[n]
    ensures var next := s.(slots := slots, worker := Idle);
            Frozen(next, b) && Untouched(s, next, b)
  {
  }

  lemma FinishedAtStuck(s: System, b: nat)
    requires Frozen(s, b) && s.worker.Finished?
    ensures s.worker.slot == b
  {
    assert IsActive(s.slots[s.worker.slot].state);
  }

  lemma ApplyFrozen(s: System, b: nat)
    requires Frozen(s, b) && s.worker.Finished?
    ensures Frozen(ApplyStep(s), b) && Untouched(s, ApplyStep(s), b)
  {
    FinishedAtStuck(s, b);
    ApplyKeepsInv(s);
    AfterRunStuck(s.slots, b, s.worker.result);
    AppliedFrozen(s, AfterRun(s.slots, b, s.worker.result), b);
  }

  lemma FetchOnlyMoves(s: System, found: Option<Receipt>, b: nat)
    requires Frozen(s, b)
    ensures s.worker.Selected? ==> s.worker.slot == b && s.slots[b].state == Unknown && s.worker.hash.None?
    ensures FetchStep(s, found) == s.(worker := FetchStep(s, found).worker)
    ensures FrozenWorker(FetchStep(s, found).worker, s.slots[b])
  {
    if s.worker.Selected? {
      assert IsActive(s.slots[s.worker.slot].state) && s.worker.slot == b;
    }
  }

  /** Every other step of a tick only moves the worker: there is no receipt to fetch and nothing to claim. */
  lemma TickOnlyMoves(s: System, a: Action, b: nat)
    requires Frozen(s, b) && IsTick(a) && !a.SelectPending? && !(a.ApplyResult? && s.worker.Finished?)
    ensures var next := TickStep(s, a);
            next == s.(worker := next.worker) && FrozenWorker(next.worker, s.slots[b])
  {
    match a
    case FetchReceipt(found) => FetchOnlyMoves(s, found, b);
    case StartRun => FetchOnlyMoves(s, None, b);
    case CheckHealth =>
      if s.worker.NothingPending? {
        assert !IsPending(s.slots[b].state);
      }
    case _ =>
  }

  lemma SelectFrozen(s: System, b: nat)
    requires Frozen(s, b)
    ensures Frozen(SelectStep(s), b) && Untouched(s, SelectStep(s), b)
  {
    SelectKeepsInv(s);
    var w := SelectStep(s).worker;
    assert SelectStep(s) == s.(worker := w) && FrozenWorker(w, s.slots[b]);
    WorkerFrozen(s, w, b);
  }

  lemma TickFrozen(s: System, a: Action, b: nat)
    requires Frozen(s, b) && IsTick(a)
    ensures Frozen(TickStep(s, a), b) && Untouched(s, TickStep(s, a), b)
  {
    if a.ApplyResult? && s.worker.Finished? {
      ApplyFrozen(s, b);
    } else if a.SelectPending? {
      SelectFrozen(s, b);
    } else {
      MoveFrozen(s, a, b);
    }
  }

  lemma MoveFrozen(s: System, a: Action, b: nat)
    requires Frozen(s, b) && IsTick(a) && !a.SelectPending? && !(a.ApplyResult? && s.worker.Finished?)
    ensures Frozen(TickStep(s, a), b) && Untouched(s, TickStep(s, a), b)
  {
    TickOnlyMoves(s, a, b);
    TickKeepsInv(s, a);
    WorkerFrozen(s, TickStep(s, a).worker, b);
  }

  lemma StepFrozen(s: System, a: Action, b: nat)
    requires Frozen(s, b)
    ensures Frozen(Step(s, a), b) && Untouched(s, Step(s, a), b)
  {
    if a.Crash? {
      WorkerMoves(s, Idle);
      WorkerFrozen(s, Idle, b);
    } else if IsOther(a) {
      OtherFrozen(s, a, b);
    } else if IsTick(a) {
      TickFrozen(s, a, b);
    } else {
      SubmitFrozen(s, a, b);
    }
  }

  lemma {:induction false} RunFrozen(s: System, actions: seq<Action>, b: nat)
    requires Frozen(s, b)
    ensures Frozen(Run(s, actions), b) && Untouched(s, Run(s, actions), b)
    decreases |actions|
  {
    if actions != [] {
      StepFrozen(s, actions[0], b);
      RunFrozen(Step(s, actions[0]), actions[1..], b);
    }
  }

  /**
   Fail-stop: once the worker is idle with such a slot, no later run claims another slot or
   sends anything, until somebody repairs the row by hand.
   */
  lemma StuckSlotStopsEverything(s: System, xs: seq<Action>, ys: seq<Action>, b: nat)
    requires Initial(s) && Run(s, xs).worker.Idle?
    requires b in Run(s, xs).slots && IsStuck(Run(s, xs).slots[b])
    ensures var before, after := Run(s, xs), Run(s, xs + ys);
            && after.chain == before.chain
            && b in after.slots && IsStuck(after.slots[b])
            && (forall n :: n in before.slots && n != b ==> n in after.slots && after.slots[n] == before.slots[n])
            && (forall n :: n in after.slots && n !in before.slots ==> after.slots[n].state == Reserved)
  {
    InitialInv(s);
    RunKeepsInv(s, xs);
    RunFrozen(Run(s, xs), ys, b);
    RunConcat(s, xs, ys);
  }

  /// Transactions that were never sent

  /** A stored hash that no broadcast carries. */
  predicate IsUnsent(slot: Slot, chain: seq<Broadcast>) {
    slot.state == Unknown && slot.txHash.Some? &&
    forall i :: 0 <= i < |chain| ==> Some(chain[i].txHash) != slot.txHash
  }

  /** A receipt that a tick finds for a slot is that of a transaction that was broadcast. */
  predicate Genuine(s: System, a: Action) {
    a.FetchReceipt? && a.found.Some? && s.worker.Selected? && s.worker.hash.Some? ==>
      exists i :: 0 <= i < |s.chain| && s.chain[i].txHash == s.worker.hash.value
  }

  ghost predicate GenuineRun(s: System, actions: seq<Action>)
    decreases |actions|
  {
    actions == [] || (Genuine(s, actions[0]) && GenuineRun(Step(s, actions[0]), actions[1..]))
  }

  /** The worker only ever asks for the receipt of slot `b`. */
  ghost predicate Waiting(s: System, b: nat) {
    Inv(s) && b in s.slots && IsUnsent(s.slots[b], s.chain) &&
    (s.worker.Idle? || s.worker == Selected(b, s.slots[b].txHash))
  }

  lemma OtherWaits(s: System, a: Action, b: nat)
    requires Waiting(s, b) && IsOther(a)
    ensures Waiting(OtherStep(s, a), b) && Untouched(s, OtherStep(s, a), b)
    ensures OtherStep(s, a).slots[b] == s.slots[b]
  {
    OtherKeepsInv(s, a);
    OtherAdds(s, a);
    AddedWaits(s, OtherStep(s, a), b);
  }

  lemma AddedWaits(s: System, next: System, b: nat)
    requires Waiting(s, b) && Inv(next) && AddsSlot(s.slots, next.slots)
    requires next.worker == s.worker && next.chain == s.chain
    ensures Waiting(next, b) && Untouched(s, next, b) && next.slots[b] == s.slots[b]
  {
  }

  lemma SelectWaits(s: System, b: nat)
    requires Waiting(s, b)
    ensures SelectStep(s) == s.(worker := SelectStep(s).worker)
    ensures SelectStep(s).worker == Selected(b, s.slots[b].txHash)
  {
    if s.worker.Idle? {
      FirstPendingExists(s.slots, b);
      var n :| FirstPending(s.slots, n) && SelectStep(s) ==
        s.(worker := if s.slots[n].state == Signing then Idle else Selected(n, s.slots[n].txHash));
      assert IsActive(s.slots[n].state) && n == b;
    }
  }

  lemma FetchWaits(s: System, found: Option<Receipt>, b: nat)
    requires Waiting(s, b) && Genuine(s, FetchReceipt(found))
    ensures FetchStep(s, found) == s || FetchStep(s, found) == s.(worker := Idle)
  {
  }

  /** The worker is in no submission, so a step of one changes nothing. */
  lemma SubmitWaits(s: System, a: Action, b: nat)
    requires Waiting(s, b) && !IsOther(a) && !IsTick(a) && !a.Crash?
    ensures SubmitStep(s, a) == s
  {
  }

  lemma WorkerWaits(s: System, a: Action, b: nat)
    requires Waiting(s, b) && Genuine(s, a) && !IsOther(a)
    ensures var next := Step(s, a);
            next == s.(worker := next.worker) &&
            (next.worker.Idle? || next.worker == Selected(b, s.slots[b].txHash))
  {
    if a.SelectPending? {
      SelectWaits(s, b);
    } else if a.FetchReceipt? {
      FetchWaits(s, a.found, b);
    } else if !IsTick(a) && !a.Crash? {
      SubmitWaits(s, a, b);
    }
  }

  lemma StepWaits(s: System, a: Action, b: nat)
    requires Waiting(s, b) && Genuine(s, a)
    ensures Waiting(Step(s, a), b) && Untouched(s, Step(s, a), b) && Step(s, a).slots[b] == s.slots[b]
  {
    if IsOther(a) {
      OtherWaits(s, a, b);
    } else {
      WorkerWaits(s, a, b);
      WorkerMoves(s, Step(s, a).worker);
    }
  }

  lemma {:induction false} RunWaits(s: System, actions: seq<Action>, b: nat)
    requires Waiting(s, b) && GenuineRun(s, actions)
    ensures var r := Run(s, actions);
            Waiting(r, b) && Untouched(s, r, b) && r.slots[b] == s.slots[b]
    decreases |actions|
  {
    if actions != [] {
      StepWaits(s, actions[0], b);
      RunWaits(Step(s, actions[0]), actions[1..], b);
    }
  }

  /**
   A slot that holds the hash of a transaction that was never sent stops the worker too: as long
   as receipts are those of broadcasts, no later run claims another slot or sends anything.
   */
  lemma UnsentSlotStopsEverything(s: System, xs: seq<Action>, ys: seq<Action>, b: nat)
    requires Initial(s) && Run(s, xs).worker.Idle?
    requires b in Run(s, xs).slots && IsUnsent(Run(s, xs).slots[b], Run(s, xs).chain)
    requires GenuineRun(Run(s, xs), ys)
    ensures var before, after := Run(s, xs), Run(s, xs + ys);
            && after.chain == before.chain
            && (forall n :: n in before.slots ==> n in after.slots && after.slots[n] == before.slots[n])
            && (forall n :: n in after.slots && n !in before.slots ==> after.slots[n].state == Reserved)
  {
    InitialInv(s);
    RunKeepsInv(s, xs);
    RunWaits(Run(s, xs), ys, b);
    RunConcat(s, xs, ys);
  }

  /** One step changes such a slot exactly when the worker finds a receipt for it that fits its reservation. */
  lemma UnsentSlotMovesIff(s: System, a: Action, b: nat)
    requires Waiting(s, b)
    ensures var next := Step(s, a);
            b in next.slots && (next.slots[b] != s.slots[b] <==>
              s.worker.Selected? && a.FetchReceipt? && a.found.Some? &&
              a.found.value.gasUsed * a.found.value.gasPrice <= s.slots[b].gasReserved)
  {
    if IsOther(a) {
      OtherWaits(s, a, b);
    } else if Genuine(s, a) {
      WorkerWaits(s, a, b);
      assert !(s.worker.Selected? && a.FetchReceipt? && a.found.Some?);
    }
  }
}
