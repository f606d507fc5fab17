/**
 Runs of the bounded provider from an empty initial state: that transactions are sent at all,
 and that the failures stated in `ReferenceGuarantees` are ones the provider can meet.
 */
module ReferenceWitness {
  import opened Wrappers
  import L = Ledger
  import opened ReferenceSlots
  import opened ReferenceSafety
  import opened ReferenceGuarantees

  /// One job on an empty service

  /** A job with a protocol id, and the operation row reserved for its submission. */
  datatype Booking = Booking(job: Job, protocolId: string, op: L.Id, row: L.Row)

  predicate IsBooking(b: Booking) {
    b.protocolId != BASELINE_JOB && L.IsReservation(b.row) && L.BoundedMatches(b.row, COMMERCE, b.protocolId)
  }

  lemma BookingExists() returns (b: Booking)
    ensures IsBooking(b)
  {
    var row := L.Row("key", "digest", 97, COMMERCE, Some("1"), L.Submit, L.Provider, L.AwaitingSignature,
                     None, None, None, L.NoContext, 0, 0);
    b := Booking("job", "1", "op", row);
    assert |b.protocolId| == 1 && |BASELINE_JOB| == 4;
  }

  function Empty(b: Booking): System {
    System(map[], None, Idle, map[], map[b.job := b.protocolId], [])
  }

  lemma EmptyIsInitial(b: Booking)
    ensures Initial(Empty(b))
  {
  }

  /** The service once the operation is reserved, with the worker and the sole slot as given. */
  function At(b: Booking, slots: Slots, worker: Worker): System {
    Empty(b).(ledger := map[b.op := b.row], slots := slots, worker := worker)
  }

  function Only(b: Booking, state: SlotState): Slots {
    map[1 := Slot(b.job, state, None, None, GAS_RESERVATION, None)]
  }

  lemma Then(b: Booking, actions: seq<Action>, a: Action) returns (longer: seq<Action>)
    ensures longer == actions + [a] && Run(Empty(b), longer) == Step(Run(Empty(b), actions), a)
  {
    longer := actions + [a];
    RunSnoc(Empty(b), actions, a);
  }

  const OPEN := Allowance(true, true, true, Some(0))

  /** Reserving the operation and admitting the job. */
  lemma AdmittedRun(b: Booking) returns (actions: seq<Action>)
    requires IsBooking(b)
    ensures Run(Empty(b), actions) == At(b, Only(b, Reserved), Idle)
  {
    var s := At(b, map[], Idle);
    var reserve := Other(L.Insert(b.op, b.row));
    assert Step(Empty(b), reserve) == s;
    actions := Then(b, [], reserve);

    var locked := s.(admission := Some(Locked(b.job)));
    assert Step(s, Lock(b.job)) == locked;
    actions := Then(b, actions, Lock(b.job));

    var decided := s.(admission := Some(Decided(b.job, 1)));
    assert ReadCapacity(OPEN, map[]) == Capacity(Ready, 3, 0);
    assert Step(locked, ReadAllowance(OPEN)) == decided;
    actions := Then(b, actions, ReadAllowance(OPEN));

    var inserted := s.(admission := Some(Inserted(b.job, 1)));
    assert Step(decided, InsertSlot) == inserted;
    actions := Then(b, actions, InsertSlot);

    assert Step(inserted, Commit) == At(b, Only(b, Reserved), Idle);
    actions := Then(b, actions, Commit);
  }

  /** One tick claims the slot, and the next one starts the runner on it. */
  lemma ClaimedRun(b: Booking) returns (actions: seq<Action>)
    requires IsBooking(b)
    ensures Run(Empty(b), actions) == At(b, Only(b, Claimed), Running(1, false))
  {
    actions := AdmittedRun(b);
    var reserved, claimed := Only(b, Reserved), Only(b, Claimed);

    assert Step(At(b, reserved, Idle), SelectPending) == At(b, reserved, NothingPending);
    actions := Then(b, actions, SelectPending);

    assert Step(At(b, reserved, NothingPending), CheckHealth) == At(b, reserved, ClaimReady);
    actions := Then(b, actions, CheckHealth);

    ClaimsIt(b);
    actions := Then(b, actions, ClaimSlot({b.job}));

    SelectsIt(b);
    actions := Then(b, actions, SelectPending);

    assert Step(At(b, claimed, Selected(1, None)), StartRun) == At(b, claimed, Running(1, false));
    actions := Then(b, actions, StartRun);
  }

  lemma ClaimsIt(b: Booking)
    ensures Step(At(b, Only(b, Reserved), ClaimReady), ClaimSlot({b.job})) == At(b, Only(b, Claimed), Idle)
  {
    assert FirstClaimable(Only(b, Reserved), 1, {b.job});
    assert SetState(Only(b, Reserved), 1, Claimed) == Only(b, Claimed);
  }

  lemma SelectsIt(b: Booking)
    ensures Step(At(b, Only(b, Claimed), Idle), SelectPending) == At(b, Only(b, Claimed), Selected(1, None))
  {
    assert FirstPending(Only(b, Claimed), 1);
  }

  /// A runner that answers pending before the hold

  lemma AfterRunStuckIff(slots: Slots, n: nat, result: RunResult, failed: bool)
    requires AtWork(slots, n, failed) && SlotOk(slots[n]) && !(failed && IsSuccess(result))
    ensures n in AfterRun(slots, n, result)
    ensures IsStuck(AfterRun(slots, n, result)[n]) <==>
            result == RanManualReview || result == RanReverted ||
            if result == RanPending then slots[n].txHash.None? else IsStuck(slots[n])
  {
    var slot := AfterRun(slots, n, result)[n];
    if IsSuccess(result) {
      assert slot == if slots[n].txHash.Some? then slots[n].(state := Reconciled) else slots[n];
    }
  }

  lemma RunEnds(s: System, result: RunResult)
    requires s.worker.Running? && !(s.worker.failed && IsSuccess(result))
    ensures Step(Step(s, RunReturns(result)), ApplyResult)
            == s.(slots := AfterRun(s.slots, s.worker.slot, result), worker := Idle)
  {
    assert Step(s, RunReturns(result)) == s.(worker := Finished(s.worker.slot, result));
  }

  /** Which slots a run leaves stuck: with `pending` exactly those that have no hash yet. */
  lemma EndsStuckIff(s: System, result: RunResult)
    requires Inv(s) && s.worker.Running? && !(s.worker.failed && IsSuccess(result))
    ensures var n := s.worker.slot;
            var r := Step(Step(s, RunReturns(result)), ApplyResult);
            n in r.slots &&
            (IsStuck(r.slots[n]) <==>
               result == RanManualReview || result == RanReverted ||
               if result == RanPending then s.slots[n].txHash.None? else IsStuck(s.slots[n]))
  {
    RunEnds(s, result);
    AfterRunStuckIff(s.slots, s.worker.slot, result, s.worker.failed);
  }

  /**
   A run from the empty service after which a slot is `unknown` without a hash: the worker is
   idle, nothing was sent, and nothing will be sent whatever happens next.
   */
  lemma PendingLeavesStuckSlot(b: Booking) returns (actions: seq<Action>)
    requires IsBooking(b)
    ensures Initial(Empty(b)) && Run(Empty(b), actions).worker.Idle? && Run(Empty(b), actions).slots == Only(b, Unknown)
    ensures forall more :: Run(Empty(b), actions + more).chain == []
  {
    EmptyIsInitial(b);
    actions := ClaimedRun(b);
    var claimed := Only(b, Claimed);

    assert AfterRun(claimed, 1, RanPending) == Only(b, Unknown);
    RunEnds(At(b, claimed, Running(1, false)), RanPending);
    actions := Then(b, actions, RunReturns(RanPending));
    actions := Then(b, actions, ApplyResult);

    forall more ensures Run(Empty(b), actions + more).chain == [] {
      StuckSlotStopsEverything(Empty(b), actions, more, 1);
    }
  }

  /// A submission

  datatype Signature = Signature(txHash: L.Hash, nonce: int, now: L.Time)

  function Stored(b: Booking, t: Signature): Slots {
    map[1 := Slot(b.job, Unknown, Some(t.txHash), Some(t.nonce), GAS_RESERVATION, None)]
  }

  /** Hash in the slot row and in the ledger row, and nothing sent yet. */
  function Armed(b: Booking, t: Signature): System {
    At(b, Stored(b, t), ReadyToSend(1, false, GAS_PRICE, t.txHash, b.op))
    .(ledger := map[b.op := L.BoundedAssign(b.row, t.txHash, t.now)])
  }

  /** The checks and the hold. */
  lemma HeldRun(b: Booking) returns (actions: seq<Action>)
    requires IsBooking(b)
    ensures Run(Empty(b), actions) == At(b, Only(b, Signing), Holding(1, false, GAS_PRICE))
  {
    actions := ClaimedRun(b);
    var claimed, signing := Only(b, Claimed), Only(b, Signing);

    var check := CheckSubmit(GAS_PRICE, 300000);
    assert ChecksPass(claimed, Empty(b).protocolId, 1, GAS_PRICE, 300000);
    assert Step(At(b, claimed, Running(1, false)), check) == At(b, claimed, Checked(1, false, GAS_PRICE));
    actions := Then(b, actions, check);

    assert SetState(claimed, 1, Signing) == signing;
    assert Step(At(b, claimed, Checked(1, false, GAS_PRICE)), HoldSlot) == At(b, signing, Holding(1, false, GAS_PRICE));
    actions := Then(b, actions, HoldSlot);

  }

  /** The signature and the update of the slot row. */
  lemma SignedRun(b: Booking, t: Signature) returns (actions: seq<Action>)
    requires IsBooking(b)
    ensures Run(Empty(b), actions) == At(b, Stored(b, t), SlotRecorded(1, false, GAS_PRICE, t.txHash))
  {
    actions := HeldRun(b);
    var signing := Only(b, Signing);

    var sign, signed := Sign(t.txHash, t.nonce), Signed(1, false, GAS_PRICE, t.txHash, t.nonce);
    assert Step(At(b, signing, Holding(1, false, GAS_PRICE)), sign) == At(b, signing, signed);
    actions := Then(b, actions, sign);

    assert StoreHash(signing, 1, t.txHash, t.nonce) == Stored(b, t);
    assert Step(At(b, signing, signed), RecordInSlot)
           == At(b, Stored(b, t), SlotRecorded(1, false, GAS_PRICE, t.txHash));
    actions := Then(b, actions, RecordInSlot);
  }

  lemma RecordsIt(b: Booking, t: Signature)
    requires IsBooking(b)
    ensures Step(At(b, Stored(b, t), SlotRecorded(1, false, GAS_PRICE, t.txHash)), RecordInLedger(t.now)) == Armed(b, t)
  {
    DispatchesIt(b, t);
    assert Stored(b, t)[1].job == b.job;
  }

  lemma DispatchesIt(b: Booking, t: Signature)
    requires IsBooking(b)
    ensures BoundedTargets(map[b.op := b.row], b.protocolId) == {b.op}
    ensures L.Execute(map[b.op := b.row], L.BoundedDispatch(COMMERCE, b.protocolId, t.txHash, t.now))
            == map[b.op := L.BoundedAssign(b.row, t.txHash, t.now)]
  {
  }

  lemma ArmedRun(b: Booking, t: Signature) returns (actions: seq<Action>)
    requires IsBooking(b)
    ensures Run(Empty(b), actions) == Armed(b, t) && Inv(Armed(b, t))
  {
    actions := SignedRun(b, t);
    RecordsIt(b, t);
    actions := Then(b, actions, RecordInLedger(t.now));
    EmptyIsInitial(b);
    InitialInv(Empty(b));
    RunKeepsInv(Empty(b), actions);
  }

  /** A stop after both rows hold the hash and before the send. */
  lemma StopLeavesUnsentSlot(b: Booking, t: Signature) returns (actions: seq<Action>)
    requires IsBooking(b)
    ensures Initial(Empty(b)) && Run(Empty(b), actions).slots == Stored(b, t) && Run(Empty(b), actions).worker.Idle?
    ensures forall more :: GenuineRun(Run(Empty(b), actions), more) ==> Run(Empty(b), actions + more).chain == []
  {
    EmptyIsInitial(b);
    actions := ArmedRun(b, t);
    assert Step(Armed(b, t), Crash) == Armed(b, t).(worker := Idle);
    actions := Then(b, actions, Crash);
    UnsentForGood(b, t, actions);
  }

  /** The worker's update finds the operation taken: nothing is sent, and the runner answers pending. */
  lemma RefusalLeavesUnsentSlot(b: Booking, t: Signature, other: L.Hash) returns (actions: seq<Action>)
    requires IsBooking(b)
    ensures Initial(Empty(b)) && Run(Empty(b), actions).slots == Stored(b, t) && Run(Empty(b), actions).worker.Idle?
    ensures forall more :: GenuineRun(Run(Empty(b), actions), more) ==> Run(Empty(b), actions + more).chain == []
  {
    EmptyIsInitial(b);
    actions := SignedRun(b, t);
    var s := Run(Empty(b), actions);
    var taken := Other(L.On(b.op, L.MarkSubmitted(other, t.now)));
    actions := Then(b, actions, taken);
    var refused := RefusesIt(b, t, other);
    actions := Then(b, actions, RecordInLedger(t.now));
    RunEnds(refused, RanPending);
    assert AfterRun(Stored(b, t), 1, RanPending) == Stored(b, t);
    actions := Then(b, actions, RunReturns(RanPending));
    actions := Then(b, actions, ApplyResult);
    UnsentForGood(b, t, actions);
  }

  lemma RefusesIt(b: Booking, t: Signature, other: L.Hash) returns (refused: System)
    requires IsBooking(b)
    ensures var s := At(b, Stored(b, t), SlotRecorded(1, false, GAS_PRICE, t.txHash));
            Step(Step(s, Other(L.On(b.op, L.MarkSubmitted(other, t.now)))), RecordInLedger(t.now)) == refused
    ensures refused.worker == Running(1, false) && refused.slots == Stored(b, t) && refused.chain == []
  {
    var s := At(b, Stored(b, t), SlotRecorded(1, false, GAS_PRICE, t.txHash));
    var taken := s.(ledger := map[b.op := L.Assign(b.row, L.MarkSubmitted(other, t.now))]);
    assert Step(s, Other(L.On(b.op, L.MarkSubmitted(other, t.now)))) == taken;
    NoTargets(b, t, other);
    refused := Refused(taken, t.now);
  }

  lemma Refused(s: System, now: L.Time) returns (refused: System)
    requires s.worker.SlotRecorded? && s.worker.slot in s.slots && s.slots[s.worker.slot].job in s.protocolId
    requires BoundedTargets(s.ledger, s.protocolId[s.slots[s.worker.slot].job]) == {}
    ensures Step(s, RecordInLedger(now)) == refused && refused == s.(
              ledger := refused.ledger, worker := Running(s.worker.slot, s.worker.failed))
  {
    refused := RecordLedgerStep(s, now);
  }

  lemma NoTargets(b: Booking, t: Signature, other: L.Hash)
    ensures BoundedTargets(map[b.op := L.Assign(b.row, L.MarkSubmitted(other, t.now))], b.protocolId) == {}
  {
  }

  lemma UnsentForGood(b: Booking, t: Signature, actions: seq<Action>)
    requires Initial(Empty(b)) && Run(Empty(b), actions).worker.Idle?
    requires Run(Empty(b), actions).slots == Stored(b, t) && Run(Empty(b), actions).chain == []
    ensures forall more :: GenuineRun(Run(Empty(b), actions), more) ==> Run(Empty(b), actions + more).chain == []
  {
    forall more | GenuineRun(Run(Empty(b), actions), more) ensures Run(Empty(b), actions + more).chain == [] {
      UnsentSlotStopsEverything(Empty(b), actions, more, 1);
    }
  }

  /**
   A run from the empty service that sends one transaction while the ledger row already holds
   another hash, recorded as a receipt after the worker's update.
   */
  lemma ForeignReceiptRun(b: Booking, t: Signature, other: L.Hash, block: L.Block) returns (actions: seq<Action>)
    requires IsBooking(b) && other != t.txHash
    ensures Initial(Empty(b))
    ensures var chain := Run(Empty(b), actions).chain;
            |chain| == 1 && chain[0].txHash == t.txHash && chain[0].ledgerRow.txHash == Some(other)
  {
    EmptyIsInitial(b);
    actions := ArmedRun(b, t);
    var receipt := Other(L.On(b.op, L.MarkReceipt(true, other, block, None, t.now)));
    ForeignReceiptBreaksEvidence(Armed(b, t), other, block, t.now);
    actions := Then(b, actions, receipt);
    actions := Then(b, actions, Send(0));
  }

  function Paid(b: Booking, t: Signature, gasUsed: nat, state: SlotState): Slots {
    map[1 := Slot(b.job, state, Some(t.txHash), Some(t.nonce), GAS_RESERVATION, Some(gasUsed * GAS_PRICE))]
  }

  function SentOf(b: Booking, t: Signature, gasUsed: nat): Broadcast {
    Broadcast(1, t.txHash, GAS_PRICE, gasUsed, Some(t.txHash), L.BoundedAssign(b.row, t.txHash, t.now))
  }

  lemma SendsIt(b: Booking, t: Signature, gasUsed: nat)
    requires gasUsed <= GAS_LIMIT
    ensures Step(Armed(b, t), Send(gasUsed))
            == Armed(b, t).(worker := Sent(1, false, t.txHash), chain := [SentOf(b, t, gasUsed)])
  {
    assert Armed(b, t).chain + [SentOf(b, t, gasUsed)] == [SentOf(b, t, gasUsed)];
  }

  lemma PaysIt(b: Booking, t: Signature, gasUsed: nat)
    requires gasUsed <= GAS_LIMIT
    ensures RecordReceipt(Stored(b, t), 1, t.txHash, Receipt(true, gasUsed, GAS_PRICE))
            == Some(Paid(b, t, gasUsed, Submitted))
  {
    FeeBound(GAS_PRICE, gasUsed);
    var slots := Stored(b, t);
    assert slots[1 := slots[1].(state := Submitted, gasSpent := Some(gasUsed * GAS_PRICE))]
           == Paid(b, t, gasUsed, Submitted);
  }

  lemma PaidRun(b: Booking, t: Signature, gasUsed: nat) returns (actions: seq<Action>)
    requires IsBooking(b) && gasUsed <= GAS_LIMIT
    ensures Run(Empty(b), actions) == Armed(b, t).(
              worker := Running(1, false), slots := Paid(b, t, gasUsed, Submitted), chain := [SentOf(b, t, gasUsed)])
  {
    actions := ArmedRun(b, t);
    SendsIt(b, t, gasUsed);
    actions := Then(b, actions, Send(gasUsed));
    PaysIt(b, t, gasUsed);
    actions := Then(b, actions, AwaitReceipt(Receipt(true, gasUsed, GAS_PRICE)));
  }

  /** A submission left alone: one transaction with its hash in both rows, and a reconciled slot. */
  lemma UndisturbedRun(b: Booking, t: Signature, gasUsed: nat) returns (actions: seq<Action>)
    requires IsBooking(b) && gasUsed <= GAS_LIMIT
    ensures Initial(Empty(b))
    ensures var r := Run(Empty(b), actions);
            && r.worker.Idle? && r.slots.Keys == {1}
            && r.slots[1].job == b.job && r.slots[1].state == Reconciled && r.slots[1].txHash == Some(t.txHash)
            && |r.chain| == 1 && r.chain[0].slot == 1 && r.chain[0].txHash == t.txHash
            && r.chain[0].slotHash == r.chain[0].ledgerRow.txHash == Some(t.txHash)
            && r.slots[1].gasSpent == Some(Fees(r.chain))
  {
    EmptyIsInitial(b);
    actions := PaidRun(b, t, gasUsed);
    RunEnds(Run(Empty(b), actions), RanSubmitted);
    ReconcilesIt(b, t, gasUsed);
    actions := Then(b, actions, RunReturns(RanSubmitted));
    actions := Then(b, actions, ApplyResult);
    OneFee(SentOf(b, t, gasUsed));
  }

  lemma ReconcilesIt(b: Booking, t: Signature, gasUsed: nat)
    ensures AfterRun(Paid(b, t, gasUsed, Submitted), 1, RanSubmitted) == Paid(b, t, gasUsed, Reconciled)
  {
  }

  lemma OneFee(sent: Broadcast)
    ensures Fees([sent]) == sent.gasUsed * sent.gasPrice
  {
    assert [sent][..0] == [];
  }
}
