/**
 Delivery of a funded job to an external seller.  Any number of buyer calls run side by side;
 a step is one SQL statement, one POST or one lost caller, so every interleaving of calls,
 lost replies and crashes is a run.
 */
module Delivery {
  import opened Wrappers

  type JobId = string

  datatype Status = Claimed | Notified | Unknown | ResultVerified

  /** What a call is about: the commerce job, its buyer, the protocol job and the digest of the quote. */
  datatype Terms = Terms(job: JobId, buyer: string, protocolJob: string, quoteDigest: string)

  datatype Row = Row(buyer: string, protocolJob: string, quoteDigest: string, status: Status)

  type Rows = map<JobId, Row>

  /// Statements

  predicate Bound(row: Row, t: Terms) {
    row.buyer == t.buyer && row.protocolJob == t.protocolJob && row.quoteDigest == t.quoteDigest
  }

  /** `INSERT ... ON CONFLICT(commerce_job_id) DO NOTHING`. */
  function Insert(rows: Rows, t: Terms): Rows {
    if t.job in rows then rows else rows[t.job := Row(t.buyer, t.protocolJob, t.quoteDigest, Claimed)]
  }

  /** The UPDATE of `finish`. */
  predicate Finishes(rows: Rows, t: Terms) {
    t.job in rows && rows[t.job].buyer == t.buyer && rows[t.job].quoteDigest == t.quoteDigest &&
    rows[t.job].status == Claimed
  }

  function Finish(rows: Rows, t: Terms, status: Status): Rows {
    if Finishes(rows, t) then rows[t.job := rows[t.job].(status := status)] else rows
  }

  /** The last UPDATE of `refresh`, whatever the status was. */
  function Verify(rows: Rows, t: Terms): Rows {
    if t.job in rows && rows[t.job].buyer == t.buyer then rows[t.job := rows[t.job].(status := ResultVerified)]
    else rows
  }

  datatype Error = IdempotencyConflict | ReconciliationRequired

  /** `PostgresExternalDeliveryStore`, and one whole `notifyExternalSellerOnce` that nobody interrupts. */
  class Store {
    var rows: Rows
    /** The POSTs that went out. */
    ghost var posted: seq<Terms>

    constructor ()
      ensures rows == map[] && posted == []
    {
      rows, posted := map[], [];
    }

    method Claim(t: Terms) returns (r: Result<(bool, Status), Error>)
      modifies this`rows
      ensures rows == Insert(old(rows), t)
      ensures t.job !in old(rows) ==> r == Success((true, Claimed))
      ensures t.job !in old(rows) ==> rows == old(rows)[t.job := Row(t.buyer, t.protocolJob, t.quoteDigest, Claimed)]
      ensures t.job in old(rows) ==>
                rows == old(rows) &&
                (r.Success? <==>
                 old(rows)[t.job] == Row(t.buyer, t.protocolJob, t.quoteDigest, old(rows)[t.job].status)) &&
                r == if Bound(old(rows)[t.job], t) then Success((false, old(rows)[t.job].status))
                     else Failure(IdempotencyConflict)
    {
      var inserted := t.job !in rows;
      if inserted {
        rows := rows[t.job := Row(t.buyer, t.protocolJob, t.quoteDigest, Claimed)];
      }
      var row := rows[t.job];
      if row.buyer != t.buyer || row.quoteDigest != t.quoteDigest || row.protocolJob != t.protocolJob {
        return Failure(IdempotencyConflict);
      }
      r := Success((inserted, row.status));
    }

    method FinishClaim(t: Terms, status: Status) returns (r: Result<(), Error>)
      modifies this`rows
      ensures rows == Finish(old(rows), t, status)
      ensures r.Success? <==> Finishes(old(rows), t)
      ensures r.Success? <==>
                t.job in old(rows) &&
                old(rows)[t.job] == Row(t.buyer, old(rows)[t.job].protocolJob, t.quoteDigest, Claimed)
      ensures rows == if r.Success? then old(rows)[t.job := old(rows)[t.job].(status := status)] else old(rows)
    {
      if t.job in rows && rows[t.job].buyer == t.buyer && rows[t.job].quoteDigest == t.quoteDigest &&
         rows[t.job].status == Claimed {
        rows := rows[t.job := rows[t.job].(status := status)];
        return Success(());
      }
      r := Failure(ReconciliationRequired);
    }

    /**
     The seller hears of the job exactly when this call made the claim; the answer that comes
     back, or fails to, is what the row records, and every later call only replays it.
     */
    method NotifyOnce(t: Terms, posts: bool, answers: bool) returns (r: Result<(Status, bool), Error>)
      requires answers ==> posts
      modifies this
      ensures posted == if t.job !in old(rows) && posts then old(posted) + [t] else old(posted)
      ensures t.job !in old(rows) ==>
                rows == old(rows)[t.job := Row(t.buyer, t.protocolJob, t.quoteDigest,
                                               if answers then Notified else Unknown)] &&
                r == if answers then Success((Notified, false)) else Failure(ReconciliationRequired)
      ensures t.job in old(rows) ==>
                var row := old(rows)[t.job];
                rows == old(rows) &&
                r == if row == Row(t.buyer, t.protocolJob, t.quoteDigest, row.status) then Success((row.status, true))
                     else Failure(IdempotencyConflict)
    {
      var claim :- Claim(t);
      if !claim.0 {
        return Success((claim.1, true));
      }
      if posts {
        posted := posted + [t];
      }
      if answers {
        var finished := FinishClaim(t, Notified);
        if finished.Success? {
          return Success((Notified, false));
        }
      }
      var failed := FinishClaim(t, Unknown);
      r := Failure(ReconciliationRequired);
    }
  }

  /// Interleaved calls

  datatype Phase =
    | Started
    | Inserted
    | ReadyToPost
    | Posted
    | NotifyFailed
    | ReadyToVerify
    | Over

  /** A call of `notify` or of `refresh`; `won` says that its insert created the row. */
  datatype Caller = Caller(terms: Terms, notifies: bool, phase: Phase, won: bool)

  datatype System = System(rows: Rows, callers: seq<Caller>, sent: seq<nat>)

  datatype Action =
    | Begin(terms: Terms, notifies: bool)
    | DoInsert(c: nat, replyLost: bool)
    | DoSelect(c: nat)
    | Post(c: nat)
    | PostFails(c: nat)
    | FinishNotified(c: nat, replyLost: bool)
    | FinishUnknown(c: nat)
    | DoVerify(c: nat)
    | Crash(c: nat)

  function At(s: System, c: nat, caller: Caller): System
    requires c < |s.callers|
  {
    s.(callers := s.callers[c := caller])
  }

  function CallerStep(s: System, a: Action): System
    requires !a.Begin? && a.c < |s.callers|
  {
    var c, caller := a.c, s.callers[a.c];
    var t := caller.terms;
    match (a, caller.phase)
    case (DoInsert(_, replyLost), Started) =>
      At(s, c, caller.(phase := if replyLost then Over else Inserted, won := t.job !in s.rows))
      .(rows := Insert(s.rows, t))
    case (DoSelect(_), Inserted) =>
      if t.job in s.rows && Bound(s.rows[t.job], t) then
        At(s, c, caller.(phase := if !caller.notifies then ReadyToVerify
                                  else if caller.won then ReadyToPost else Over))
      else At(s, c, caller.(phase := Over))
    case (Post(_), ReadyToPost) => At(s, c, caller.(phase := Posted)).(sent := s.sent + [c])
    case (PostFails(_), ReadyToPost) => At(s, c, caller.(phase := NotifyFailed))
    case (PostFails(_), Posted) => At(s, c, caller.(phase := NotifyFailed))
    case (FinishNotified(_, replyLost), Posted) =>
      At(s, c, caller.(phase := if Finishes(s.rows, t) && !replyLost then Over else NotifyFailed))
      .(rows := Finish(s.rows, t, Notified))
    case (FinishUnknown(_), NotifyFailed) =>
      At(s, c, caller.(phase := Over)).(rows := Finish(s.rows, t, Unknown))
    case (DoVerify(_), ReadyToVerify) => At(s, c, caller.(phase := Over)).(rows := Verify(s.rows, t))
    case (Crash(_), _) => At(s, c, caller.(phase := Over))
    case _ => s
  }

  function Step(s: System, a: Action): System {
    if a.Begin? then s.(callers := s.callers + [Caller(a.terms, a.notifies, Started, false)])
    else if a.c < |s.callers| then CallerStep(s, a)
    else s
  }

  function Run(s: System, actions: seq<Action>): System
    decreases |actions|
  {
    if actions == [] then s else Run(Step(s, actions[0]), actions[1..])
  }

  const INITIAL := System(map[], [], [])

  /// The invariant

  predicate MayHavePosted(p: Phase) {
    p == Posted || p == NotifyFailed || p == Over
  }

  predicate CallerOk(rows: Rows, caller: Caller) {
    && (caller.phase == Started ==> !caller.won)
    && (caller.phase in {ReadyToPost, Posted, NotifyFailed} ==> caller.won)
    && (caller.won ==> caller.terms.job in rows && Bound(rows[caller.terms.job], caller.terms))
    && (caller.phase == ReadyToVerify ==> caller.terms.job in rows && Bound(rows[caller.terms.job], caller.terms))
  }

  predicate WinnersDistinct(callers: seq<Caller>) {
    forall i, j :: 0 <= i < j < |callers| && callers[i].won && callers[j].won ==>
      callers[i].terms.job != callers[j].terms.job
  }

  predicate SentOk(callers: seq<Caller>, sent: seq<nat>) {
    && (forall k :: 0 <= k < |sent| ==>
          sent[k] < |callers| && callers[sent[k]].won && MayHavePosted(callers[sent[k]].phase))
    && (forall k, l :: 0 <= k < l < |sent| ==> sent[k] != sent[l])
  }

  predicate WasPosted(callers: seq<Caller>, sent: seq<nat>, job: JobId) {
    exists k :: 0 <= k < |sent| && sent[k] < |callers| && callers[sent[k]].terms.job == job
  }

  /** A row that says `notified` is about a POST that went out. */
  predicate NotifiedOk(s: System) {
    && (forall job :: job in s.rows && s.rows[job].status == Notified ==> WasPosted(s.callers, s.sent, job))
    && (forall c :: 0 <= c < |s.callers| && s.callers[c].phase == Posted ==>
          WasPosted(s.callers, s.sent, s.callers[c].terms.job))
  }

  predicate Inv(s: System) {
    && (forall c :: 0 <= c < |s.callers| ==> CallerOk(s.rows, s.callers[c]))
    && WinnersDistinct(s.callers) && SentOk(s.callers, s.sent) && NotifiedOk(s)
  }

  /// Rows

  predicate StatusFollows(a: Status, b: Status) {
    a == b || a == Claimed || b == ResultVerified
  }

  /** Rows stay, with their buyer, job and quote; their status only moves forward. */
  predicate RowsGrow(a: Rows, b: Rows) {
    forall job :: job in a ==>
      job in b && b[job] == a[job].(status := b[job].status) && StatusFollows(a[job].status, b[job].status)
  }

  lemma StepRowsGrow(s: System, a: Action)
    ensures RowsGrow(s.rows, Step(s, a).rows)
  {
  }

  lemma {:induction false} RunRowsGrow(s: System, actions: seq<Action>)
    ensures RowsGrow(s.rows, Run(s, actions).rows)
    decreases |actions|
  {
    if actions != [] {
      StepRowsGrow(s, actions[0]);
      RunRowsGrow(Step(s, actions[0]), actions[1..]);
    }
  }

  /// Steps keep the invariant

  lemma OtherCallersOk(s: System, rows: Rows)
    requires Inv(s) && RowsGrow(s.rows, rows)
    ensures forall c :: 0 <= c < |s.callers| ==> CallerOk(rows, s.callers[c])
  {
    forall c | 0 <= c < |s.callers| ensures CallerOk(rows, s.callers[c]) {
      assert CallerOk(s.rows, s.callers[c]);
    }
  }

  /** Posts stay posts when callers move on or new ones arrive. */
  lemma PostedFrame(callers: seq<Caller>, sent: seq<nat>, next: seq<Caller>, more: seq<nat>, job: JobId)
    requires WasPosted(callers, sent, job) && |callers| <= |next|
    requires forall c :: 0 <= c < |callers| ==> next[c].terms == callers[c].terms
    requires sent <= more
    ensures WasPosted(next, more, job)
  {
    var k :| 0 <= k < |sent| && sent[k] < |callers| && callers[sent[k]].terms.job == job;
    assert more[k] == sent[k];
  }

  lemma BeginInv(s: System, a: Action)
    requires Inv(s) && a.Begin?
    ensures Inv(Step(s, a))
  {
    var next := Step(s, a);
    forall job | job in s.rows && s.rows[job].status == Notified ensures WasPosted(next.callers, next.sent, job) {
      PostedFrame(s.callers, s.sent, next.callers, next.sent, job);
    }
    forall c | 0 <= c < |next.callers| && next.callers[c].phase == Posted
      ensures WasPosted(next.callers, next.sent, next.callers[c].terms.job)
    {
      PostedFrame(s.callers, s.sent, next.callers, next.sent, next.callers[c].terms.job);
    }
  }

  /** A caller that moves without creating a row, posting, or writing `notified`. */
  lemma MoveInv(s: System, c: nat, caller: Caller, rows: Rows)
    requires Inv(s) && c < |s.callers| && RowsGrow(s.rows, rows)
    requires caller.terms == s.callers[c].terms && caller.won == s.callers[c].won && CallerOk(rows, caller)
    requires MayHavePosted(s.callers[c].phase) ==> MayHavePosted(caller.phase)
    requires caller.phase == Posted ==> s.callers[c].phase == Posted
    requires forall job :: job in rows && rows[job].status == Notified ==> WasPosted(s.callers, s.sent, job)
    ensures Inv(At(s, c, caller).(rows := rows))
  {
    var next := At(s, c, caller).(rows := rows);
    OtherCallersOk(s, rows);
    forall job | job in rows && rows[job].status == Notified ensures WasPosted(next.callers, next.sent, job) {
      PostedFrame(s.callers, s.sent, next.callers, next.sent, job);
    }
    forall d | 0 <= d < |next.callers| && next.callers[d].phase == Posted
      ensures WasPosted(next.callers, next.sent, next.callers[d].terms.job)
    {
      PostedFrame(s.callers, s.sent, next.callers, next.sent, next.callers[d].terms.job);
    }
  }

  lemma InsertInv(s: System, c: nat, replyLost: bool)
    requires Inv(s) && c < |s.callers| && s.callers[c].phase == Started
    ensures Inv(CallerStep(s, DoInsert(c, replyLost)))
  {
    var next := CallerStep(s, DoInsert(c, replyLost));
    var t := s.callers[c].terms;
    OtherCallersOk(s, next.rows);
    assert CallerOk(s.rows, s.callers[c]);
    forall k | 0 <= k < |s.sent| ensures s.sent[k] != c {
      assert MayHavePosted(s.callers[s.sent[k]].phase);
    }
    forall i | 0 <= i < |s.callers| && i != c && s.callers[i].won && next.callers[c].won
      ensures s.callers[i].terms.job != t.job
    {
      assert CallerOk(s.rows, s.callers[i]);
    }
    InsertNotified(s, next, c);
  }

  lemma InsertNotified(s: System, next: System, c: nat)
    requires NotifiedOk(s) && c < |s.callers| && s.callers[c].phase == Started
    requires next.rows == Insert(s.rows, s.callers[c].terms) && next.sent == s.sent
    requires |next.callers| == |s.callers| && next.callers[c].phase != Posted
    requires next.callers[c].terms == s.callers[c].terms
    requires forall d :: 0 <= d < |s.callers| && d != c ==> next.callers[d] == s.callers[d]
    ensures NotifiedOk(next)
  {
    forall job | job in next.rows && next.rows[job].status == Notified ensures WasPosted(next.callers, next.sent, job) {
      PostedFrame(s.callers, s.sent, next.callers, next.sent, job);
    }
    forall d | 0 <= d < |next.callers| && next.callers[d].phase == Posted
      ensures WasPosted(next.callers, next.sent, next.callers[d].terms.job)
    {
      PostedFrame(s.callers, s.sent, next.callers, next.sent, next.callers[d].terms.job);
    }
  }

  lemma PostInv(s: System, c: nat)
    requires Inv(s) && c < |s.callers| && s.callers[c].phase == ReadyToPost
    ensures Inv(CallerStep(s, Post(c)))
  {
    var next := CallerStep(s, Post(c));
    OtherCallersOk(s, s.rows);
    assert CallerOk(s.rows, s.callers[c]);
    forall k | 0 <= k < |s.sent| ensures s.sent[k] != c {
      assert MayHavePosted(s.callers[s.sent[k]].phase);
    }
    assert next.sent[|s.sent|] == c;
    forall job | job in s.rows && s.rows[job].status == Notified ensures WasPosted(next.callers, next.sent, job) {
      PostedFrame(s.callers, s.sent, next.callers, next.sent, job);
    }
    forall d | 0 <= d < |next.callers| && next.callers[d].phase == Posted
      ensures WasPosted(next.callers, next.sent, next.callers[d].terms.job)
    {
      if d == c {
        assert next.callers[next.sent[|s.sent|]].terms.job == next.callers[c].terms.job;
      } else {
        PostedFrame(s.callers, s.sent, next.callers, next.sent, next.callers[d].terms.job);
      }
    }
  }

  lemma FinishInv(s: System, c: nat, replyLost: bool)
    requires Inv(s) && c < |s.callers| && s.callers[c].phase == Posted
    ensures Inv(CallerStep(s, FinishNotified(c, replyLost)))
  {
    var caller := s.callers[c];
    var t := caller.terms;
    assert CallerOk(s.rows, caller);
    assert WasPosted(s.callers, s.sent, t.job);
    StepRowsGrow(s, FinishNotified(c, replyLost));
    MoveInv(s, c, caller.(phase := if Finishes(s.rows, t) && !replyLost then Over else NotifyFailed),
            Finish(s.rows, t, Notified));
  }

  lemma MovesInv(s: System, a: Action)
    requires Inv(s) && !a.Begin? && !a.DoInsert? && !a.Post? && !a.FinishNotified? && a.c < |s.callers|
    ensures Inv(CallerStep(s, a))
  {
    var next := CallerStep(s, a);
    StepRowsGrow(s, a);
    assert CallerOk(s.rows, s.callers[a.c]);
    if next != s {
      assert next == At(s, a.c, next.callers[a.c]).(rows := next.rows);
      MoveInv(s, a.c, next.callers[a.c], next.rows);
    }
  }

  lemma StepInv(s: System, a: Action)
    requires Inv(s)
    ensures Inv(Step(s, a))
  {
    if a.Begin? {
      BeginInv(s, a);
    } else if a.c < |s.callers| {
      if a.DoInsert? && s.callers[a.c].phase == Started {
        InsertInv(s, a.c, a.replyLost);
      } else if a.Post? && s.callers[a.c].phase == ReadyToPost {
        PostInv(s, a.c);
      } else if a.FinishNotified? && s.callers[a.c].phase == Posted {
        FinishInv(s, a.c, a.replyLost);
      } else if !a.DoInsert? && !a.Post? && !a.FinishNotified? {
        MovesInv(s, a);
      }
    }
  }

  lemma {:induction false} RunInv(s: System, actions: seq<Action>)
    requires Inv(s)
    ensures Inv(Run(s, actions))
    decreases |actions|
  {
    if actions != [] {
      StepInv(s, actions[0]);
      RunInv(Step(s, actions[0]), actions[1..]);
    }
  }

  /// Guarantees

  /**
   Over any interleaving of calls, lost replies and crashes, the seller is notified at most once
   per commerce job, always with the terms the stored claim is bound to; and a row that says
   `notified` tells the truth.
   */
  lemma NotifiedAtMostOnce(actions: seq<Action>)
    ensures var s := Run(INITIAL, actions);
            && (forall k, l :: 0 <= k < l < |s.sent| ==>
                  s.sent[k] < |s.callers| && s.sent[l] < |s.callers| &&
                  s.callers[s.sent[k]].terms.job != s.callers[s.sent[l]].terms.job)
            && (forall k :: 0 <= k < |s.sent| ==>
                  s.sent[k] < |s.callers| &&
                  var t := s.callers[s.sent[k]].terms;
                  t.job in s.rows && Bound(s.rows[t.job], t))
            && (forall job :: job in s.rows && s.rows[job].status == Notified ==> WasPosted(s.callers, s.sent, job))
  {
    RunInv(INITIAL, actions);
    var s := Run(INITIAL, actions);
    forall k | 0 <= k < |s.sent| ensures CallerOk(s.rows, s.callers[s.sent[k]]) {
    }
    forall k, l | 0 <= k < l < |s.sent|
      ensures s.callers[s.sent[k]].terms.job != s.callers[s.sent[l]].terms.job
    {
      var i, j := s.sent[k], s.sent[l];
      assert i < j || j < i;
    }
  }

  lemma {:induction false} RunConcat(s: System, xs: seq<Action>, ys: seq<Action>)
    ensures Run(s, xs + ys) == Run(Run(s, xs), ys)
    decreases |xs|
  {
    if xs == [] {
      assert xs + ys == ys;
    } else {
      assert (xs + ys)[1..] == xs[1..] + ys;
      RunConcat(Step(s, xs[0]), xs[1..], ys);
    }
  }

  /**
   A stored claim never changes its buyer, protocol job or quote; a `notified` row never becomes
   `unknown` or `claimed` again, an `unknown` one never `notified`, and `result_verified` is final.
   */
  lemma ClaimsImmutable(xs: seq<Action>, ys: seq<Action>, job: JobId)
    requires job in Run(INITIAL, xs).rows
    ensures var before, after := Run(INITIAL, xs).rows[job], Run(INITIAL, xs + ys).rows;
            && job in after && after[job] == before.(status := after[job].status)
            && (before.status == Notified ==> after[job].status in {Notified, ResultVerified})
            && (before.status == Unknown ==> after[job].status in {Unknown, ResultVerified})
            && (before.status == ResultVerified ==> after[job].status == ResultVerified)
  {
    RunConcat(INITIAL, xs, ys);
    RunRowsGrow(Run(INITIAL, xs), ys);
  }

  /// Claims without an owner

  /** The caller that created the row may still send the notification. */
  predicate HasOwner(s: System, job: JobId) {
    exists c :: 0 <= c < |s.callers| && s.callers[c].won && s.callers[c].terms.job == job &&
                s.callers[c].notifies && (s.callers[c].phase == Inserted || s.callers[c].phase == ReadyToPost)
  }

  predicate NotifiersOk(s: System) {
    forall c :: 0 <= c < |s.callers| && s.callers[c].phase == ReadyToPost ==> s.callers[c].notifies
  }

  lemma StepNotifiers(s: System, a: Action)
    requires NotifiersOk(s)
    ensures NotifiersOk(Step(s, a))
  {
  }

  lemma {:induction false} RunNotifiers(s: System, actions: seq<Action>)
    requires NotifiersOk(s)
    ensures NotifiersOk(Run(s, actions))
    decreases |actions|
  {
    if actions != [] {
      StepNotifiers(s, actions[0]);
      RunNotifiers(Step(s, actions[0]), actions[1..]);
    }
  }

  /** Callers keep their terms and the POSTs that went out stay on record. */
  predicate Later(s: System, next: System) {
    && |s.callers| <= |next.callers| && s.sent <= next.sent
    && forall c :: 0 <= c < |s.callers| ==> next.callers[c].terms == s.callers[c].terms
  }

  /** No POST for the job went out between the two. */
  predicate NothingSent(s: System, next: System, job: JobId) {
    forall k :: |s.sent| <= k < |next.sent| && next.sent[k] < |next.callers| ==>
      next.callers[next.sent[k]].terms.job != job
  }

  lemma StepLater(s: System, a: Action)
    ensures Later(s, Step(s, a))
  {
  }

  lemma StepOwnerless(s: System, a: Action, job: JobId)
    requires Inv(s) && job in s.rows && !HasOwner(s, job)
    ensures !HasOwner(Step(s, a), job)
  {
    var next := Step(s, a);
    StepLater(s, a);
    forall c | 0 <= c < |next.callers| && next.callers[c].won &&
               next.callers[c].terms.job == job && next.callers[c].notifies
      ensures next.callers[c].phase != Inserted && next.callers[c].phase != ReadyToPost
    {
      if c < |s.callers| {
        assert CallerOk(s.rows, s.callers[c]);
      }
    }
  }

  lemma StepNothingSent(s: System, a: Action, job: JobId)
    requires Inv(s) && NotifiersOk(s) && !HasOwner(s, job)
    ensures NothingSent(s, Step(s, a), job)
  {
    if a.Post? && a.c < |s.callers| && s.callers[a.c].phase == ReadyToPost {
      assert CallerOk(s.rows, s.callers[a.c]);
      assert s.callers[a.c].terms.job != job;
    }
  }

  lemma {:induction false} RunNothingSent(s: System, actions: seq<Action>, job: JobId)
    requires Inv(s) && NotifiersOk(s) && job in s.rows && !HasOwner(s, job)
    ensures Later(s, Run(s, actions)) && NothingSent(s, Run(s, actions), job)
    decreases |actions|
  {
    if actions != [] {
      var next, r := Step(s, actions[0]), Run(s, actions);
      StepInv(s, actions[0]);
      StepNotifiers(s, actions[0]);
      StepLater(s, actions[0]);
      StepRowsGrow(s, actions[0]);
      StepOwnerless(s, actions[0], job);
      StepNothingSent(s, actions[0], job);
      RunNothingSent(next, actions[1..], job);
      forall k | |s.sent| <= k < |r.sent| && r.sent[k] < |r.callers| ensures r.callers[r.sent[k]].terms.job != job {
        if k < |next.sent| {
          assert next.sent[k] < |next.callers|;
        }
      }
    }
  }

  /**
   A crash after the claim is never permission to repeat: once the call that created the row can
   no longer send, no later run sends anything for that job.
   */
  lemma AbandonedClaimNeverSent(xs: seq<Action>, ys: seq<Action>, job: JobId)
    requires job in Run(INITIAL, xs).rows && !HasOwner(Run(INITIAL, xs), job)
    ensures var before, after := Run(INITIAL, xs), Run(INITIAL, xs + ys);
            && before.sent <= after.sent
            && forall k :: |before.sent| <= k < |after.sent| ==>
                 after.sent[k] < |after.callers| && after.callers[after.sent[k]].terms.job != job
  {
    RunInv(INITIAL, xs);
    RunNotifiers(INITIAL, xs);
    RunConcat(INITIAL, xs, ys);
    RunNothingSent(Run(INITIAL, xs), ys, job);
    RunInv(Run(INITIAL, xs), ys);
  }

  /// Calls that nobody disturbs

  lemma RunSnoc(s: System, actions: seq<Action>, a: Action)
    ensures Run(s, actions + [a]) == Step(Run(s, actions), a)
  {
    RunConcat(s, actions, [a]);
    assert Run(Run(s, actions), [a]) == Run(Step(Run(s, actions), a), []);
  }

  predicate IsStarted(s: System, c: nat, t: Terms, notifies: bool) {
    c < |s.callers| && s.callers[c] == Caller(t, notifies, Started, false)
  }

  function WithRow(s: System, t: Terms, status: Status): Rows {
    s.rows[t.job := Row(t.buyer, t.protocolJob, t.quoteDigest, status)]
  }

  /** Up to the POST: the claim is stored, and the seller has been told. */
  lemma Tells(s: System, c: nat, t: Terms)
    requires IsStarted(s, c, t, true) && t.job !in s.rows
    ensures Run(s, [DoInsert(c, false), DoSelect(c), Post(c)])
         == System(WithRow(s, t, Claimed), s.callers[c := Caller(t, true, Posted, true)], s.sent + [c])
  {
    var claimed := System(WithRow(s, t, Claimed), s.callers[c := Caller(t, true, Inserted, true)], s.sent);
    assert Step(s, DoInsert(c, false)) == claimed;
    var ready := claimed.(callers := s.callers[c := Caller(t, true, ReadyToPost, true)]);
    assert Step(claimed, DoSelect(c)) == ready;
    RunSnoc(s, [], DoInsert(c, false));
    RunSnoc(s, [] + [DoInsert(c, false)], DoSelect(c));
    RunSnoc(s, [] + [DoInsert(c, false)] + [DoSelect(c)], Post(c));
    assert [] + [DoInsert(c, false)] + [DoSelect(c)] + [Post(c)] == [DoInsert(c, false), DoSelect(c), Post(c)];
  }

  /** A first call that is answered notifies the seller once and says so. */
  lemma FirstCallNotifies(s: System, c: nat, t: Terms)
    requires IsStarted(s, c, t, true) && t.job !in s.rows
    ensures var r := Run(s, [DoInsert(c, false), DoSelect(c), Post(c)] + [FinishNotified(c, false)]);
            r == System(WithRow(s, t, Notified), s.callers[c := Caller(t, true, Over, true)], s.sent + [c])
  {
    Tells(s, c, t);
    RunSnoc(s, [DoInsert(c, false), DoSelect(c), Post(c)], FinishNotified(c, false));
  }

  /** One whose answer is lost leaves `unknown`; the seller may have been told. */
  lemma LostAnswerIsUnknown(s: System, c: nat, t: Terms)
    requires IsStarted(s, c, t, true) && t.job !in s.rows
    ensures var r := Run(s, [DoInsert(c, false), DoSelect(c), Post(c)] + [PostFails(c)] + [FinishUnknown(c)]);
            r == System(WithRow(s, t, Unknown), s.callers[c := Caller(t, true, Over, true)], s.sent + [c])
  {
    Tells(s, c, t);
    RunSnoc(s, [DoInsert(c, false), DoSelect(c), Post(c)], PostFails(c));
    RunSnoc(s, [DoInsert(c, false), DoSelect(c), Post(c)] + [PostFails(c)], FinishUnknown(c));
  }

  /** A later call for the job changes no row and sends nothing. */
  lemma LaterCallReplays(s: System, c: nat, t: Terms)
    requires IsStarted(s, c, t, true) && t.job in s.rows
    ensures var r := Run(s, [] + [DoInsert(c, false)] + [DoSelect(c)]);
            r == s.(callers := s.callers[c := Caller(t, true, Over, false)])
  {
    RunSnoc(s, [], DoInsert(c, false));
    RunSnoc(s, [] + [DoInsert(c, false)], DoSelect(c));
  }

  /** A refresh of a claim with the same terms ends in `result_verified`, whatever its status was. */
  lemma RefreshVerifies(s: System, c: nat, t: Terms)
    requires IsStarted(s, c, t, false) && t.job in s.rows && s.rows[t.job] == WithRow(s, t, s.rows[t.job].status)[t.job]
    ensures var r := Run(s, [] + [DoInsert(c, false)] + [DoSelect(c)] + [DoVerify(c)]);
            r == System(WithRow(s, t, ResultVerified), s.callers[c := Caller(t, false, Over, false)], s.sent)
  {
    RunSnoc(s, [], DoInsert(c, false));
    RunSnoc(s, [] + [DoInsert(c, false)], DoSelect(c));
    RunSnoc(s, [] + [DoInsert(c, false)] + [DoSelect(c)], DoVerify(c));
  }
}
