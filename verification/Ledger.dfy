/**
 The `erc8183_operations` table.  Every method of the repository is one conditional
 UPDATE (or one INSERT) on it; a run is any interleaving of those statements by any
 number of callers, and a crash is simply the end of a caller's sequence.
 */
module Ledger {
  import opened Wrappers

  type Id = string
  type Hash = string
  type Time = int

  datatype Kind =
    | Create | Register | SetBudget | Approve | Fund | Submit | Settle
    | ClaimRefund | MarkExpired | Cancel | Reject | Dispute | Vote

  datatype Role = Client | Provider | Evaluator | Voter | System

  datatype Status = AwaitingSignature | Submitted | Confirmed | Reverted | Unknown | Reconciled | ManualReview

  /** The public request a context carries; parameters and expectation are compared by digest. */
  datatype Actor = Actor(signer: string, sdkAction: Option<string>, parameters: string, expectation: string)

  /**
   The JSON context column.  A row reserved without a context can still receive a calls ID
   or a dispatch flag: it then has a context object without a signer, which no read accepts.
   */
  datatype Context = NoContext | Context(actor: Option<Actor>, callsId: Option<string>, dispatchClaimed: bool)

  datatype Block = Block(number: nat, hash: Hash, logIndex: Option<nat>)

  datatype Row = Row(
    key: string, requestDigest: string, chainId: int, contract: string, jobId: Option<string>,
    kind: Kind, role: Role, status: Status, txHash: Option<Hash>, block: Option<Block>,
    failureCode: Option<string>, context: Context, createdAt: Time, updatedAt: Time)

  type Table = map<Id, Row>

  const EOA_IN_FLIGHT := "EOA_DISPATCH_IN_FLIGHT"
  const BOUNDED_IN_FLIGHT := "BOUNDED_DISPATCH_IN_FLIGHT"

  /** `parseOperationRow` accepts the row: its context, if any, names a signer. */
  predicate Readable(row: Row) {
    row.context.NoContext? || row.context.actor.Some?
  }

  function Claimed(row: Row): bool {
    row.context.Context? && row.context.dispatchClaimed
  }

  /** `jsonb_set(COALESCE(operation_context, '{}'), '{dispatchClaimed}', ...)`. */
  function WithClaim(c: Context, claimed: bool): Context {
    if c.NoContext? then Context(None, None, claimed) else c.(dispatchClaimed := claimed)
  }

  function WithCallsId(c: Context, callsId: string): Context {
    if c.NoContext? then Context(None, Some(callsId), false) else c.(callsId := Some(callsId))
  }

  /// One row

  /** The UPDATE statements addressed to one row by its id. */
  datatype Update =
    | MarkSubmitted(hash: Hash, now: Time)
    | AttachJobId(jobId: string)
    | AttachCallsId(callsId: string)
    | ClaimDispatch(now: Time)
    | ReleaseDispatch(now: Time)
    | MarkReceipt(success: bool, hash: Hash, block: Block, failureCode: Option<string>, now: Time)
    | MarkUnknown(failureCode: Option<string>, now: Time)
    | MarkFailed(failureCode: Option<string>, now: Time)
    | Reconcile(review: bool, now: Time)
    | MarkManualReview(failureCode: Option<string>, now: Time)

  /** The WHERE clause. */
  predicate Matches(row: Row, u: Update) {
    match u
    case MarkSubmitted(hash, _) =>
      row.status == AwaitingSignature ||
      (row.status == Unknown && (row.txHash == None || row.txHash == Some(hash)))
    case AttachJobId(_) => row.jobId == None
    case AttachCallsId(_) => row.context.NoContext? || row.context.callsId == None
    case ClaimDispatch(_) => row.status == AwaitingSignature && !Claimed(row) && row.txHash == None
    case ReleaseDispatch(_) =>
      row.status == Unknown && row.txHash == None && Claimed(row) && row.failureCode == Some(EOA_IN_FLIGHT)
    case MarkReceipt(_, _, _, _, _) => row.status in {Submitted, Unknown, ManualReview}
    case MarkUnknown(_, _) => row.status in {AwaitingSignature, Submitted}
    case MarkFailed(_, _) => row.status in {AwaitingSignature, Submitted, Unknown} && row.txHash == None
    case Reconcile(_, _) => row.status in {Unknown, ManualReview, Confirmed}
    case MarkManualReview(_, _) => row.status in {AwaitingSignature, Submitted, Unknown, Confirmed}
  }

  /** The SET clause. */
  function Assign(row: Row, u: Update): Row {
    match u
    case MarkSubmitted(hash, now) => row.(status := Submitted, txHash := Some(hash), updatedAt := now)
    case AttachJobId(jobId) => row.(jobId := Some(jobId))
    case AttachCallsId(callsId) => row.(context := WithCallsId(row.context, callsId))
    case ClaimDispatch(now) =>
      row.(status := Unknown, failureCode := Some(EOA_IN_FLIGHT),
           context := WithClaim(row.context, true), updatedAt := now)
    case ReleaseDispatch(now) =>
      row.(status := AwaitingSignature, failureCode := None,
           context := WithClaim(row.context, false), updatedAt := now)
    case MarkReceipt(success, hash, block, failureCode, now) =>
      row.(status := if success then Confirmed else Reverted, txHash := Some(hash), block := Some(block),
           failureCode := failureCode, updatedAt := now)
    case MarkUnknown(failureCode, now) => row.(status := Unknown, failureCode := failureCode, updatedAt := now)
    case MarkFailed(failureCode, now) => row.(status := Reverted, failureCode := failureCode, updatedAt := now)
    case Reconcile(review, now) => row.(status := if review then ManualReview else Reconciled, updatedAt := now)
    case MarkManualReview(failureCode, now) =>
      row.(status := ManualReview, failureCode := failureCode, updatedAt := now)
  }

  function Apply(row: Row, u: Update): Row {
    if Matches(row, u) then Assign(row, u) else row
  }

  /** The direct UPDATE of the bounded worker before it broadcasts; it selects by job, not by id. */
  predicate BoundedMatches(row: Row, contract: string, jobId: string) {
    row.chainId == 97 && row.contract == contract && row.jobId == Some(jobId) && row.kind == Submit &&
    row.status == AwaitingSignature && row.txHash == None
  }

  function BoundedAssign(row: Row, hash: Hash, now: Time): Row {
    row.(txHash := Some(hash), status := Unknown, failureCode := Some(BOUNDED_IN_FLIGHT), updatedAt := now)
  }

  /// The table

  datatype Statement =
    | Insert(id: Id, row: Row)
    | On(id: Id, update: Update)
    | BoundedDispatch(contract: string, jobId: string, hash: Hash, now: Time)

  predicate KeyTaken(t: Table, key: string) {
    exists id :: id in t && t[id].key == key
  }

  /** A reservation: no receipt evidence yet, and awaiting a signature. */
  predicate IsReservation(row: Row) {
    row.status == AwaitingSignature && row.txHash == None && row.block == None && row.failureCode == None &&
    (row.context.Context? ==> row.context.actor.Some?)
  }

  /** `INSERT ... ON CONFLICT (idempotency_key) DO NOTHING`; a repeated id violates the primary key. */
  predicate Inserts(t: Table, id: Id, row: Row) {
    id !in t && !KeyTaken(t, row.key) && IsReservation(row)
  }

  function Execute(t: Table, s: Statement): Table {
    match s
    case Insert(id, row) => if Inserts(t, id, row) then t[id := row] else t
    case On(id, u) => if id in t then t[id := Apply(t[id], u)] else t
    case BoundedDispatch(contract, jobId, hash, now) =>
      map id | id in t ::
        if BoundedMatches(t[id], contract, jobId) then BoundedAssign(t[id], hash, now) else t[id]
  }

  function Run(t: Table, ss: seq<Statement>): Table
    decreases |ss|
  {
    if ss == [] then t else Run(Execute(t, ss[0]), ss[1..])
  }

  /** What one statement does to one existing row. */
  function Touch(row: Row, id: Id, s: Statement): Row {
    match s
    case Insert(_, _) => row
    case On(target, u) => if target == id then Apply(row, u) else row
    case BoundedDispatch(contract, jobId, hash, now) =>
      if BoundedMatches(row, contract, jobId) then BoundedAssign(row, hash, now) else row
  }

  function Follow(row: Row, id: Id, ss: seq<Statement>): Row
    decreases |ss|
  {
    if ss == [] then row else Follow(Touch(row, id, ss[0]), id, ss[1..])
  }

  /** Rows do not interfere and are never deleted: a row's fate is its own thread of the run. */
  lemma {:induction false} RowFollows(t: Table, ss: seq<Statement>, id: Id)
    requires id in t
    ensures id in Run(t, ss) && Run(t, ss)[id] == Follow(t[id], id, ss)
    decreases |ss|
  {
    if ss != [] {
      RowFollows(Execute(t, ss[0]), ss[1..], id);
    }
  }

  lemma {:induction false} RunConcat(t: Table, xs: seq<Statement>, ys: seq<Statement>)
    ensures Run(t, xs + ys) == Run(Run(t, xs), ys)
    decreases |xs|
  {
    if xs == [] {
      assert xs + ys == ys;
    } else {
      assert (xs + ys)[1..] == xs[1..] + ys;
      RunConcat(Execute(t, xs[0]), xs[1..], ys);
    }
  }

  /// Dispatches

  /**
   A statement grants a dispatch when it tells its caller to send: a browser claim whose row
   can be returned, or the worker's update before a broadcast.
   */
  predicate Grants(row: Row, id: Id, s: Statement) {
    match s
    case Insert(_, _) => false
    case On(target, u) =>
      target == id && u.ClaimDispatch? && Matches(row, u) && Readable(Apply(row, u))
    case BoundedDispatch(contract, jobId, _, _) => BoundedMatches(row, contract, jobId)
  }

  predicate Returns(row: Row, id: Id, s: Statement) {
    s.On? && s.id == id && s.update.ReleaseDispatch? && Matches(row, s.update) && Readable(Apply(row, s.update))
  }

  function Count(b: bool): nat {
    if b then 1 else 0
  }

  /** Dispatches granted minus dispatches handed back over a run. */
  function InFlight(row: Row, id: Id, ss: seq<Statement>): int
    decreases |ss|
  {
    if ss == [] then 0
    else Count(Grants(row, id, ss[0])) - Count(Returns(row, id, ss[0])) + InFlight(Touch(row, id, ss[0]), id, ss[1..])
  }

  /** Browser claims granted minus releases over a run. */
  function OpenClaims(row: Row, id: Id, ss: seq<Statement>): int
    decreases |ss|
  {
    if ss == [] then 0
    else Count(ss[0].On? && Grants(row, id, ss[0])) - Count(Returns(row, id, ss[0]))
         + OpenClaims(Touch(row, id, ss[0]), id, ss[1..])
  }

  /** A stored hash or an open claim means that the row is no longer waiting for a signature. */
  predicate Guarded(row: Row) {
    row.txHash.Some? || Claimed(row) ==> row.status != AwaitingSignature
  }

  /** A stored hash alone: such a row is no longer waiting for a signature. */
  predicate Sealed(row: Row) {
    row.txHash.Some? ==> row.status != AwaitingSignature
  }

  lemma TouchSealed(row: Row, id: Id, s: Statement)
    requires Sealed(row)
    ensures Sealed(Touch(row, id, s))
    ensures row.txHash.Some? ==> Touch(row, id, s).txHash.Some? && !Grants(row, id, s) && !Returns(row, id, s)
  {
  }

  lemma TouchGuarded(row: Row, id: Id, s: Statement)
    requires Guarded(row)
    ensures Guarded(Touch(row, id, s))
    ensures row.txHash.Some? ==> Touch(row, id, s).txHash.Some? && !Grants(row, id, s) && !Returns(row, id, s)
  {
  }

  /**
   Once a hash is stored, in any interleaving it is never cleared, the row never waits for a
   signature again and no dispatch is granted or handed back again.
   */
  lemma {:induction false} HashSeals(row: Row, id: Id, ss: seq<Statement>)
    requires Sealed(row) && row.txHash.Some?
    ensures var r := Follow(row, id, ss);
            r.txHash.Some? && r.status != AwaitingSignature
    ensures InFlight(row, id, ss) == 0
    ensures forall k :: 0 <= k < |ss| ==> !Grants(Follow(row, id, ss[..k]), id, ss[k])
    decreases |ss|
  {
    if ss != [] {
      TouchSealed(row, id, ss[0]);
      var next := Touch(row, id, ss[0]);
      HashSeals(next, id, ss[1..]);
      forall k | 0 <= k < |ss| ensures !Grants(Follow(row, id, ss[..k]), id, ss[k]) {
        if k > 0 {
          assert ss[..k][1..] == ss[1..][..k - 1];
          assert ss[1..][k - 1] == ss[k];
        }
      }
    }
  }

  /**
   At most one dispatch of an operation is in flight, in any interleaving of browser claims,
   releases and the worker's update; and whenever the row waits for a signature again, every
   dispatch ever granted has been handed back.
   */
  lemma {:induction false} InFlightBounds(row: Row, id: Id, ss: seq<Statement>)
    requires Guarded(row) && row.context.Context? && row.context.actor.Some?
    ensures -(Count(Claimed(row)) as int) <= InFlight(row, id, ss) <= Count(row.status == AwaitingSignature)
    ensures Follow(row, id, ss).status == AwaitingSignature ==> InFlight(row, id, ss) == -(Count(Claimed(row)) as int)
    decreases |ss|
  {
    if ss != [] {
      TouchGuarded(row, id, ss[0]);
      var next := Touch(row, id, ss[0]);
      if next.txHash.Some? { HashSeals(next, id, ss[1..]); }
      InFlightBounds(next, id, ss[1..]);
    }
  }

  lemma AtMostOneInFlight(row: Row, id: Id, ss: seq<Statement>)
    requires IsReservation(row) && row.context.Context? && !Claimed(row)
    ensures InFlight(row, id, ss) == 0 || InFlight(row, id, ss) == 1
    ensures Follow(row, id, ss).status == AwaitingSignature ==> InFlight(row, id, ss) == 0
  {
    InFlightBounds(row, id, ss);
  }

  /** Conservation: granted claims minus releases is the change of the stored claim flag. */
  lemma {:induction false} ClaimsConserved(row: Row, id: Id, ss: seq<Statement>)
    requires row.context.Context? && row.context.actor.Some?
    ensures OpenClaims(row, id, ss) == Count(Claimed(Follow(row, id, ss))) - Count(Claimed(row))
    decreases |ss|
  {
    if ss != [] {
      ClaimsConserved(Touch(row, id, ss[0]), id, ss[1..]);
    }
  }

  /** A row reserved without a context: the claim is stored, but no caller is ever granted it. */
  lemma ContextlessClaimLost(row: Row, id: Id, now: Time)
    requires IsReservation(row) && row.context.NoContext?
    ensures var ss := [On(id, ClaimDispatch(now))];
            OpenClaims(row, id, ss) == 0 && Claimed(Follow(row, id, ss)) && !Readable(Follow(row, id, ss))
  {
    var s := On(id, ClaimDispatch(now));
    assert [s][1..] == [];
    assert OpenClaims(row, id, [s]) == 0 + OpenClaims(Touch(row, id, s), id, []);
    assert Follow(row, id, [s]) == Follow(Touch(row, id, s), id, []);
  }

  /** A claim flag supplied at reservation can be handed back without ever having been granted. */
  lemma SuppliedFlagReleased(row: Row, id: Id, now: Time)
    requires IsReservation(row) && row.context.Context? && Claimed(row)
    ensures var ss := [On(id, MarkUnknown(Some(EOA_IN_FLIGHT), now)), On(id, ReleaseDispatch(now))];
            OpenClaims(row, id, ss) == InFlight(row, id, ss) == -1
  {
    var a, b := On(id, MarkUnknown(Some(EOA_IN_FLIGHT), now)), On(id, ReleaseDispatch(now));
    assert [a, b][1..] == [b] && [b][1..] == [];
    var held := Touch(row, id, a);
    assert Returns(held, id, b) && !Grants(row, id, a);
    assert OpenClaims(held, id, [b]) == -1 + OpenClaims(Touch(held, id, b), id, []);
    assert OpenClaims(row, id, [a, b]) == OpenClaims(held, id, [b]);
    assert InFlight(held, id, [b]) == -1 + InFlight(Touch(held, id, b), id, []);
    assert InFlight(row, id, [a, b]) == InFlight(held, id, [b]);
  }

  /** Exactly when the stored claim flag follows the claims granted and released, in every run. */
  lemma ClaimsConservedIff(row: Row, id: Id)
    requires IsReservation(row)
    ensures (forall ss :: OpenClaims(row, id, ss) == Count(Claimed(Follow(row, id, ss))) - Count(Claimed(row)))
            <==> row.context.Context?
  {
    if row.context.Context? {
      forall ss ensures OpenClaims(row, id, ss) == Count(Claimed(Follow(row, id, ss))) - Count(Claimed(row)) {
        ClaimsConserved(row, id, ss);
      }
    } else {
      ContextlessClaimLost(row, id, 0);
    }
  }

  lemma {:induction false} NamelessInFlight(row: Row, id: Id, ss: seq<Statement>)
    requires Sealed(row) && (row.context.NoContext? || row.context.actor.None?)
    ensures 0 <= InFlight(row, id, ss) <= 1
    decreases |ss|
  {
    if ss != [] {
      TouchSealed(row, id, ss[0]);
      var next := Touch(row, id, ss[0]);
      if next.txHash.Some? { HashSeals(next, id, ss[1..]); }
      NamelessInFlight(next, id, ss[1..]);
    }
  }

  /** Exactly when at most one dispatch is in flight and none is handed back unclaimed, in every run. */
  lemma AtMostOneInFlightIff(row: Row, id: Id)
    requires IsReservation(row)
    ensures (forall ss :: 0 <= InFlight(row, id, ss) <= 1) <==> !Claimed(row)
  {
    if !Claimed(row) {
      forall ss ensures 0 <= InFlight(row, id, ss) <= 1 {
        if row.context.Context? { AtMostOneInFlight(row, id, ss); } else { NamelessInFlight(row, id, ss); }
      }
    } else {
      SuppliedFlagReleased(row, id, 0);
    }
  }

  /// What a run cannot change

  /** The fields a replay compares; the job id and the calls ID can be filled in once. */
  predicate SameIdentity(a: Row, b: Row) {
    && a.key == b.key && a.requestDigest == b.requestDigest && a.chainId == b.chainId
    && a.contract == b.contract && a.kind == b.kind && a.role == b.role && a.createdAt == b.createdAt
    && (a.jobId.Some? ==> b.jobId == a.jobId)
    && (a.context.Context? ==>
          b.context.Context? && b.context.actor == a.context.actor &&
          (a.context.callsId.Some? ==> b.context.callsId == a.context.callsId))
    && (a.context.NoContext? && b.context.Context? ==> b.context.actor == None)
  }

  lemma {:induction false} IdentityKept(row: Row, id: Id, ss: seq<Statement>)
    ensures SameIdentity(row, Follow(row, id, ss))
    decreases |ss|
  {
    if ss != [] {
      IdentityKept(Touch(row, id, ss[0]), id, ss[1..]);
    }
  }

  /** `reverted` and `reconciled` are final: no statement changes the status, the hash or the block. */
  lemma {:induction false} FinalStatuses(row: Row, id: Id, ss: seq<Statement>)
    requires row.status == Reverted || row.status == Reconciled
    ensures var r := Follow(row, id, ss);
            r.status == row.status && r.txHash == row.txHash && r.block == row.block && InFlight(row, id, ss) == 0
    decreases |ss|
  {
    if ss != [] {
      FinalStatuses(Touch(row, id, ss[0]), id, ss[1..]);
    }
  }

  /** The hash of the last receipt a run records on the row, or `h` if it records none. */
  function LastReceipt(row: Row, id: Id, ss: seq<Statement>, h: Hash): Hash
    decreases |ss|
  {
    if ss == [] then h
    else
      var s := ss[0];
      var recorded := s.On? && s.id == id && s.update.MarkReceipt? && Matches(row, s.update);
      LastReceipt(Touch(row, id, s), id, ss[1..], if recorded then s.update.hash else h)
  }

  /**
   A stored hash is write-once for every statement except a receipt: after any run it is the
   hash of the last receipt recorded since, and the old one if there was none.
   */
  lemma {:induction false} HashIsLastReceipt(row: Row, id: Id, ss: seq<Statement>, h: Hash)
    requires Sealed(row) && row.txHash == Some(h)
    ensures Follow(row, id, ss).txHash == Some(LastReceipt(row, id, ss, h))
    decreases |ss|
  {
    if ss != [] {
      TouchSealed(row, id, ss[0]);
      var next := Touch(row, id, ss[0]);
      HashIsLastReceipt(next, id, ss[1..], next.txHash.value);
    }
  }

  /// Reservation and replay

  datatype Request = Request(
    key: string, requestDigest: string, chainId: int, contract: string, jobId: Option<string>,
    kind: Kind, role: Role, context: Option<Actor>, now: Time)

  function Reservation(q: Request): Row {
    Row(q.key, q.requestDigest, q.chainId, q.contract, q.jobId, q.kind, q.role, AwaitingSignature, None, None, None,
        if q.context.None? then NoContext else Context(q.context, None, false), q.now, q.now)
  }

  /** `sameOperationJobId`. */
  predicate SameJob(existing: Row, incoming: Option<string>) {
    (existing.kind == Create && existing.jobId.Some? && incoming.None?) || existing.jobId == incoming
  }

  /** `assertReplayIdentity` accepts the request; an unreadable row throws before it is compared. */
  predicate Replays(existing: Row, q: Request) {
    && Readable(existing)
    && existing.requestDigest == q.requestDigest && existing.chainId == q.chainId && existing.contract == q.contract
    && SameJob(existing, q.jobId) && existing.kind == q.kind && existing.role == q.role
    && existing.context.NoContext? == q.context.None?
    && (q.context.Some? ==> existing.context.actor == q.context)
  }

  /** The fields in which a replay must repeat the request that made the reservation. */
  predicate SameRequest(a: Request, b: Request) {
    a.requestDigest == b.requestDigest && a.chainId == b.chainId && a.contract == b.contract &&
    a.kind == b.kind && a.role == b.role && a.context == b.context
  }

  /**
   After any run, a request replays the reservation exactly when it repeats every bound field
   and its job id is the stored one, or absent on a `create` whose id arrived later.  A row
   reserved without a context additionally must not have received a calls ID or a claim.
   */
  lemma ReplayAfterRun(q: Request, p: Request, id: Id, ss: seq<Statement>)
    ensures var r := Follow(Reservation(q), id, ss);
            Replays(r, p) <==> SameRequest(q, p) && SameJob(r, p.jobId) && Readable(r)
  {
    IdentityKept(Reservation(q), id, ss);
  }

  /**
   The original request always replays when it is a `create` or named its job; otherwise it
   replays exactly as long as no job id has been attached.
   */
  lemma OriginalReplays(q: Request, id: Id, ss: seq<Statement>)
    requires q.context.Some?
    ensures var r := Follow(Reservation(q), id, ss);
            Replays(r, q) <==> q.kind == Create || q.jobId.Some? || r.jobId.None?
  {
    IdentityKept(Reservation(q), id, ss);
    ReplayAfterRun(q, q, id, ss);
  }

  predicate UniqueKeys(t: Table) {
    forall i, j :: i in t && j in t && i != j ==> t[i].key != t[j].key
  }

  lemma {:induction false} KeysStayUnique(t: Table, ss: seq<Statement>)
    requires UniqueKeys(t)
    ensures UniqueKeys(Run(t, ss))
    decreases |ss|
  {
    if ss != [] {
      KeysStayUnique(Execute(t, ss[0]), ss[1..]);
    }
  }

  /** The positions of a run at which a reservation of this key is accepted, counted. */
  function Accepted(t: Table, ss: seq<Statement>, key: string): nat
    decreases |ss|
  {
    if ss == [] then 0
    else Count(ss[0].Insert? && ss[0].row.key == key && Inserts(t, ss[0].id, ss[0].row))
         + Accepted(Execute(t, ss[0]), ss[1..], key)
  }

  lemma {:induction false} KeyStaysTaken(t: Table, ss: seq<Statement>, key: string)
    requires KeyTaken(t, key)
    ensures KeyTaken(Run(t, ss), key) && Accepted(t, ss, key) == 0
    decreases |ss|
  {
    if ss != [] {
      var id :| id in t && t[id].key == key;
      var next := Execute(t, ss[0]);
      assert id in next && next[id].key == key;
      KeyStaysTaken(next, ss[1..], key);
    }
  }

  /**
   Among all callers racing for one idempotency key, exactly one reservation is accepted if the
   key ends up taken, none otherwise; everybody else replays.
   */
  lemma {:induction false} OneReservationPerKey(t: Table, ss: seq<Statement>, key: string)
    requires !KeyTaken(t, key)
    ensures Accepted(t, ss, key) == Count(KeyTaken(Run(t, ss), key))
    decreases |ss|
  {
    if ss != [] {
      var s, next := ss[0], Execute(t, ss[0]);
      if s.Insert? && s.row.key == key && Inserts(t, s.id, s.row) {
        assert s.id in next && next[s.id].key == key;
        KeyStaysTaken(next, ss[1..], key);
      } else {
        assert forall id :: id in next ==> (id in t && next[id].key == t[id].key) || next[id].key != key;
        OneReservationPerKey(next, ss[1..], key);
      }
    }
  }
}
