/**
 `PostgresErc8183OperationRepository`: each method updates the table it holds, and is
 proved against the one statement of the ledger it stands for.
 */
module OperationRepository {
  import opened Wrappers
  import L = Ledger

  datatype Error = IdempotencyConflict | UnknownOperation | UnreadableRow | DuplicateId

  class Repository {
    var rows: L.Table

    ghost predicate Valid()
      reads this
    {
      L.UniqueKeys(rows)
    }

    constructor ()
      ensures Valid() && rows == map[]
    {
      rows := map[];
    }

    /** `parseOperationRow` on a row a statement returned. */
    static function Parsed(row: L.Row): Result<L.Row, Error> {
      if L.Readable(row) then Success(row) else Failure(UnreadableRow)
    }

    /** `get`, and what a method does with the row it re-reads after its UPDATE matched nothing. */
    function Reread(id: L.Id, accepted: L.Row -> bool): Result<L.Row, Error>
      reads this
    {
      if id !in rows then Failure(IdempotencyConflict)
      else if !L.Readable(rows[id]) then Failure(UnreadableRow)
      else if accepted(rows[id]) then Success(rows[id])
      else Failure(IdempotencyConflict)
    }

    /**
     What a method answers: the row after its update if the update matched, the row as it is if
     that already is what the caller asked for, and a conflict otherwise; never a row that a
     read would refuse.
     */
    static function Answer(rows: L.Table, id: L.Id, u: L.Update, asked: L.Row -> bool): Result<L.Row, Error> {
      if id !in rows then Failure(IdempotencyConflict)
      else
        var row := rows[id];
        if !L.Readable(L.Apply(row, u)) then Failure(UnreadableRow)
        else if L.Matches(row, u) || asked(row) then Success(L.Apply(row, u))
        else Failure(IdempotencyConflict)
    }

    /** The row has no context, or its context names a signer: every other row is refused by a read. */
    static predicate Signed(row: L.Row) {
      row.context == L.NoContext || row.context.actor != None
    }

    method Reserve(q: L.Request, id: L.Id) returns (r: Result<(L.Row, bool), Error>)
      requires Valid()
      modifies this
      ensures Valid() && rows == L.Execute(old(rows), L.Insert(id, L.Reservation(q)))
      ensures !L.KeyTaken(old(rows), q.key) && id !in old(rows) ==> r == Success((L.Reservation(q), false))
      ensures L.KeyTaken(old(rows), q.key) ==>
                rows == old(rows) &&
                exists e :: e in rows && rows[e].key == q.key &&
                  r == (if !L.Readable(rows[e]) then Failure(UnreadableRow)
                        else if L.Replays(rows[e], q) then Success((rows[e], true))
                        else Failure(IdempotencyConflict))
      ensures r.Success? && !r.value.1 ==> !L.KeyTaken(old(rows), q.key)
      ensures r.Success? && !r.value.1 ==>
                id !in old(rows) && rows == old(rows)[id := r.value.0] &&
                r.value.0 == L.Row(q.key, q.requestDigest, q.chainId, q.contract, q.jobId, q.kind, q.role,
                                   L.AwaitingSignature, None, None, None,
                                   if q.context == None then L.NoContext else L.Context(q.context, None, false),
                                   q.now, q.now)
      ensures forall e :: e in old(rows) && old(rows)[e].key == q.key ==>
                (r.Success? <==> RepeatsRequest(old(rows)[e], q)) && (r.Success? ==> r.value == (old(rows)[e], true))
    {
      if e :| e in rows && rows[e].key == q.key {
        var existing := rows[e];
        if !L.Readable(existing) {
          r := Failure(UnreadableRow);
        } else if L.Replays(existing, q) {
          r := Success((existing, true));
        } else {
          r := Failure(IdempotencyConflict);
        }
      } else if id in rows {
        r := Failure(DuplicateId);
      } else {
        var row := L.Row(q.key, q.requestDigest, q.chainId, q.contract, q.jobId, q.kind, q.role,
                         L.AwaitingSignature, None, None, None,
                         if q.context.None? then L.NoContext else L.Context(q.context, None, false), q.now, q.now);
        rows := rows[id := row];
        r := Success((row, false));
      }
    }

    /** The row is readable and agrees with the request; only a `create` may have got its job id since. */
    static predicate RepeatsRequest(row: L.Row, q: L.Request) {
      && row.requestDigest == q.requestDigest && row.chainId == q.chainId && row.contract == q.contract
      && row.kind == q.kind && row.role == q.role
      && (row.jobId == q.jobId || (q.kind == L.Create && q.jobId == None))
      && if q.context == None then row.context == L.NoContext
         else row.context != L.NoContext && row.context.actor == q.context
    }

    method MarkSubmitted(id: L.Id, hash: L.Hash, now: L.Time) returns (r: Result<L.Row, Error>)
      requires Valid()
      modifies this
      ensures Valid() && rows == L.Execute(old(rows), L.On(id, L.MarkSubmitted(hash, now)))
      ensures r == Answer(old(rows), id, L.MarkSubmitted(hash, now),
                          (e: L.Row) => e.status == L.Submitted && e.txHash == Some(hash))
      ensures r.Success? ==> id in rows && r.value == rows[id] &&
                             r.value.status == L.Submitted && r.value.txHash == Some(hash)
      ensures r.Failure? ==> rows == old(rows) || r.error == UnreadableRow
      ensures r.Success? <==>
                id in old(rows) && Signed(old(rows)[id]) &&
                var row := old(rows)[id];
                row.status == L.AwaitingSignature || (row.status == L.Unknown && row.txHash == None) ||
                (row.status in {L.Unknown, L.Submitted} && row.txHash == Some(hash))
      ensures rows == if id in old(rows) &&
                         (old(rows)[id].status == L.AwaitingSignature ||
                          (old(rows)[id].status == L.Unknown && old(rows)[id].txHash in {None, Some(hash)}))
                      then old(rows)[id := old(rows)[id].(
                             status := L.Submitted, txHash := Some(hash), updatedAt := now)]
                      else old(rows)
      ensures r.Failure? ==>
                r.error == if id in old(rows) && !Signed(old(rows)[id]) then UnreadableRow else IdempotencyConflict
    {
      if id in rows {
        var row := rows[id];
        if row.status == L.AwaitingSignature ||
           (row.status == L.Unknown && (row.txHash == None || row.txHash == Some(hash))) {
          row := row.(status := L.Submitted, txHash := Some(hash), updatedAt := now);
          rows := rows[id := row];
          return Parsed(row);
        }
      }
      r := Reread(id, (e: L.Row) => e.status == L.Submitted && e.txHash == Some(hash));
    }

    method AttachJobId(id: L.Id, jobId: string) returns (r: Result<L.Row, Error>)
      requires Valid()
      modifies this
      ensures Valid() && rows == L.Execute(old(rows), L.On(id, L.AttachJobId(jobId)))
      ensures r == Answer(old(rows), id, L.AttachJobId(jobId),
                          (e: L.Row) => e.jobId == Some(jobId))
      ensures r.Success? ==> id in rows && r.value == rows[id] && r.value.jobId == Some(jobId)
      ensures id in old(rows) && old(rows[id].jobId).Some? && old(rows[id].jobId) != Some(jobId) ==> r.Failure?
      ensures r.Success? <==> id in old(rows) && Signed(old(rows)[id]) && old(rows)[id].jobId in {None, Some(jobId)}
      ensures rows == if id in old(rows) && old(rows)[id].jobId == None
                      then old(rows)[id := old(rows)[id].(jobId := Some(jobId))] else old(rows)
      ensures r.Failure? ==>
                r.error == if id in old(rows) && !Signed(old(rows)[id]) then UnreadableRow else IdempotencyConflict
    {
      if id in rows && rows[id].jobId == None {
        var row := rows[id].(jobId := Some(jobId));
        rows := rows[id := row];
        return Parsed(row);
      }
      r := Reread(id, (e: L.Row) => e.jobId == Some(jobId));
    }

    method AttachCallsId(id: L.Id, callsId: string) returns (r: Result<L.Row, Error>)
      requires Valid()
      modifies this
      ensures Valid() && rows == L.Execute(old(rows), L.On(id, L.AttachCallsId(callsId)))
      ensures r == Answer(old(rows), id, L.AttachCallsId(callsId),
                          (e: L.Row) => e.context.Context? && e.context.callsId == Some(callsId))
      ensures r.Success? ==> id in rows && r.value == rows[id] &&
                             r.value.context.Context? && r.value.context.callsId == Some(callsId)
      ensures id in old(rows) && old(rows[id].context).NoContext? ==> r == Failure(UnreadableRow)
      ensures r.Success? <==>
                id in old(rows) && old(rows)[id].context != L.NoContext && old(rows)[id].context.actor != None &&
                old(rows)[id].context.callsId in {None, Some(callsId)}
      ensures rows == if id in old(rows) && old(rows)[id].context == L.NoContext
                      then old(rows)[id := old(rows)[id].(context := L.Context(None, Some(callsId), false))]
                      else if id in old(rows) && old(rows)[id].context.callsId == None
                      then old(rows)[id := old(rows)[id].(
                             context := old(rows)[id].context.(callsId := Some(callsId)))]
                      else old(rows)
      ensures r.Failure? ==>
                r.error == if id in old(rows) && !(old(rows)[id].context != L.NoContext && Signed(old(rows)[id]))
                           then UnreadableRow else IdempotencyConflict
    {
      if id in rows {
        var row := rows[id];
        if row.context.NoContext? {
          row := row.(context := L.Context(None, Some(callsId), false));
          rows := rows[id := row];
          return Parsed(row);
        } else if row.context.callsId == None {
          row := row.(context := row.context.(callsId := Some(callsId)));
          rows := rows[id := row];
          return Parsed(row);
        }
      }
      r := Reread(id, (e: L.Row) => e.context.Context? && e.context.callsId == Some(callsId));
    }

    /** The caller may send exactly when the second result says so. */
    method ClaimExternalDispatch(id: L.Id, now: L.Time) returns (r: Result<(L.Row, bool), Error>)
      requires Valid()
      modifies this
      ensures Valid() && rows == L.Execute(old(rows), L.On(id, L.ClaimDispatch(now)))
      ensures r.Success? ==> id in rows && r.value.0 == rows[id]
      ensures id in old(rows) ==>
                ((r.Success? && r.value.1) <==> L.Grants(old(rows[id]), id, L.On(id, L.ClaimDispatch(now))))
      ensures id !in old(rows) ==> r == Failure(UnknownOperation)
      ensures (r.Success? && r.value.1) <==>
                id in old(rows) &&
                var row := old(rows)[id];
                row.status == L.AwaitingSignature && row.txHash == None && row.context != L.NoContext &&
                row.context.actor != None && !row.context.dispatchClaimed
      ensures rows == if id in old(rows) && old(rows)[id].status == L.AwaitingSignature &&
                         old(rows)[id].txHash == None &&
                         (old(rows)[id].context == L.NoContext || !old(rows)[id].context.dispatchClaimed)
                      then old(rows)[id := old(rows)[id].(
                             status := L.Unknown, failureCode := Some("EOA_DISPATCH_IN_FLIGHT"), updatedAt := now,
                             context := if old(rows)[id].context == L.NoContext then L.Context(None, None, true)
                                        else old(rows)[id].context.(dispatchClaimed := true))]
                      else old(rows)
      ensures r == Failure(UnreadableRow) <==>
                id in old(rows) &&
                var row := old(rows)[id];
                !Signed(row) ||
                (row.context == L.NoContext && row.status == L.AwaitingSignature && row.txHash == None)
    {
      if id !in rows {
        return Failure(UnknownOperation);
      }
      var row := rows[id];
      var claimed := row.context.Context? && row.context.dispatchClaimed;
      var granted := row.status == L.AwaitingSignature && !claimed && row.txHash == None;
      if granted {
        var context := if row.context.NoContext? then L.Context(None, None, true)
                       else row.context.(dispatchClaimed := true);
        row := row.(status := L.Unknown, failureCode := Some(L.EOA_IN_FLIGHT), context := context, updatedAt := now);
        rows := rows[id := row];
      }
      r := if L.Readable(row) then Success((row, granted)) else Failure(UnreadableRow);
    }

    method ReleaseExternalDispatch(id: L.Id, now: L.Time) returns (r: Result<(L.Row, bool), Error>)
      requires Valid()
      modifies this
      ensures Valid() && rows == L.Execute(old(rows), L.On(id, L.ReleaseDispatch(now)))
      ensures r.Success? ==> id in rows && r.value.0 == rows[id]
      ensures id in old(rows) ==>
                ((r.Success? && r.value.1) <==> L.Returns(old(rows[id]), id, L.On(id, L.ReleaseDispatch(now))))
      ensures id !in old(rows) ==> r == Failure(UnknownOperation)
      ensures (r.Success? && r.value.1) <==>
                id in old(rows) &&
                var row := old(rows)[id];
                row.status == L.Unknown && row.txHash == None && row.context != L.NoContext &&
                row.context.actor != None && row.context.dispatchClaimed &&
                row.failureCode == Some("EOA_DISPATCH_IN_FLIGHT")
      ensures rows == if id in old(rows) && old(rows)[id].status == L.Unknown && old(rows)[id].txHash == None &&
                         old(rows)[id].context != L.NoContext && old(rows)[id].context.dispatchClaimed &&
                         old(rows)[id].failureCode == Some("EOA_DISPATCH_IN_FLIGHT")
                      then old(rows)[id := old(rows)[id].(
                             status := L.AwaitingSignature, failureCode := None, updatedAt := now,
                             context := old(rows)[id].context.(dispatchClaimed := false))]
                      else old(rows)
      ensures r == Failure(UnreadableRow) <==> id in old(rows) && !Signed(old(rows)[id])
    {
      if id !in rows {
        return Failure(UnknownOperation);
      }
      var row := rows[id];
      var released := row.status == L.Unknown && row.txHash == None && L.Claimed(row) &&
                      row.failureCode == Some(L.EOA_IN_FLIGHT);
      if released {
        row := row.(status := L.AwaitingSignature, failureCode := None,
                    context := row.context.(dispatchClaimed := false), updatedAt := now);
        rows := rows[id := row];
      }
      r := if L.Readable(row) then Success((row, released)) else Failure(UnreadableRow);
    }

    method MarkReceipt(id: L.Id, success: bool, hash: L.Hash, block: L.Block, failureCode: Option<string>, now: L.Time)
        returns (r: Result<L.Row, Error>)
      requires Valid()
      modifies this
      ensures Valid() && rows == L.Execute(old(rows), L.On(id, L.MarkReceipt(success, hash, block, failureCode, now)))
      ensures r == Answer(old(rows), id, L.MarkReceipt(success, hash, block, failureCode, now),
                          (e: L.Row) =>
                            e.status == (if success then L.Confirmed else L.Reverted) && e.txHash == Some(hash) &&
                            e.block.Some? && e.block.value.hash == block.hash)
      ensures r.Success? ==> id in rows && r.value == rows[id] && r.value.txHash == Some(hash) &&
                             r.value.status == (if success then L.Confirmed else L.Reverted) &&
                             r.value.block.Some? && r.value.block.value.hash == block.hash
      ensures r.Success? <==>
                id in old(rows) && Signed(old(rows)[id]) &&
                var row := old(rows)[id];
                row.status in {L.Submitted, L.Unknown, L.ManualReview} ||
                (row.status == (if success then L.Confirmed else L.Reverted) && row.txHash == Some(hash) &&
                 row.block != None && row.block.value.hash == block.hash)
      ensures rows == if id in old(rows) && old(rows)[id].status in {L.Submitted, L.Unknown, L.ManualReview}
                      then old(rows)[id := old(rows)[id].(
                             status := if success then L.Confirmed else L.Reverted, txHash := Some(hash),
                             block := Some(block), failureCode := failureCode, updatedAt := now)]
                      else old(rows)
      ensures r.Failure? ==>
                r.error == if id in old(rows) && !Signed(old(rows)[id]) then UnreadableRow else IdempotencyConflict
    {
      if id in rows && rows[id].status in {L.Submitted, L.Unknown, L.ManualReview} {
        var row := rows[id].(status := if success then L.Confirmed else L.Reverted, txHash := Some(hash),
                             block := Some(block), failureCode := failureCode, updatedAt := now);
        rows := rows[id := row];
        return Parsed(row);
      }
      r := Reread(id, (e: L.Row) => e.status == (if success then L.Confirmed else L.Reverted) &&
                                    e.txHash == Some(hash) && e.block.Some? && e.block.value.hash == block.hash);
    }

    method MarkUnknown(id: L.Id, failureCode: Option<string>, now: L.Time) returns (r: Result<L.Row, Error>)
      requires Valid()
      modifies this
      ensures Valid() && rows == L.Execute(old(rows), L.On(id, L.MarkUnknown(failureCode, now)))
      ensures r == Answer(old(rows), id, L.MarkUnknown(failureCode, now),
                          (e: L.Row) => e.status == L.Unknown)
      ensures r.Success? ==> id in rows && r.value == rows[id] && r.value.status == L.Unknown
      ensures r.Success? <==>
                id in old(rows) && Signed(old(rows)[id]) &&
                old(rows)[id].status in {L.AwaitingSignature, L.Submitted, L.Unknown}
      ensures rows == if id in old(rows) && old(rows)[id].status in {L.AwaitingSignature, L.Submitted}
                      then old(rows)[id := old(rows)[id].(
                             status := L.Unknown, failureCode := failureCode, updatedAt := now)]
                      else old(rows)
      ensures r.Failure? ==>
                r.error == if id in old(rows) && !Signed(old(rows)[id]) then UnreadableRow else IdempotencyConflict
    {
      if id in rows && rows[id].status in {L.AwaitingSignature, L.Submitted} {
        var row := rows[id].(status := L.Unknown, failureCode := failureCode, updatedAt := now);
        rows := rows[id := row];
        return Parsed(row);
      }
      r := Reread(id, (e: L.Row) => e.status == L.Unknown);
    }

    method MarkFailed(id: L.Id, failureCode: Option<string>, now: L.Time) returns (r: Result<L.Row, Error>)
      requires Valid()
      modifies this
      ensures Valid() && rows == L.Execute(old(rows), L.On(id, L.MarkFailed(failureCode, now)))
      ensures r == Answer(old(rows), id, L.MarkFailed(failureCode, now),
                          (e: L.Row) => e.status == L.Reverted && e.txHash == None)
      ensures r.Success? ==> id in rows && r.value == rows[id] && r.value.status == L.Reverted && r.value.txHash == None
      ensures id in old(rows) && old(rows[id].txHash).Some? ==> r.Failure? && rows == old(rows)
      ensures r.Success? <==>
                id in old(rows) && Signed(old(rows)[id]) && old(rows)[id].txHash == None &&
                old(rows)[id].status in {L.AwaitingSignature, L.Submitted, L.Unknown, L.Reverted}
      ensures rows == if id in old(rows) && old(rows)[id].txHash == None &&
                         old(rows)[id].status in {L.AwaitingSignature, L.Submitted, L.Unknown}
                      then old(rows)[id := old(rows)[id].(
                             status := L.Reverted, failureCode := failureCode, updatedAt := now)]
                      else old(rows)
      ensures r.Failure? ==>
                r.error == if id in old(rows) && !Signed(old(rows)[id]) then UnreadableRow else IdempotencyConflict
    {
      if id in rows && rows[id].status in {L.AwaitingSignature, L.Submitted, L.Unknown} && rows[id].txHash == None {
        var row := rows[id].(status := L.Reverted, failureCode := failureCode, updatedAt := now);
        rows := rows[id := row];
        return Parsed(row);
      }
      r := Reread(id, (e: L.Row) => e.status == L.Reverted && e.txHash == None);
    }

    method Reconcile(id: L.Id, review: bool, now: L.Time) returns (r: Result<L.Row, Error>)
      requires Valid()
      modifies this
      ensures Valid() && rows == L.Execute(old(rows), L.On(id, L.Reconcile(review, now)))
      ensures r == Answer(old(rows), id, L.Reconcile(review, now),
                          (e: L.Row) => e.status == (if review then L.ManualReview else L.Reconciled))
      ensures r.Success? ==> id in rows && r.value == rows[id] &&
                             r.value.status == (if review then L.ManualReview else L.Reconciled)
      ensures r.Success? <==>
                id in old(rows) && Signed(old(rows)[id]) &&
                (old(rows)[id].status in {L.Unknown, L.ManualReview, L.Confirmed} ||
                 (old(rows)[id].status == L.Reconciled && !review))
      ensures rows == if id in old(rows) && old(rows)[id].status in {L.Unknown, L.ManualReview, L.Confirmed}
                      then old(rows)[id := old(rows)[id].(
                             status := if review then L.ManualReview else L.Reconciled, updatedAt := now)]
                      else old(rows)
      ensures r.Failure? ==>
                r.error == if id in old(rows) && !Signed(old(rows)[id]) then UnreadableRow else IdempotencyConflict
    {
      var status := if review then L.ManualReview else L.Reconciled;
      if id in rows && rows[id].status in {L.Unknown, L.ManualReview, L.Confirmed} {
        var row := rows[id].(status := status, updatedAt := now);
        rows := rows[id := row];
        return Parsed(row);
      }
      r := Reread(id, (e: L.Row) => e.status == status);
    }

    method MarkManualReview(id: L.Id, failureCode: Option<string>, now: L.Time) returns (r: Result<L.Row, Error>)
      requires Valid()
      modifies this
      ensures Valid() && rows == L.Execute(old(rows), L.On(id, L.MarkManualReview(failureCode, now)))
      ensures r == Answer(old(rows), id, L.MarkManualReview(failureCode, now),
                          (e: L.Row) => e.status == L.ManualReview)
      ensures r.Success? ==> id in rows && r.value == rows[id] && r.value.status == L.ManualReview
      ensures r.Success? <==>
                id in old(rows) && Signed(old(rows)[id]) &&
                old(rows)[id].status in {L.AwaitingSignature, L.Submitted, L.Unknown, L.Confirmed, L.ManualReview}
      ensures rows == if id in old(rows) &&
                         old(rows)[id].status in {L.AwaitingSignature, L.Submitted, L.Unknown, L.Confirmed}
                      then old(rows)[id := old(rows)[id].(
                             status := L.ManualReview, failureCode := failureCode, updatedAt := now)]
                      else old(rows)
      ensures r.Failure? ==>
                r.error == if id in old(rows) && !Signed(old(rows)[id]) then UnreadableRow else IdempotencyConflict
    {
      if id in rows && rows[id].status in {L.AwaitingSignature, L.Submitted, L.Unknown, L.Confirmed} {
        var row := rows[id].(status := L.ManualReview, failureCode := failureCode, updatedAt := now);
        rows := rows[id := row];
        return Parsed(row);
      }
      r := Reread(id, (e: L.Row) => e.status == L.ManualReview);
    }
  }

  /**
   The ordinary life of an operation, from the reservation over the claim, the submission and the
   confirmed receipt to `reconciled`: every call succeeds, and the row holds what they recorded.
   */
  method OrdinaryHire(q: L.Request, id: L.Id, hash: L.Hash, block: L.Block, jobId: string, times: seq<L.Time>)
      returns (repository: Repository, r: Result<L.Row, Error>)
    requires |times| == 4 && q.context != None && q.jobId == None
    ensures r == Success(L.Row(q.key, q.requestDigest, q.chainId, q.contract, Some(jobId), q.kind, q.role, L.Reconciled,
                               Some(hash), Some(block), None, L.Context(q.context, None, true), q.now, times[3]))
    ensures repository.rows == map[id := r.value]
  {
    repository := new Repository();
    var reserved := repository.Reserve(q, id);
    var claimed := repository.ClaimExternalDispatch(id, times[0]);
    var submitted := repository.MarkSubmitted(id, hash, times[1]);
    var confirmed := repository.MarkReceipt(id, true, hash, block, None, times[2]);
    var attached := repository.AttachJobId(id, jobId);
    r := repository.Reconcile(id, false, times[3]);
  }
}
