/**
 Late observation: which later on-chain state still proves an earlier step, how an event is
 looked up among the logs of a receipt, and what a verified funding or settlement proves.
 */
module Receipts {
  import opened Wrappers
  import Lifecycle

  type State = Lifecycle.State
  type Address = Lifecycle.Address

  /// Accepted later states

  /** `ACCEPTED_LATER_STATES`. */
  function AcceptedLater(expected: State): set<State> {
    match expected
    case Open => {Lifecycle.Open}
    case Funded =>
      {Lifecycle.Funded, Lifecycle.Submitted, Lifecycle.Completed, Lifecycle.Rejected, Lifecycle.Expired}
    case Submitted => {Lifecycle.Submitted, Lifecycle.Completed, Lifecycle.Rejected, Lifecycle.Expired}
    case Completed => {Lifecycle.Completed}
    case Rejected => {Lifecycle.Rejected}
    case Expired => {Lifecycle.Expired}
  }

  predicate AcceptsState(actual: State, expected: State) {
    actual in AcceptedLater(expected)
  }

  /** A walk through the transition graph. */
  ghost predicate IsPath(p: seq<State>) {
    |p| > 0 && forall i :: 0 <= i < |p| - 1 ==> Lifecycle.Allowed(p[i], p[i + 1])
  }

  ghost predicate Reachable(from: State, to: State) {
    exists p :: IsPath(p) && p[0] == from && p[|p| - 1] == to
  }

  lemma {:induction false} PathAccepted(p: seq<State>)
    requires IsPath(p) && p[0] != Lifecycle.Open
    ensures AcceptsState(p[|p| - 1], p[0])
    decreases |p|
  {
    if |p| > 1 {
      assert Lifecycle.Allowed(p[0], p[1]);
      PathAccepted(p[1..]);
    }
  }

  /**
   For every expected state but OPEN, a read is accepted exactly when the lifecycle graph leads
   from the expected state to the state that was read.
   */
  lemma AcceptedIffReachable(actual: State, expected: State)
    requires expected != Lifecycle.Open
    ensures AcceptsState(actual, expected) <==> Reachable(expected, actual)
  {
    if AcceptsState(actual, expected) {
      if actual == expected {
        assert IsPath([expected]);
      } else if Lifecycle.Allowed(expected, actual) {
        assert IsPath([expected, actual]);
      } else {
        assert IsPath([expected, Lifecycle.Submitted, actual]);
      }
    }
    if Reachable(expected, actual) {
      var p :| IsPath(p) && p[0] == expected && p[|p| - 1] == actual;
      PathAccepted(p);
    }
  }

  /** For OPEN only the state itself is accepted, although the graph leads from it to every state. */
  lemma OpenIsExact(actual: State)
    ensures AcceptsState(actual, Lifecycle.Open) <==> actual == Lifecycle.Open
    ensures Reachable(Lifecycle.Open, actual)
  {
    var o, f, s := Lifecycle.Open, Lifecycle.Funded, Lifecycle.Submitted;
    match actual
    case Open => assert IsPath([o]);
    case Funded => assert IsPath([o, f]);
    case Submitted => assert IsPath([o, f, s]);
    case Completed => assert IsPath([o, f, s, actual]);
    case Rejected => assert IsPath([o, actual]);
    case Expired => assert IsPath([o, f, actual]);
  }

  /** A step once confirmed is still accepted by a read taken after any further calls on the job. */
  lemma {:induction false} LaterReadAccepted(
      digest: Lifecycle.PinDigest, job: Lifecycle.Job, calls: seq<Lifecycle.Call>, expected: State)
    requires Lifecycle.Parses(digest, job) && expected != Lifecycle.Open && AcceptsState(job.state, expected)
    ensures AcceptsState(Lifecycle.Run(digest, job, calls).state, expected)
    decreases |calls|
  {
    if calls != [] {
      Lifecycle.OneCall(digest, job, calls[0]);
      LaterReadAccepted(digest, Lifecycle.Apply(digest, job, calls[0]), calls[1..], expected);
    }
  }

  /// Event lookup

  /** An event argument: its text, and what it reads as, if anything. */
  datatype Arg = Arg(text: string, asInt: Option<int>, asAddress: Option<Address>)

  datatype Event = Event(name: string, args: map<string, Arg>)

  datatype Log = Log(
    address: Address, txHash: Option<nat>, blockHash: Option<nat>, blockNumber: Option<nat>, body: string,
    logIndex: Option<nat>)

  datatype Receipt = Receipt(success: bool, txHash: nat, blockHash: nat, blockNumber: nat, logs: seq<Log>)

  /** ABI decoding is a parameter; `None` stands for a body that does not decode to a record of arguments. */
  type Decoder = string -> Option<Event>

  datatype Query = Query(decode: Decoder, name: string, address: Address, jobId: Option<string>)

  datatype Found = Found(event: Event, logIndex: nat)

  /** The log belongs to this receipt and this contract. */
  predicate Pertinent(r: Receipt, q: Query, log: Log) {
    && log.address == q.address
    && (log.txHash.Some? ==> log.txHash.value == r.txHash)
    && (log.blockHash.Some? ==> log.blockHash.value == r.blockHash)
    && (log.blockNumber.Some? ==> log.blockNumber.value == r.blockNumber)
  }

  predicate Answers(q: Query, log: Log) {
    var e := q.decode(log.body);
    e.Some? && e.value.name == q.name &&
    (q.jobId.Some? ==> "jobId" in e.value.args && e.value.args["jobId"].text == q.jobId.value)
  }

  predicate Hits(r: Receipt, q: Query, log: Log) {
    Pertinent(r, q, log) && Answers(q, log)
  }

  /** Field by field: a log of this contract in this transaction and block that decodes to the event asked for. */
  predicate Matching(r: Receipt, q: Query, log: Log) {
    && log.address == q.address && log.txHash in {None, Some(r.txHash)} && log.blockHash in {None, Some(r.blockHash)}
    && log.blockNumber in {None, Some(r.blockNumber)}
    && var e := q.decode(log.body);
       e != None && e.value.name == q.name &&
       (q.jobId == None || ("jobId" in e.value.args && e.value.args["jobId"].text == q.jobId.value))
  }

  lemma HitsIff(r: Receipt, q: Query, log: Log)
    ensures Hits(r, q, log) <==> Matching(r, q, log)
    ensures Pertinent(r, q, log) <==>
            log.address == q.address && log.txHash in {None, Some(r.txHash)} &&
            log.blockHash in {None, Some(r.blockHash)} && log.blockNumber in {None, Some(r.blockNumber)}
  {
    assert log.txHash in {None, Some(r.txHash)} <==> log.txHash.None? || log.txHash.value == r.txHash;
    assert log.blockHash in {None, Some(r.blockHash)} <==> log.blockHash.None? || log.blockHash.value == r.blockHash;
    assert log.blockNumber in {None, Some(r.blockNumber)}
           <==> log.blockNumber.None? || log.blockNumber.value == r.blockNumber;
  }

  function FoundAt(r: Receipt, q: Query, i: nat): Found
    requires i < |r.logs| && Hits(r, q, r.logs[i])
  {
    Found(q.decode(r.logs[i].body).value, r.logs[i].logIndex.GetOr(i))
  }

  /** `eventFromReceipt`: the first hit. */
  method EventFromReceipt(r: Receipt, q: Query) returns (found: Option<Found>)
    ensures found == Lookup(r, q)
    ensures found.None? <==> forall i :: 0 <= i < |r.logs| ==> !Hits(r, q, r.logs[i])
    ensures found.Some? ==>
              exists i :: 0 <= i < |r.logs| && Hits(r, q, r.logs[i]) && found.value == FoundAt(r, q, i) &&
                          forall j :: 0 <= j < i ==> !Hits(r, q, r.logs[j])
    ensures found.Some? ==>
              exists i :: 0 <= i < |r.logs| && Matching(r, q, r.logs[i]) &&
                          (forall j :: 0 <= j < i ==> !Matching(r, q, r.logs[j])) &&
                          Some(found.value.event) == q.decode(r.logs[i].body) &&
                          found.value.logIndex == if r.logs[i].logIndex == None then i else r.logs[i].logIndex.value
    ensures found.None? <==> forall i :: 0 <= i < |r.logs| ==> !Matching(r, q, r.logs[i])
  {
    forall i | 0 <= i < |r.logs| ensures Hits(r, q, r.logs[i]) <==> Matching(r, q, r.logs[i]) {
      HitsIff(r, q, r.logs[i]);
    }
    for position := 0 to |r.logs|
      invariant forall i :: 0 <= i < position ==> !Hits(r, q, r.logs[i])
    {
      var log := r.logs[position];
      if log.address != q.address { continue; }
      if log.txHash.Some? && log.txHash.value != r.txHash { continue; }
      if log.blockHash.Some? && log.blockHash.value != r.blockHash { continue; }
      if log.blockNumber.Some? && log.blockNumber.value != r.blockNumber { continue; }
      var decoded := q.decode(log.body);
      if decoded.None? || decoded.value.name != q.name { continue; }
      if q.jobId.Some? && !("jobId" in decoded.value.args && decoded.value.args["jobId"].text == q.jobId.value) {
        continue;
      }
      LookupIs(r, q, position);
      return Some(Found(decoded.value, log.logIndex.GetOr(position)));
    }
    LookupNone(r, q, 0);
    found := None;
  }

  /** The same search as a recursive function, for the lemmas below. */
  function LookupFrom(r: Receipt, q: Query, i: nat): Option<nat>
    requires i <= |r.logs|
    ensures LookupFrom(r, q, i).Some? ==>
              i <= LookupFrom(r, q, i).value < |r.logs| && Hits(r, q, r.logs[LookupFrom(r, q, i).value])
    decreases |r.logs| - i
  {
    if i == |r.logs| then None
    else if Hits(r, q, r.logs[i]) then Some(i)
    else LookupFrom(r, q, i + 1)
  }

  function Lookup(r: Receipt, q: Query): Option<Found> {
    var i := LookupFrom(r, q, 0);
    if i.None? then None else Some(FoundAt(r, q, i.value))
  }

  lemma {:induction false} LookupFirst(r: Receipt, q: Query, i: nat, k: nat)
    requires i <= k < |r.logs| && Hits(r, q, r.logs[k])
    requires forall j :: i <= j < k ==> !Hits(r, q, r.logs[j])
    ensures LookupFrom(r, q, i) == Some(k)
    decreases k - i
  {
    if i < k {
      LookupFirst(r, q, i + 1, k);
    }
  }

  lemma LookupIs(r: Receipt, q: Query, k: nat)
    requires k < |r.logs| && Hits(r, q, r.logs[k])
    requires forall j :: 0 <= j < k ==> !Hits(r, q, r.logs[j])
    ensures Lookup(r, q) == Some(FoundAt(r, q, k))
  {
    LookupFirst(r, q, 0, k);
  }

  lemma {:induction false} LookupNone(r: Receipt, q: Query, i: nat)
    requires i <= |r.logs| && forall j :: i <= j < |r.logs| ==> !Hits(r, q, r.logs[j])
    ensures LookupFrom(r, q, i).None?
    decreases |r.logs| - i
  {
    if i < |r.logs| {
      LookupNone(r, q, i + 1);
    }
  }

  /// Foreign logs

  function Keep(r: Receipt, q: Query, logs: seq<Log>): seq<Log> {
    if logs == [] then []
    else (if Pertinent(r, q, logs[0]) then [logs[0]] else []) + Keep(r, q, logs[1..])
  }

  /** The first answer among the pertinent logs of a suffix, without its position. */
  function FirstAnswer(q: Query, logs: seq<Log>): Option<Log> {
    if logs == [] then None
    else if Answers(q, logs[0]) then Some(logs[0])
    else FirstAnswer(q, logs[1..])
  }

  lemma {:induction false} LookupIsFirstAnswer(r: Receipt, q: Query, i: nat)
    requires i <= |r.logs|
    ensures var k := LookupFrom(r, q, i);
            FirstAnswer(q, Keep(r, q, r.logs[i..])) == if k.None? then None else Some(r.logs[k.value])
    decreases |r.logs| - i
  {
    if i < |r.logs| {
      LookupIsFirstAnswer(r, q, i + 1);
      assert r.logs[i..][1..] == r.logs[i + 1..];
      var rest := Keep(r, q, r.logs[i + 1..]);
      assert ([r.logs[i]] + rest)[1..] == rest && [] + rest == rest;
      assert Keep(r, q, r.logs[i..]) == (if Pertinent(r, q, r.logs[i]) then [r.logs[i]] + rest else rest);
    }
  }

  function WithLogs(r: Receipt, logs: seq<Log>): Receipt {
    r.(logs := logs)
  }

  /**
   The event found depends only on the logs of the pinned contract in this very transaction and
   block: two receipts that agree on those find the same event, in a log with the same own index.
   */
  lemma OnlyPertinentLogsCount(r: Receipt, q: Query, logs: seq<Log>)
    requires Keep(r, q, logs) == Keep(r, q, r.logs)
    ensures var a, b := Lookup(r, q), Lookup(WithLogs(r, logs), q);
            && (a.None? <==> b.None?)
            && (a.Some? ==> a.value.event == b.value.event)
            && (a.Some? && a.value != b.value ==>
                  r.logs[LookupFrom(r, q, 0).value].logIndex.None? &&
                  a.value.logIndex == LookupFrom(r, q, 0).value &&
                  b.value.logIndex == LookupFrom(WithLogs(r, logs), q, 0).value)
  {
    LookupIsFirstAnswer(r, q, 0);
    LookupIsFirstAnswer(WithLogs(r, logs), q, 0);
    assert r.logs[0..] == r.logs && logs[0..] == logs;
    KeepIgnoresLogs(r, q, logs, logs);
  }

  /** What is kept does not depend on the receipt's own list of logs. */
  lemma {:induction false} KeepIgnoresLogs(r: Receipt, q: Query, own: seq<Log>, logs: seq<Log>)
    ensures Keep(WithLogs(r, own), q, logs) == Keep(r, q, logs)
    decreases |logs|
  {
    if logs != [] {
      KeepIgnoresLogs(r, q, own, logs[1..]);
    }
  }

  lemma {:induction false} KeepConcat(r: Receipt, q: Query, xs: seq<Log>, ys: seq<Log>)
    ensures Keep(r, q, xs + ys) == Keep(r, q, xs) + Keep(r, q, ys)
    decreases |xs|
  {
    if xs == [] {
      assert xs + ys == ys;
    } else {
      assert (xs + ys)[1..] == xs[1..] + ys;
      KeepConcat(r, q, xs[1..], ys);
    }
  }

  lemma {:induction false} ForeignDropped(r: Receipt, q: Query, logs: seq<Log>)
    requires forall log :: log in logs ==> !Pertinent(r, q, log)
    ensures Keep(r, q, logs) == []
    decreases |logs|
  {
    if logs != [] {
      ForeignDropped(r, q, logs[1..]);
    }
  }

  /** Inserting any foreign logs anywhere leaves the event unchanged; an index only moves if the log had none. */
  lemma InsertionHarmless(r: Receipt, q: Query, at: nat, foreign: seq<Log>)
    requires at <= |r.logs| && forall log :: log in foreign ==> !Pertinent(r, q, log)
    ensures var s := WithLogs(r, r.logs[..at] + foreign + r.logs[at..]);
            var a, b := Lookup(r, q), Lookup(s, q);
            && (a.None? <==> b.None?)
            && (a.Some? ==> a.value.event == b.value.event)
            && (a.Some? && r.logs[LookupFrom(r, q, 0).value].logIndex.Some? ==> a == b)
  {
    var xs, ys := r.logs[..at], r.logs[at..];
    assert xs + ys == r.logs;
    KeepConcat(r, q, xs, ys);
    KeepConcat(r, q, xs + foreign, ys);
    KeepConcat(r, q, xs, foreign);
    ForeignDropped(r, q, foreign);
    OnlyPertinentLogsCount(r, q, xs + foreign + ys);
  }

  /// Funding

  datatype Error = TransactionUnknown | OnchainMismatch | TransactionReverted | InvalidAddress | UnauthorizedActor

  datatype Transaction = Transaction(hash: nat, from: Address, to: Option<Address>, input: string, value: nat)

  datatype ChainJob = ChainJob(client: Address, provider: Address, evaluator: Address, budget: nat, status: State)

  /** The expected call, and the terms that were persisted for it. */
  datatype FundInput = FundInput(
    hash: nat, actor: Address, to: Address, data: string, jobId: Option<nat>, provider: Option<Address>,
    budget: Option<nat>)

  function IntArg(e: Event, name: string): Option<int> {
    if name in e.args then e.args[name].asInt else None
  }

  function AddressArg(e: Event, name: string): Option<Address> {
    if name in e.args then e.args[name].asAddress else None
  }

  predicate Envelope(tx: Transaction, i: FundInput) {
    tx.hash == i.hash && tx.from == i.actor && tx.to == Some(i.to) && tx.input == i.data && tx.value == 0
  }

  /** `verifyEoaReceipt` for the fund step; `jobs` is the chain read. */
  function VerifyFund(q: Query, i: FundInput, tx: Option<Transaction>, receipt: Option<Receipt>,
                      jobs: nat -> Option<ChainJob>): Result<Found, Error> {
    if i.actor == 0 then Failure(InvalidAddress)
    else if tx.None? then Failure(TransactionUnknown)
    else if !Envelope(tx.value, i) then Failure(OnchainMismatch)
    else if receipt.None? then Failure(TransactionUnknown)
    else if receipt.value.txHash != i.hash then Failure(OnchainMismatch)
    else if !receipt.value.success then Failure(TransactionReverted)
    else if i.jobId.None? || i.budget.None? || i.provider.None? then Failure(OnchainMismatch)
    else
      var funded := Lookup(receipt.value, q);
      if funded.None? then Failure(OnchainMismatch)
      else
        var e := funded.value.event;
        if IntArg(e, "jobId") != Some(i.jobId.value) || AddressArg(e, "client") != Some(i.actor)
        then Failure(OnchainMismatch)
        else if AddressArg(e, "provider").None? then Failure(OnchainMismatch)
        else if i.provider.value == 0 then Failure(InvalidAddress)
        else if AddressArg(e, "provider") != i.provider || IntArg(e, "amount") != Some(i.budget.value)
        then Failure(OnchainMismatch)
        else
          var job := jobs(i.jobId.value);
          if job.None? || job.value.client != i.actor || job.value.budget != i.budget.value ||
             !AcceptsState(job.value.status, Lifecycle.Funded)
          then Failure(OnchainMismatch) else Success(funded.value)
  }

  /** The log states that this client funded this job for this provider with this amount. */
  predicate Funds(q: Query, log: Log, jobId: nat, client: Address, provider: Address, amount: nat) {
    var e := q.decode(log.body);
    e.Some? && e.value.name == q.name && IntArg(e.value, "jobId") == Some(jobId) &&
    AddressArg(e.value, "client") == Some(client) && AddressArg(e.value, "provider") == Some(provider) &&
    IntArg(e.value, "amount") == Some(amount)
  }

  ghost predicate FirstFunds(r: Receipt, q: Query, i: FundInput) {
    i.jobId.Some? && i.provider.Some? && i.budget.Some? &&
    exists k :: 0 <= k < |r.logs| && Hits(r, q, r.logs[k]) &&
                Funds(q, r.logs[k], i.jobId.value, i.actor, i.provider.value, i.budget.value) &&
                forall j :: 0 <= j < k ==> !Hits(r, q, r.logs[j])
  }

  /**
   A funding is verified exactly when the transaction is the expected call, its receipt succeeded,
   the first JobFunded log of the pinned contract carries the exact job, client, provider and
   amount, and the job read back has that client and budget in a state funding can lead to.
   */
  lemma FundVerifiedIff(q: Query, i: FundInput, tx: Option<Transaction>, receipt: Option<Receipt>,
                        jobs: nat -> Option<ChainJob>)
    requires q.jobId.None?
    ensures VerifyFund(q, i, tx, receipt, jobs).Success? <==>
              && tx.Some? && receipt.Some? && i.actor != 0 && i.provider != Some(0)
              && Envelope(tx.value, i) && receipt.value.txHash == i.hash && receipt.value.success
              && tx.value == Transaction(i.hash, i.actor, Some(i.to), i.data, 0)
              && FirstFunds(receipt.value, q, i)
              && jobs(i.jobId.value).Some?
              && var job := jobs(i.jobId.value).value;
                 job.client == i.actor && job.budget == i.budget.value && Reachable(Lifecycle.Funded, job.status)
    ensures VerifyFund(q, i, tx, receipt, jobs).Success? ==>
              Lookup(receipt.value, q) == Some(VerifyFund(q, i, tx, receipt, jobs).value) &&
              var args := VerifyFund(q, i, tx, receipt, jobs).value.event.args;
              && "jobId" in args && args["jobId"].asInt == Some(i.jobId.value)
              && "client" in args && args["client"].asAddress == Some(i.actor)
              && "provider" in args && args["provider"].asAddress == i.provider
              && "amount" in args && args["amount"].asInt == Some(i.budget.value)
  {
    VerifiedWithEvent(q, i, tx, receipt, jobs);
    if receipt.Some? && i.jobId.Some? {
      FirstIsLookup(receipt.value, q, i);
      var job := jobs(i.jobId.value);
      if job.Some? {
        AcceptedIffReachable(job.value.status, Lifecycle.Funded);
      }
    }
  }

  /** The same with the event that the lookup finds. */
  lemma VerifiedWithEvent(q: Query, i: FundInput, tx: Option<Transaction>, receipt: Option<Receipt>,
                          jobs: nat -> Option<ChainJob>)
    ensures var r := VerifyFund(q, i, tx, receipt, jobs);
            r.Success? <==>
            && i.actor != 0 && i.provider != Some(0) && tx == Some(Transaction(i.hash, i.actor, Some(i.to), i.data, 0))
            && receipt.Some? && receipt.value.txHash == i.hash && receipt.value.success
            && Lookup(receipt.value, q).Some? && Carries(Lookup(receipt.value, q).value.event, i)
            && jobs(i.jobId.value).Some?
            && var job := jobs(i.jobId.value).value;
               job.client == i.actor && job.budget == i.budget.value && AcceptsState(job.status, Lifecycle.Funded)
    ensures var r := VerifyFund(q, i, tx, receipt, jobs);
            r.Success? ==> Lookup(receipt.value, q) == Some(r.value)
  {
  }

  /** Which failure: what is missing leaves the transaction unknown, a revert is a revert, zero is no address. */
  lemma FundRefusals(q: Query, i: FundInput, tx: Option<Transaction>, receipt: Option<Receipt>,
                     jobs: nat -> Option<ChainJob>)
    ensures var r := VerifyFund(q, i, tx, receipt, jobs);
            var called := tx == Some(Transaction(i.hash, i.actor, Some(i.to), i.data, 0));
            && (r == Failure(TransactionUnknown) <==> i.actor != 0 && (tx == None || (called && receipt == None)))
            && (r == Failure(TransactionReverted) <==>
                  i.actor != 0 && called && receipt != None && receipt.value.txHash == i.hash &&
                  !receipt.value.success)
            && (r == Failure(InvalidAddress) <==>
                  i.actor == 0 ||
                  (called && receipt != None && receipt.value.txHash == i.hash && receipt.value.success &&
                   i.jobId != None && i.budget != None && i.provider == Some(0) &&
                   FindsFunding(receipt.value, q, i.jobId.value, i.actor)))
            && (r.Failure? ==>
                  r.error in {TransactionUnknown, TransactionReverted, InvalidAddress, OnchainMismatch})
  {
  }

  /** The event that is looked up names the job and its client, and some provider. */
  predicate FindsFunding(r: Receipt, q: Query, jobId: nat, client: Address) {
    var found := Lookup(r, q);
    found != None && IntArg(found.value.event, "jobId") == Some(jobId) &&
    AddressArg(found.value.event, "client") == Some(client) && AddressArg(found.value.event, "provider") != None
  }

  /** The terms that the event found by the lookup must carry. */
  predicate Carries(e: Event, i: FundInput) {
    i.jobId.Some? && i.provider.Some? && i.budget.Some? &&
    IntArg(e, "jobId") == Some(i.jobId.value) && AddressArg(e, "client") == Some(i.actor) &&
    AddressArg(e, "provider") == i.provider && IntArg(e, "amount") == Some(i.budget.value)
  }

  lemma FirstIsLookup(r: Receipt, q: Query, i: FundInput)
    ensures FirstFunds(r, q, i) <==> Lookup(r, q).Some? && Carries(Lookup(r, q).value.event, i)
  {
    var k := LookupFrom(r, q, 0);
    if k.Some? {
      LookupMinimal(r, q, 0);
    }
    if FirstFunds(r, q, i) {
      var m :| 0 <= m < |r.logs| && Hits(r, q, r.logs[m]) &&
               Funds(q, r.logs[m], i.jobId.value, i.actor, i.provider.value, i.budget.value) &&
               forall j :: 0 <= j < m ==> !Hits(r, q, r.logs[j]);
      LookupFirst(r, q, 0, m);
    }
  }

  lemma {:induction false} LookupMinimal(r: Receipt, q: Query, i: nat)
    requires i <= |r.logs| && LookupFrom(r, q, i).Some?
    ensures forall j :: i <= j < LookupFrom(r, q, i).value ==> !Hits(r, q, r.logs[j])
    decreases |r.logs| - i
  {
    if !Hits(r, q, r.logs[i]) {
      LookupMinimal(r, q, i + 1);
    }
  }

  /** Foreign logs cannot make a funding pass or fail. */
  lemma ForeignLogsCannotChangeVerdict(q: Query, i: FundInput, tx: Option<Transaction>, r: Receipt, at: nat,
                                       foreign: seq<Log>, jobs: nat -> Option<ChainJob>)
    requires at <= |r.logs| && forall log :: log in foreign ==> !Pertinent(r, q, log)
    ensures var s := WithLogs(r, r.logs[..at] + foreign + r.logs[at..]);
            var a, b := VerifyFund(q, i, tx, Some(r), jobs), VerifyFund(q, i, tx, Some(s), jobs);
            && (a.Success? <==> b.Success?)
            && (a.Failure? ==> a == b)
            && (a.Success? ==> a.value.event == b.value.event)
  {
    InsertionHarmless(r, q, at, foreign);
  }
}
