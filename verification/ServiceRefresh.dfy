/**
 The worker pool that verifies the services of a directory: any number of workers share the
 next row, a cache of promised verifications and the status counts.  Workers run one at a time
 and can be interleaved wherever they await, so a step is a stretch without an await.
 */
module ServiceRefresh {
  import opened Wrappers

  datatype Service = Service(name: string, url: string, version: string)

  datatype Key = Key(name: string, url: string, version: string)

  datatype Verdict = Verdict(protocol: string, status: string, detail: string)

  datatype Outcome = Outcome(name: string, verdict: Verdict)

  /** A row of the directory: its services, or a payload that does not parse. */
  type Row = Option<seq<Service>>

  datatype Promise = Pending | Resolved(verdict: Verdict) | Rejected

  datatype Worker =
    | Idle
    | Working(row: nat, results: seq<Outcome>)
    | Awaiting(row: nat, results: seq<Outcome>)
    | Failed(row: nat, results: seq<Outcome>)

  type Cache = map<Key, Promise>

  type Status = (string, string)

  /** One service that was counted: its row, its position and the status counted for it. */
  datatype Counted = Counted(row: nat, position: nat, status: Status)

  /** `verified` and `log` record the verifications started and the services counted, in order. */
  datatype Pool = Pool(
    index: nat, workers: seq<Worker>, cache: Cache, counts: multiset<Status>, stored: map<nat, seq<Outcome>>,
    verified: seq<Key>, log: seq<Counted>)

  /** The directory, and how names are put in lower case. */
  datatype Input = Input(rows: seq<Row>, lower: string -> string)

  function KeyOf(input: Input, s: Service): Key {
    Key(input.lower(s.name), s.url, s.version)
  }

  function StatusOf(v: Verdict): Status {
    (v.protocol, v.status)
  }

  predicate HasRow(input: Input, row: nat) {
    row < |input.rows| && input.rows[row].Some?
  }

  predicate HasService(input: Input, row: nat, position: nat) {
    HasRow(input, row) && position < |input.rows[row].value|
  }

  function KeyAt(input: Input, row: nat, position: nat): Key
    requires HasService(input, row, position)
  {
    KeyOf(input, input.rows[row].value[position])
  }

  /// Steps

  datatype Action =
    | Take(w: nat)
    | LookUp(w: nat)
    | Settle(key: Key, answer: Option<Verdict>)
    | Receive(w: nat)
    | Store(w: nat, succeeds: bool)

  function At(p: Pool, w: nat, worker: Worker): Pool
    requires w < |p.workers|
  {
    p.(workers := p.workers[w := worker])
  }

  /** `rows[index++]` and the parse of its payload. */
  function TakeStep(input: Input, p: Pool, w: nat): Pool {
    if w < |p.workers| && p.workers[w].Idle? && p.index < |input.rows| then
      At(p.(index := p.index + 1), w,
         if input.rows[p.index].Some? then Working(p.index, []) else Failed(p.index, []))
    else p
  }

  /** The cached promise of the next service, or a new one. */
  function LookUpStep(input: Input, p: Pool, w: nat): Pool {
    if w < |p.workers| && p.workers[w].Working? && HasService(input, p.workers[w].row, |p.workers[w].results|) then
      var Working(row, results) := p.workers[w];
      var key := KeyAt(input, row, |results|);
      var waiting := At(p, w, Awaiting(row, results));
      if key in p.cache then waiting
      else waiting.(cache := p.cache[key := Pending], verified := p.verified + [key])
    else p
  }

  function SettleStep(p: Pool, key: Key, answer: Option<Verdict>): Pool {
    if key in p.cache && p.cache[key].Pending? then
      p.(cache := p.cache[key := if answer.Some? then Resolved(answer.value) else Rejected])
    else p
  }

  /** The awaited promise has settled: count the result, or fail. */
  function ReceiveStep(input: Input, p: Pool, w: nat): Pool {
    if w < |p.workers| && p.workers[w].Awaiting? && HasService(input, p.workers[w].row, |p.workers[w].results|) then
      var Awaiting(row, results) := p.workers[w];
      var key := KeyAt(input, row, |results|);
      if key !in p.cache || p.cache[key].Pending? then p
      else if p.cache[key].Rejected? then At(p, w, Failed(row, results))
      else
        var v := p.cache[key].verdict;
        At(p, w, Working(row, results + [Outcome(input.rows[row].value[|results|].name, v)]))
        .(counts := p.counts + multiset{StatusOf(v)}, log := p.log + [Counted(row, |results|, StatusOf(v))])
    else p
  }

  /** The insert of a finished row. */
  function StoreStep(input: Input, p: Pool, w: nat, succeeds: bool): Pool {
    if w < |p.workers| && p.workers[w].Working? && HasRow(input, p.workers[w].row) &&
       |p.workers[w].results| == |input.rows[p.workers[w].row].value| then
      var Working(row, results) := p.workers[w];
      if succeeds then At(p, w, Idle).(stored := p.stored[row := results])
      else At(p, w, Failed(row, results))
    else p
  }

  function Step(input: Input, p: Pool, a: Action): Pool {
    match a
    case Take(w) => TakeStep(input, p, w)
    case LookUp(w) => LookUpStep(input, p, w)
    case Settle(key, answer) => SettleStep(p, key, answer)
    case Receive(w) => ReceiveStep(input, p, w)
    case Store(w, succeeds) => StoreStep(input, p, w, succeeds)
  }

  function Run(input: Input, p: Pool, actions: seq<Action>): Pool
    decreases |actions|
  {
    if actions == [] then p else Run(input, Step(input, p, actions[0]), actions[1..])
  }

  function Initial(workers: nat): Pool {
    Pool(0, seq(workers, _ => Idle), map[], multiset{}, map[], [], [])
  }

  /// The invariant

  predicate Holds(worker: Worker, row: nat) {
    !worker.Idle? && worker.row == row
  }

  /** Every row below the index is stored, or held by one worker, and not both. */
  predicate RowsOk(input: Input, p: Pool) {
    && p.index <= |input.rows|
    && (forall r :: r in p.stored ==> r < p.index)
    && (forall w :: 0 <= w < |p.workers| && !p.workers[w].Idle? ==>
          p.workers[w].row < p.index && p.workers[w].row !in p.stored)
    && (forall v, w :: 0 <= v < w < |p.workers| && !p.workers[v].Idle? && !p.workers[w].Idle? ==>
          p.workers[v].row != p.workers[w].row)
    && (forall r :: 0 <= r < p.index ==> r in p.stored || exists w :: 0 <= w < |p.workers| && Holds(p.workers[w], r))
  }

  predicate NoDuplicates<T(==)>(s: seq<T>) {
    forall i, j :: 0 <= i < j < |s| ==> s[i] != s[j]
  }

  ghost predicate CacheOk(p: Pool) {
    NoDuplicates(p.verified) && (forall k :: k in p.verified <==> k in p.cache)
  }

  /** The results are those of the first services of the row, as the cache answers them. */
  predicate Answers(input: Input, cache: Cache, row: nat, results: seq<Outcome>) {
    HasRow(input, row) && |results| <= |input.rows[row].value| &&
    forall j :: 0 <= j < |results| ==>
      var key := KeyAt(input, row, j);
      key in cache && cache[key].Resolved? &&
      results[j] == Outcome(input.rows[row].value[j].name, cache[key].verdict)
  }

  predicate WorkerOk(input: Input, cache: Cache, worker: Worker) {
    match worker
    case Idle => true
    case Working(row, results) => Answers(input, cache, row, results)
    case Awaiting(row, results) =>
      Answers(input, cache, row, results) && |results| < |input.rows[row].value| &&
      KeyAt(input, row, |results|) in cache
    case Failed(row, results) =>
      Answers(input, cache, row, results) || (results == [] && row < |input.rows| && input.rows[row].None?)
  }

  predicate ResultsOk(input: Input, p: Pool) {
    && (forall w :: 0 <= w < |p.workers| ==> WorkerOk(input, p.cache, p.workers[w]))
    && (forall r :: r in p.stored ==>
          Answers(input, p.cache, r, p.stored[r]) && |p.stored[r]| == |input.rows[r].value|)
  }

  predicate DoneBy(worker: Worker, row: nat, position: nat) {
    Holds(worker, row) && position < |worker.results|
  }

  /** The service has been verified and counted: its row is stored, or a worker has got past it. */
  predicate IsDone(p: Pool, row: nat, position: nat) {
    (row in p.stored && position < |p.stored[row]|) ||
    exists w :: 0 <= w < |p.workers| && DoneBy(p.workers[w], row, position)
  }

  function Statuses(log: seq<Counted>): multiset<Status> {
    if log == [] then multiset{} else Statuses(log[..|log| - 1]) + multiset{log[|log| - 1].status}
  }

  predicate CountedOk(input: Input, p: Pool, c: Counted) {
    HasService(input, c.row, c.position) && IsDone(p, c.row, c.position) &&
    var key := KeyAt(input, c.row, c.position);
    key in p.cache && p.cache[key].Resolved? && c.status == StatusOf(p.cache[key].verdict)
  }

  ghost predicate InLog(log: seq<Counted>, row: nat, position: nat) {
    exists k :: 0 <= k < |log| && log[k].row == row && log[k].position == position
  }

  ghost predicate LogOk(input: Input, p: Pool) {
    && p.counts == Statuses(p.log)
    && (forall k :: 0 <= k < |p.log| ==> CountedOk(input, p, p.log[k]))
    && (forall j, k :: 0 <= j < k < |p.log| ==>
          p.log[j].row != p.log[k].row || p.log[j].position != p.log[k].position)
    && (forall row: nat, position: nat :: IsDone(p, row, position) ==> InLog(p.log, row, position))
  }

  ghost predicate Inv(input: Input, p: Pool) {
    RowsOk(input, p) && CacheOk(p) && ResultsOk(input, p) && LogOk(input, p)
  }

  lemma InitialInv(input: Input, workers: nat)
    ensures Inv(input, Initial(workers))
  {
  }

  /// Steps keep it

  /** Promises are never replaced once settled. */
  predicate CacheGrows(a: Cache, b: Cache) {
    forall k :: k in a ==> k in b && (a[k].Resolved? ==> b[k] == a[k])
  }

  lemma ResultsFrame(input: Input, a: Cache, b: Cache, row: nat, results: seq<Outcome>)
    requires CacheGrows(a, b) && Answers(input, a, row, results)
    ensures Answers(input, b, row, results)
  {
  }

  lemma TakeRows(input: Input, p: Pool, w: nat)
    requires RowsOk(input, p)
    ensures RowsOk(input, TakeStep(input, p, w))
  {
    var next := TakeStep(input, p, w);
    if next != p {
      forall r | 0 <= r < next.index
        ensures r in next.stored || exists v :: 0 <= v < |next.workers| && Holds(next.workers[v], r)
      {
        if r == p.index {
          assert Holds(next.workers[w], r);
        } else if r !in p.stored {
          var v :| 0 <= v < |p.workers| && Holds(p.workers[v], r);
          assert Holds(next.workers[v], r);
        }
      }
    }
  }

  /** A worker that keeps its row keeps the rows in order. */
  lemma SameRowRows(input: Input, p: Pool, next: Pool, w: nat)
    requires RowsOk(input, p) && w < |p.workers| && !p.workers[w].Idle?
    requires next.index == p.index && next.stored == p.stored && |next.workers| == |p.workers|
    requires forall v :: 0 <= v < |p.workers| && v != w ==> next.workers[v] == p.workers[v]
    requires !next.workers[w].Idle? && next.workers[w].row == p.workers[w].row
    ensures RowsOk(input, next)
  {
    forall r | 0 <= r < next.index
      ensures r in next.stored || exists v :: 0 <= v < |next.workers| && Holds(next.workers[v], r)
    {
      if r !in p.stored {
        var v :| 0 <= v < |p.workers| && Holds(p.workers[v], r);
        assert Holds(next.workers[v], r);
      }
    }
  }

  lemma StoreRows(input: Input, p: Pool, w: nat)
    requires RowsOk(input, p)
    ensures RowsOk(input, StoreStep(input, p, w, true))
  {
    var next := StoreStep(input, p, w, true);
    if next != p {
      forall r | 0 <= r < next.index
        ensures r in next.stored || exists v :: 0 <= v < |next.workers| && Holds(next.workers[v], r)
      {
        if r !in next.stored {
          var v :| 0 <= v < |p.workers| && Holds(p.workers[v], r);
          assert Holds(next.workers[v], r);
        }
      }
    }
  }

  lemma StepRows(input: Input, p: Pool, a: Action)
    requires RowsOk(input, p)
    ensures RowsOk(input, Step(input, p, a))
  {
    match a
    case Take(w) => TakeRows(input, p, w);
    case LookUp(w) =>
      if Step(input, p, a) != p { SameRowRows(input, p, Step(input, p, a), w); }
    case Settle(_, _) =>
    case Receive(w) =>
      if Step(input, p, a) != p { SameRowRows(input, p, Step(input, p, a), w); }
    case Store(w, succeeds) =>
      if succeeds {
        StoreRows(input, p, w);
      } else if Step(input, p, a) != p {
        SameRowRows(input, p, Step(input, p, a), w);
      }
  }

  lemma StepCache(input: Input, p: Pool, a: Action)
    requires CacheOk(p)
    ensures CacheOk(Step(input, p, a)) && CacheGrows(p.cache, Step(input, p, a).cache)
  {
    if a.LookUp? {
      var next := LookUpStep(input, p, a.w);
      if next.verified != p.verified {
        var key := next.verified[|p.verified|];
        assert key !in p.verified;
        forall i, j | 0 <= i < j < |next.verified| ensures next.verified[i] != next.verified[j] {
          assert p.verified == next.verified[..|p.verified|];
        }
      }
    }
  }

  lemma OtherResults(input: Input, p: Pool, cache: Cache, w: nat)
    requires ResultsOk(input, p) && CacheGrows(p.cache, cache)
    ensures forall v :: 0 <= v < |p.workers| ==> WorkerOk(input, cache, p.workers[v])
    ensures forall r :: r in p.stored ==>
              Answers(input, cache, r, p.stored[r]) && |p.stored[r]| == |input.rows[r].value|
  {
    forall v | 0 <= v < |p.workers| ensures WorkerOk(input, cache, p.workers[v]) {
      assert WorkerOk(input, p.cache, p.workers[v]);
      if !p.workers[v].Idle? && Answers(input, p.cache, p.workers[v].row, p.workers[v].results) {
        ResultsFrame(input, p.cache, cache, p.workers[v].row, p.workers[v].results);
      }
    }
    forall r | r in p.stored ensures Answers(input, cache, r, p.stored[r]) {
      ResultsFrame(input, p.cache, cache, r, p.stored[r]);
    }
  }

  /** A step that changes at most worker `w` and the cache. */
  lemma WorkerStepResults(input: Input, p: Pool, next: Pool, w: nat)
    requires ResultsOk(input, p) && CacheGrows(p.cache, next.cache) && w < |p.workers| == |next.workers|
    requires next.workers == p.workers[w := next.workers[w]] && next.stored == p.stored
    requires WorkerOk(input, next.cache, next.workers[w])
    ensures ResultsOk(input, next)
  {
    OtherResults(input, p, next.cache, w);
  }

  lemma ReceiveResults(input: Input, p: Pool, w: nat)
    requires ResultsOk(input, p)
    ensures ResultsOk(input, ReceiveStep(input, p, w))
  {
    var next := ReceiveStep(input, p, w);
    if next != p {
      assert WorkerOk(input, p.cache, p.workers[w]);
      assert WorkerOk(input, next.cache, next.workers[w]);
      WorkerStepResults(input, p, next, w);
    }
  }

  lemma LookUpResults(input: Input, p: Pool, w: nat)
    requires ResultsOk(input, p) && CacheOk(p)
    ensures ResultsOk(input, LookUpStep(input, p, w))
  {
    var next := LookUpStep(input, p, w);
    StepCache(input, p, LookUp(w));
    if next != p {
      assert WorkerOk(input, p.cache, p.workers[w]);
      ResultsFrame(input, p.cache, next.cache, p.workers[w].row, p.workers[w].results);
      WorkerStepResults(input, p, next, w);
    }
  }

  lemma SettleResults(input: Input, p: Pool, key: Key, answer: Option<Verdict>)
    requires ResultsOk(input, p)
    ensures ResultsOk(input, SettleStep(p, key, answer))
  {
    OtherResults(input, p, SettleStep(p, key, answer).cache, 0);
  }

  lemma StepResults(input: Input, p: Pool, a: Action)
    requires ResultsOk(input, p) && CacheOk(p)
    ensures ResultsOk(input, Step(input, p, a))
  {
    match a
    case Take(w) =>
    case LookUp(w) => LookUpResults(input, p, w);
    case Settle(key, answer) => SettleResults(input, p, key, answer);
    case Receive(w) => ReceiveResults(input, p, w);
    case Store(w, _) =>
      if w < |p.workers| {
        assert WorkerOk(input, p.cache, p.workers[w]);
      }
  }

  ghost predicate SameDone(p: Pool, next: Pool) {
    forall row: nat, position: nat :: IsDone(next, row, position) <==> IsDone(p, row, position)
  }

  lemma LogFrame(input: Input, p: Pool, next: Pool)
    requires LogOk(input, p) && next.log == p.log && next.counts == p.counts
    requires CacheGrows(p.cache, next.cache) && SameDone(p, next)
    ensures LogOk(input, next)
  {
    forall k | 0 <= k < |next.log| ensures CountedOk(input, next, next.log[k]) {
      assert CountedOk(input, p, p.log[k]);
    }
  }

  /** Changing worker `w` between states with the same progress, or to and from none. */
  lemma WorkerSameDone(p: Pool, next: Pool, w: nat)
    requires w < |p.workers| == |next.workers|
    requires next.workers == p.workers[w := next.workers[w]] && next.stored == p.stored
    requires forall row: nat, position: nat ::
               DoneBy(p.workers[w], row, position) <==> DoneBy(next.workers[w], row, position)
    ensures SameDone(p, next)
  {
    forall row: nat, position: nat ensures IsDone(next, row, position) <==> IsDone(p, row, position) {
      if IsDone(p, row, position) && !(row in p.stored && position < |p.stored[row]|) {
        var v :| 0 <= v < |p.workers| && DoneBy(p.workers[v], row, position);
        assert DoneBy(next.workers[v], row, position);
      }
      if IsDone(next, row, position) && !(row in next.stored && position < |next.stored[row]|) {
        var v :| 0 <= v < |next.workers| && DoneBy(next.workers[v], row, position);
        assert DoneBy(p.workers[v], row, position);
      }
    }
  }

  lemma StoreSameDone(input: Input, p: Pool, w: nat)
    requires RowsOk(input, p)
    ensures SameDone(p, StoreStep(input, p, w, true))
  {
    var next := StoreStep(input, p, w, true);
    if next != p {
      forall row: nat, position: nat ensures IsDone(next, row, position) <==> IsDone(p, row, position) {
        if IsDone(p, row, position) && row !in p.stored {
          var v :| 0 <= v < |p.workers| && DoneBy(p.workers[v], row, position);
          if v != w {
            assert DoneBy(next.workers[v], row, position);
          }
        }
        if IsDone(next, row, position) && row !in p.stored {
          if row in next.stored && position < |next.stored[row]| {
            assert DoneBy(p.workers[w], row, position);
          } else {
            var v :| 0 <= v < |next.workers| && DoneBy(next.workers[v], row, position);
            assert DoneBy(p.workers[v], row, position);
          }
        }
      }
    }
  }

  lemma TakeSameDone(input: Input, p: Pool, w: nat)
    ensures SameDone(p, TakeStep(input, p, w))
  {
    var next := TakeStep(input, p, w);
    if next != p {
      WorkerSameDone(p, next, w);
    }
  }

  lemma LookUpSameDone(input: Input, p: Pool, w: nat)
    ensures SameDone(p, LookUpStep(input, p, w))
  {
    var next := LookUpStep(input, p, w);
    if next != p {
      WorkerSameDone(p, next, w);
    }
  }

  lemma StoreFailsSameDone(input: Input, p: Pool, w: nat)
    ensures SameDone(p, StoreStep(input, p, w, false))
  {
    var next := StoreStep(input, p, w, false);
    if next != p {
      WorkerSameDone(p, next, w);
    }
  }

  lemma QuietSameDone(input: Input, p: Pool, a: Action)
    requires RowsOk(input, p) && !a.Receive?
    ensures SameDone(p, Step(input, p, a))
  {
    match a
    case Take(w) => TakeSameDone(input, p, w);
    case LookUp(w) => LookUpSameDone(input, p, w);
    case Settle(_, _) =>
    case Store(w, succeeds) =>
      if succeeds { StoreSameDone(input, p, w); } else { StoreFailsSameDone(input, p, w); }
  }

  lemma QuietKeepsLog(input: Input, p: Pool, a: Action)
    requires !a.Receive?
    ensures Step(input, p, a).log == p.log && Step(input, p, a).counts == p.counts
  {
  }

  lemma QuietLog(input: Input, p: Pool, a: Action)
    requires Inv(input, p) && !a.Receive?
    ensures LogOk(input, Step(input, p, a))
  {
    StepCache(input, p, a);
    QuietSameDone(input, p, a);
    QuietKeepsLog(input, p, a);
    LogFrame(input, p, Step(input, p, a));
  }

  /** Receiving a result makes exactly one more service done. */
  lemma ReceiveDone(input: Input, p: Pool, next: Pool, w: nat)
    requires RowsOk(input, p) && w < |p.workers| == |next.workers|
    requires !p.workers[w].Idle? && !next.workers[w].Idle?
    requires next.workers == p.workers[w := next.workers[w]] && next.stored == p.stored
    requires next.workers[w].row == p.workers[w].row && |next.workers[w].results| == |p.workers[w].results| + 1
    ensures forall row: nat, position: nat ::
              IsDone(next, row, position) <==>
              IsDone(p, row, position) || (row == p.workers[w].row && position == |p.workers[w].results|)
    ensures !IsDone(p, p.workers[w].row, |p.workers[w].results|)
  {
    var worker := p.workers[w];
    assert DoneBy(next.workers[w], worker.row, |worker.results|);
    forall row: nat, position: nat
      ensures IsDone(next, row, position) <==>
              IsDone(p, row, position) || (row == worker.row && position == |worker.results|)
    {
      if IsDone(p, row, position) && row !in p.stored {
        var v :| 0 <= v < |p.workers| && DoneBy(p.workers[v], row, position);
        assert DoneBy(next.workers[v], row, position);
      }
      if IsDone(next, row, position) && row !in next.stored {
        var v :| 0 <= v < |next.workers| && DoneBy(next.workers[v], row, position);
        assert v != w ==> DoneBy(p.workers[v], row, position);
        assert v == w && position < |worker.results| ==> DoneBy(p.workers[v], row, position);
      }
    }
  }

  lemma ReceiveLog(input: Input, p: Pool, w: nat)
    requires Inv(input, p)
    ensures LogOk(input, ReceiveStep(input, p, w))
  {
    var next := ReceiveStep(input, p, w);
    if next.log == p.log {
      if next != p {
        WorkerSameDone(p, next, w);
        LogFrame(input, p, next);
      }
    } else {
      ReceiveDone(input, p, next, w);
      var c := next.log[|p.log|];
      assert CountedOk(input, next, c);
      AddedLog(input, p, next, c);
    }
  }

  lemma InLogGrows(log: seq<Counted>, c: Counted, row: nat, position: nat)
    ensures InLog(log + [c], row, position) <==>
            InLog(log, row, position) || (row == c.row && position == c.position)
  {
    if InLog(log, row, position) {
      var k :| 0 <= k < |log| && log[k].row == row && log[k].position == position;
      assert (log + [c])[k] == log[k];
    }
    assert (log + [c])[|log|] == c;
  }

  /** What a counted result does to the parts of the log invariant, one at a time. */
  ghost predicate Adds(p: Pool, next: Pool, c: Counted) {
    && next.log == p.log + [c] && next.cache == p.cache && next.counts == p.counts + multiset{c.status}
    && !IsDone(p, c.row, c.position)
    && forall row: nat, position: nat ::
         IsDone(next, row, position) <==> IsDone(p, row, position) || (row == c.row && position == c.position)
  }

  lemma AddedEntries(input: Input, p: Pool, next: Pool, c: Counted)
    requires LogOk(input, p) && Adds(p, next, c) && CountedOk(input, next, c)
    ensures forall k :: 0 <= k < |next.log| ==> CountedOk(input, next, next.log[k])
  {
    forall k | 0 <= k < |next.log| ensures CountedOk(input, next, next.log[k]) {
      if k < |p.log| {
        assert next.log[k] == p.log[k] && CountedOk(input, p, p.log[k]);
      }
    }
  }

  lemma AddedDistinct(input: Input, p: Pool, next: Pool, c: Counted)
    requires LogOk(input, p) && Adds(p, next, c)
    ensures forall j, k :: 0 <= j < k < |next.log| ==>
              next.log[j].row != next.log[k].row || next.log[j].position != next.log[k].position
  {
    forall k | 0 <= k < |p.log| ensures p.log[k].row != c.row || p.log[k].position != c.position {
      assert CountedOk(input, p, p.log[k]);
    }
  }

  lemma AddedCovers(input: Input, p: Pool, next: Pool, c: Counted)
    requires LogOk(input, p) && Adds(p, next, c)
    ensures forall row: nat, position: nat :: IsDone(next, row, position) ==> InLog(next.log, row, position)
  {
    forall row: nat, position: nat | IsDone(next, row, position) ensures InLog(next.log, row, position) {
      InLogGrows(p.log, c, row, position);
    }
  }

  lemma AddedLog(input: Input, p: Pool, next: Pool, c: Counted)
    requires LogOk(input, p) && Adds(p, next, c) && CountedOk(input, next, c)
    ensures LogOk(input, next)
  {
    AddedEntries(input, p, next, c);
    AddedDistinct(input, p, next, c);
    AddedCovers(input, p, next, c);
    assert (p.log + [c])[..|p.log|] == p.log;
  }

  lemma StepInv(input: Input, p: Pool, a: Action)
    requires Inv(input, p)
    ensures Inv(input, Step(input, p, a)) && CacheGrows(p.cache, Step(input, p, a).cache)
  {
    StepRows(input, p, a);
    StepCache(input, p, a);
    StepResults(input, p, a);
    if a.Receive? {
      ReceiveLog(input, p, a.w);
    } else {
      QuietLog(input, p, a);
    }
  }

  lemma {:induction false} RunInv(input: Input, p: Pool, actions: seq<Action>)
    requires Inv(input, p)
    ensures Inv(input, Run(input, p, actions)) && CacheGrows(p.cache, Run(input, p, actions).cache)
    decreases |actions|
  {
    if actions != [] {
      StepInv(input, p, actions[0]);
      RunInv(input, Step(input, p, actions[0]), actions[1..]);
    }
  }

  /// Guarantees of every run

  lemma Reached(input: Input, workers: nat, actions: seq<Action>)
    ensures Inv(input, Run(input, Initial(workers), actions))
  {
    InitialInv(input, workers);
    RunInv(input, Initial(workers), actions);
  }

  /**
   Whatever the schedule, every row below the shared index was taken by exactly one worker: it
   is stored, or one worker holds it, and never two.
   */
  lemma EachRowTakenOnce(input: Input, workers: nat, actions: seq<Action>, row: nat)
    ensures var p := Run(input, Initial(workers), actions);
            && p.index <= |input.rows|
            && (row < p.index <==> row in p.stored || exists w :: 0 <= w < |p.workers| && Holds(p.workers[w], row))
            && (row in p.stored ==> forall w :: 0 <= w < |p.workers| ==> !Holds(p.workers[w], row))
            && (forall v, w :: 0 <= v < w < |p.workers| ==> !(Holds(p.workers[v], row) && Holds(p.workers[w], row)))
  {
    Reached(input, workers, actions);
  }

  /** Each distinct service is verified at most once, and every answer is kept for good. */
  lemma EachKeyVerifiedOnce(input: Input, workers: nat, xs: seq<Action>, ys: seq<Action>)
    ensures var before, after := Run(input, Initial(workers), xs), Run(input, Run(input, Initial(workers), xs), ys);
            NoDuplicates(after.verified) && (forall k :: k in after.verified <==> k in after.cache) &&
            CacheGrows(before.cache, after.cache)
  {
    Reached(input, workers, xs);
    RunInv(input, Run(input, Initial(workers), xs), ys);
  }

  lemma {:induction false} StatusesCard(log: seq<Counted>)
    ensures |Statuses(log)| == |log|
    decreases |log|
  {
    if log != [] {
      StatusesCard(log[..|log| - 1]);
    }
  }

  /**
   The counts sum to the number of services processed: one count for each service a worker has
   got past, with the status the cache holds for it, and none for any other.
   */
  lemma CountsSumToProcessed(input: Input, workers: nat, actions: seq<Action>)
    ensures var p := Run(input, Initial(workers), actions);
            && |p.counts| == |p.log| && p.counts == Statuses(p.log)
            && (forall row: nat, position: nat :: IsDone(p, row, position) <==> InLog(p.log, row, position))
            && (forall j, k :: 0 <= j < k < |p.log| ==>
                  p.log[j].row != p.log[k].row || p.log[j].position != p.log[k].position)
            && (forall k :: 0 <= k < |p.log| ==> CountedOk(input, p, p.log[k]))
  {
    Reached(input, workers, actions);
    var p := Run(input, Initial(workers), actions);
    StatusesCard(p.log);
    forall row: nat, position: nat | InLog(p.log, row, position) ensures IsDone(p, row, position) {
      var k :| 0 <= k < |p.log| && p.log[k].row == row && p.log[k].position == position;
      assert CountedOk(input, p, p.log[k]);
    }
  }

  /// The sequential loop

  /** Verification as a function of the key alone. */
  type Verifier = Key -> Verdict

  function RowLog(input: Input, verify: Verifier, row: nat, n: nat): seq<Counted>
    requires HasRow(input, row) && n <= |input.rows[row].value|
  {
    if n == 0 then []
    else RowLog(input, verify, row, n - 1) + [Counted(row, n - 1, StatusOf(verify(KeyAt(input, row, n - 1))))]
  }

  function SequentialLog(input: Input, verify: Verifier, n: nat): seq<Counted>
    requires n <= |input.rows| && forall r :: 0 <= r < n ==> input.rows[r].Some?
  {
    if n == 0 then []
    else SequentialLog(input, verify, n - 1) + RowLog(input, verify, n - 1, |input.rows[n - 1].value|)
  }

  /** The results of a row when every service is verified on its own. */
  predicate IsVerifiedRow(input: Input, verify: Verifier, row: nat, results: seq<Outcome>) {
    HasRow(input, row) && |results| == |input.rows[row].value| &&
    forall j :: 0 <= j < |results| ==>
      results[j] == Outcome(input.rows[row].value[j].name, verify(KeyAt(input, row, j)))
  }

  lemma {:induction false} StatusesConcat(xs: seq<Counted>, ys: seq<Counted>)
    ensures Statuses(xs + ys) == Statuses(xs) + Statuses(ys)
    decreases |ys|
  {
    if ys == [] {
      assert xs + ys == xs;
    } else {
      assert (xs + ys)[..|xs + ys| - 1] == xs + ys[..|ys| - 1];
      StatusesConcat(xs, ys[..|ys| - 1]);
    }
  }

  predicate AllVerified(input: Input, verify: Verifier, results: seq<seq<Outcome>>) {
    forall r :: 0 <= r < |results| ==> IsVerifiedRow(input, verify, r, results[r])
  }

  lemma OneMoreVerified(input: Input, verify: Verifier, results: seq<seq<Outcome>>, outcomes: seq<Outcome>)
    requires AllVerified(input, verify, results) && IsVerifiedRow(input, verify, |results|, outcomes)
    ensures AllVerified(input, verify, results + [outcomes])
  {
  }

  /** The same work done row by row, without workers and without a cache. */
  method RefreshSequentially(input: Input, verify: Verifier)
      returns (results: seq<seq<Outcome>>, counts: multiset<Status>)
    requires forall r :: 0 <= r < |input.rows| ==> input.rows[r].Some?
    ensures |results| == |input.rows| && AllVerified(input, verify, results)
    ensures counts == Statuses(SequentialLog(input, verify, |input.rows|))
    ensures forall r, j :: 0 <= r < |results| && 0 <= j < |input.rows[r].value| ==>
              |results[r]| == |input.rows[r].value| &&
              var s := input.rows[r].value[j];
              results[r][j] == Outcome(s.name, verify(Key(input.lower(s.name), s.url, s.version)))
  {
    results, counts := [], multiset{};
    for row := 0 to |input.rows|
      invariant |results| == row && AllVerified(input, verify, results)
      invariant counts == Statuses(SequentialLog(input, verify, row))
    {
      var outcomes;
      outcomes, counts := RefreshRow(input, verify, row, counts);
      SequentialStep(input, verify, row);
      OneMoreVerified(input, verify, results, outcomes);
      results := results + [outcomes];
    }
  }

  lemma SequentialStep(input: Input, verify: Verifier, row: nat)
    requires row < |input.rows| && forall r :: 0 <= r <= row ==> input.rows[r].Some?
    ensures Statuses(SequentialLog(input, verify, row + 1))
         == Statuses(SequentialLog(input, verify, row))
            + Statuses(RowLog(input, verify, row, |input.rows[row].value|))
  {
    StatusesConcat(SequentialLog(input, verify, row), RowLog(input, verify, row, |input.rows[row].value|));
  }

  method RefreshRow(input: Input, verify: Verifier, row: nat, start: multiset<Status>)
      returns (outcomes: seq<Outcome>, counts: multiset<Status>)
    requires HasRow(input, row)
    ensures IsVerifiedRow(input, verify, row, outcomes)
    ensures counts == start + Statuses(RowLog(input, verify, row, |input.rows[row].value|))
  {
    var services := input.rows[row].value;
    outcomes, counts := [], start;
    for j := 0 to |services|
      invariant |outcomes| == j
      invariant forall i :: 0 <= i < j ==> outcomes[i] == Outcome(services[i].name, verify(KeyAt(input, row, i)))
      invariant counts == start + Statuses(RowLog(input, verify, row, j))
    {
      var v := verify(KeyOf(input, services[j]));
      outcomes := outcomes + [Outcome(services[j].name, v)];
      counts := counts + multiset{StatusOf(v)};
      RowLogStep(input, verify, row, j);
    }
  }

  lemma RowLogStep(input: Input, verify: Verifier, row: nat, j: nat)
    requires HasService(input, row, j)
    ensures Statuses(RowLog(input, verify, row, j + 1))
         == Statuses(RowLog(input, verify, row, j)) + multiset{StatusOf(verify(KeyAt(input, row, j)))}
  {
    var next := Counted(row, j, StatusOf(verify(KeyAt(input, row, j))));
    StatusesConcat(RowLog(input, verify, row, j), [next]);
    assert [next][..0] == [];
  }

  lemma {:induction false} RowLogLength(input: Input, verify: Verifier, row: nat, n: nat)
    requires HasRow(input, row) && n <= |input.rows[row].value|
    ensures |RowLog(input, verify, row, n)| == n
    ensures forall k :: 0 <= k < n ==>
              RowLog(input, verify, row, n)[k] == Counted(row, k, StatusOf(verify(KeyAt(input, row, k))))
    decreases n
  {
    if n > 0 {
      RowLogLength(input, verify, row, n - 1);
    }
  }

  ghost predicate Expected(input: Input, verify: Verifier, c: Counted) {
    HasService(input, c.row, c.position) && c.status == StatusOf(verify(KeyAt(input, c.row, c.position)))
  }

  lemma {:induction false} SequentialLogIs(input: Input, verify: Verifier, n: nat)
    requires n <= |input.rows| && forall r :: 0 <= r < n ==> input.rows[r].Some?
    ensures NoDuplicates(SequentialLog(input, verify, n))
    ensures forall c: Counted :: c in SequentialLog(input, verify, n) <==> c.row < n && Expected(input, verify, c)
    decreases n
  {
    if n > 0 {
      var front, row := SequentialLog(input, verify, n - 1), n - 1;
      var back := RowLog(input, verify, row, |input.rows[row].value|);
      SequentialLogIs(input, verify, n - 1);
      RowLogLength(input, verify, row, |input.rows[row].value|);
      forall c: Counted ensures c in front + back <==> c.row < n && Expected(input, verify, c) {
        if c.row == row && Expected(input, verify, c) {
          assert back[c.position] == c;
        }
      }
      DistinctJoin(front, back);
    }
  }

  lemma DistinctJoin(xs: seq<Counted>, ys: seq<Counted>)
    requires NoDuplicates(xs) && NoDuplicates(ys)
    requires forall x, y :: x in xs && y in ys ==> x != y
    ensures NoDuplicates(xs + ys)
  {
    forall i, j | 0 <= i < |xs| <= j < |xs + ys| ensures (xs + ys)[i] != (xs + ys)[j] {
      assert xs[i] in xs && (xs + ys)[j] == ys[j - |xs|] && ys[j - |xs|] in ys;
    }
  }

  lemma {:induction false} DistinctMultiset(s: seq<Counted>)
    requires NoDuplicates(s)
    ensures forall c: Counted :: multiset(s)[c] == if c in s then 1 else 0
    decreases |s|
  {
    if s != [] {
      var front, last := s[..|s| - 1], s[|s| - 1];
      assert s == front + [last];
      DistinctMultiset(front);
      assert last !in front;
    }
  }

  lemma SameEntries(xs: seq<Counted>, ys: seq<Counted>)
    requires NoDuplicates(xs) && NoDuplicates(ys) && forall c: Counted :: c in xs <==> c in ys
    ensures multiset(xs) == multiset(ys)
  {
    DistinctMultiset(xs);
    DistinctMultiset(ys);
  }

  lemma Cancel(a: multiset<Counted>, b: multiset<Counted>, x: Counted)
    requires a + multiset{x} == b + multiset{x}
    ensures a == b
  {
    forall y: Counted ensures a[y] == b[y] {
      assert (a + multiset{x})[y] == a[y] + multiset{x}[y];
      assert (b + multiset{x})[y] == b[y] + multiset{x}[y];
    }
  }

  lemma RemoveStatus(a: seq<Counted>, x: Counted, b: seq<Counted>)
    ensures Statuses(a + [x] + b) == Statuses(a + b) + multiset{x.status}
  {
    StatusesConcat(a + [x], b);
    StatusesConcat(a, [x]);
    StatusesConcat(a, b);
    assert [x][..0] == [];
  }

  lemma RemoveEntry(a: seq<Counted>, x: Counted, b: seq<Counted>)
    ensures multiset(a + [x] + b) == multiset(a + b) + multiset{x}
  {
  }

  lemma SplitAt(ys: seq<Counted>, k: nat)
    requires k < |ys|
    ensures ys == ys[..k] + [ys[k]] + ys[k + 1..]
  {
  }

  lemma PermutedStep(front: seq<Counted>, x: Counted, a: seq<Counted>, b: seq<Counted>)
    requires multiset(front + [x]) == multiset(a + [x] + b)
    ensures multiset(front) == multiset(a + b)
  {
    RemoveEntry(a, x, b);
    RemoveEntry(front, x, []);
    assert front + [x] + [] == front + [x] && front + [] == front;
    Cancel(multiset(front), multiset(a + b), x);
  }

  /** Statuses only depend on which entries there are, not on their order. */
  lemma {:induction false} StatusesPermuted(xs: seq<Counted>, ys: seq<Counted>)
    requires multiset(xs) == multiset(ys)
    ensures Statuses(xs) == Statuses(ys)
    decreases |xs|
  {
    if xs == [] {
      assert |multiset(ys)| == 0;
    } else {
      var n := |xs| - 1;
      assert xs[n] in multiset(ys);
      var k :| 0 <= k < |ys| && ys[k] == xs[n];
      SplitAt(ys, k);
      SplitAt(xs, n);
      assert xs == xs[..n] + [xs[n]];
      PermutedStep(xs[..n], xs[n], ys[..k], ys[k + 1..]);
      StatusesPermuted(xs[..n], ys[..k] + ys[k + 1..]);
      RemoveStatus(ys[..k], ys[k], ys[k + 1..]);
    }
  }

  predicate AllFinished(input: Input, p: Pool) {
    p.index == |input.rows| && forall w :: 0 <= w < |p.workers| ==> p.workers[w].Idle?
  }

  /** Every answer given in this run is the one `verify` gives for the key. */
  predicate AnswersBy(p: Pool, verify: Verifier) {
    forall k :: k in p.cache && p.cache[k].Resolved? ==> p.cache[k].verdict == verify(k)
  }

  lemma FinishedRows(input: Input, p: Pool, verify: Verifier, row: nat)
    requires Inv(input, p) && AllFinished(input, p) && AnswersBy(p, verify) && row < |input.rows|
    ensures row in p.stored && IsVerifiedRow(input, verify, row, p.stored[row])
  {
    assert row in p.stored;
    assert Answers(input, p.cache, row, p.stored[row]);
  }

  lemma FinishedLog(input: Input, p: Pool, verify: Verifier)
    requires Inv(input, p) && AllFinished(input, p) && AnswersBy(p, verify)
    requires forall r :: 0 <= r < |input.rows| ==> input.rows[r].Some?
    ensures forall c: Counted :: c in p.log <==> c.row < |input.rows| && Expected(input, verify, c)
  {
    forall c: Counted ensures c in p.log <==> c.row < |input.rows| && Expected(input, verify, c) {
      if c in p.log {
        assert CountedOk(input, p, c);
      }
      if c.row < |input.rows| && Expected(input, verify, c) {
        FinishedRows(input, p, verify, c.row);
        assert IsDone(p, c.row, c.position) && InLog(p.log, c.row, c.position);
        var k :| 0 <= k < |p.log| && p.log[k].row == c.row && p.log[k].position == c.position;
        assert CountedOk(input, p, p.log[k]);
        assert p.log[k] == c;
      }
    }
  }

  /**
   When every worker has finished and none has failed, all rows are stored, with exactly the
   results and counts of the sequential, uncached loop.
   */
  lemma AgreesWithSequential(input: Input, workers: nat, actions: seq<Action>, verify: Verifier)
    requires var p := Run(input, Initial(workers), actions);
             AllFinished(input, p) && AnswersBy(p, verify)
    ensures var p := Run(input, Initial(workers), actions);
            && (forall r :: 0 <= r < |input.rows| ==>
                  input.rows[r].Some? && r in p.stored && IsVerifiedRow(input, verify, r, p.stored[r]))
            && p.counts == Statuses(SequentialLog(input, verify, |input.rows|))
            && (forall r, j :: 0 <= r < |input.rows| && 0 <= j < |input.rows[r].value| ==>
                  |p.stored[r]| == |input.rows[r].value| &&
                  var s := input.rows[r].value[j];
                  p.stored[r][j] == Outcome(s.name, verify(Key(input.lower(s.name), s.url, s.version))))
  {
    Reached(input, workers, actions);
    var p := Run(input, Initial(workers), actions);
    forall r | 0 <= r < |input.rows|
      ensures input.rows[r].Some? && r in p.stored && IsVerifiedRow(input, verify, r, p.stored[r])
    {
      FinishedRows(input, p, verify, r);
    }
    FinishedLog(input, p, verify);
    SequentialLogIs(input, verify, |input.rows|);
    var sequential := SequentialLog(input, verify, |input.rows|);
    SameEntries(p.log, sequential);
    StatusesPermuted(p.log, sequential);
  }

  /// A run that finishes

  lemma {:induction false} RunJoin(input: Input, p: Pool, xs: seq<Action>, ys: seq<Action>)
    ensures Run(input, p, xs + ys) == Run(input, Run(input, p, xs), ys)
    decreases |xs|
  {
    if xs == [] {
      assert xs + ys == ys;
    } else {
      assert (xs + ys)[1..] == xs[1..] + ys;
      RunJoin(input, Step(input, p, xs[0]), xs[1..], ys);
    }
  }

  /** Only the first worker may be busy; every answer so far has come, and is the one `verify` gives. */
  predicate Alone(p: Pool, verify: Verifier) {
    |p.workers| > 0 && (forall w :: 1 <= w < |p.workers| ==> p.workers[w].Idle?) &&
    forall k :: k in p.cache ==> p.cache[k] == Resolved(verify(k))
  }

  lemma RunThree(input: Input, p: Pool, a: Action, b: Action, c: Action)
    ensures Run(input, p, [a, b, c]) == Step(input, Step(input, Step(input, p, a), b), c)
  {
    RunOne(input, p, a);
    RunOne(input, Step(input, p, a), b);
    RunOne(input, Step(input, Step(input, p, a), b), c);
    RunJoin(input, p, [a], [b]);
    RunJoin(input, p, [a] + [b], [c]);
    assert [a, b, c] == [a] + [b] + [c];
  }

  lemma RunOne(input: Input, p: Pool, a: Action)
    ensures Run(input, p, [a]) == Step(input, p, a)
  {
    assert [a][1..] == [];
  }

  /** One service: its promise is looked up or made, settled, and received. */
  lemma ServesOne(input: Input, p: Pool, verify: Verifier) returns (actions: seq<Action>)
    requires Alone(p, verify) && p.workers[0].Working?
    requires HasService(input, p.workers[0].row, |p.workers[0].results|)
    ensures var r := Run(input, p, actions);
            && Alone(r, verify) && r.workers[0].Working? && r.workers[0].row == p.workers[0].row
            && |r.workers[0].results| == |p.workers[0].results| + 1 && r.index == p.index
  {
    var key := KeyAt(input, p.workers[0].row, |p.workers[0].results|);
    actions := [LookUp(0), Settle(key, Some(verify(key))), Receive(0)];
    RunThree(input, p, LookUp(0), Settle(key, Some(verify(key))), Receive(0));
  }

  lemma {:induction false} ServesRow(input: Input, p: Pool, verify: Verifier) returns (actions: seq<Action>)
    requires Alone(p, verify) && p.workers[0].Working? && HasRow(input, p.workers[0].row)
    requires |p.workers[0].results| <= |input.rows[p.workers[0].row].value|
    ensures var r := Run(input, p, actions);
            Alone(r, verify) && r.workers[0].Idle? && r.index == p.index
    decreases |input.rows[p.workers[0].row].value| - |p.workers[0].results|
  {
    if |p.workers[0].results| == |input.rows[p.workers[0].row].value| {
      actions := [Store(0, true)];
      RunOne(input, p, Store(0, true));
    } else {
      var one := ServesOne(input, p, verify);
      var rest := ServesRow(input, Run(input, p, one), verify);
      RunJoin(input, p, one, rest);
      actions := one + rest;
    }
  }

  lemma {:induction false} ServesAll(input: Input, p: Pool, verify: Verifier) returns (actions: seq<Action>)
    requires Alone(p, verify) && p.workers[0].Idle? && p.index <= |input.rows|
    requires forall r :: 0 <= r < |input.rows| ==> input.rows[r].Some?
    ensures var r := Run(input, p, actions);
            Alone(r, verify) && AllFinished(input, r)
    decreases |input.rows| - p.index
  {
    if p.index == |input.rows| {
      actions := [];
    } else {
      var taken := Step(input, p, Take(0));
      RunOne(input, p, Take(0));
      var row := ServesRow(input, taken, verify);
      var rest := ServesAll(input, Run(input, taken, row), verify);
      RunJoin(input, taken, row, rest);
      RunJoin(input, p, [Take(0)], row + rest);
      actions := [Take(0)] + (row + rest);
    }
  }

  /** For every directory that parses and all answers there is a run in which the pool finishes. */
  lemma SomeRunFinishes(input: Input, workers: nat, verify: Verifier) returns (actions: seq<Action>)
    requires workers > 0 && forall r :: 0 <= r < |input.rows| ==> input.rows[r].Some?
    ensures var p := Run(input, Initial(workers), actions);
            AllFinished(input, p) && AnswersBy(p, verify)
  {
    actions := ServesAll(input, Initial(workers), verify);
  }
}
