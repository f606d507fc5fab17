/** The shared variables of the refresh, and the stretches between awaits as methods on them. */
module ServiceRefreshPool {
  import opened Wrappers
  import S = ServiceRefresh

  /** The states a trace goes through, the first one included. */
  ghost predicate IsHistory(input: S.Input, workers: nat, trace: seq<S.Action>, history: seq<S.Pool>) {
    && |history| == |trace| + 1 && history[0] == S.Initial(workers)
    && forall i {:trigger trace[i]} :: 0 <= i < |trace| ==> history[i + 1] == S.Step(input, history[i], trace[i])
  }

  lemma {:induction false} RunSnoc(input: S.Input, p: S.Pool, trace: seq<S.Action>, a: S.Action)
    ensures S.Run(input, p, trace + [a]) == S.Step(input, S.Run(input, p, trace), a)
    decreases |trace|
  {
    if trace == [] {
      assert trace + [a] == [a] && [a][1..] == [];
      assert S.Run(input, p, [a]) == S.Run(input, S.Step(input, p, a), []);
    } else {
      assert (trace + [a])[1..] == trace[1..] + [a];
      RunSnoc(input, S.Step(input, p, trace[0]), trace[1..], a);
    }
  }

  lemma {:induction false} HistoryIsRun(input: S.Input, workers: nat, trace: seq<S.Action>, history: seq<S.Pool>)
    requires IsHistory(input, workers, trace, history)
    ensures history[|trace|] == S.Run(input, S.Initial(workers), trace)
    decreases |trace|
  {
    if trace != [] {
      var n := |trace| - 1;
      var front := trace[..n];
      assert forall i {:trigger front[i]} :: 0 <= i < n ==> front[i] == trace[i];
      HistoryIsRun(input, workers, front, history[..n + 1]);
      RunSnoc(input, S.Initial(workers), front, trace[n]);
      assert front + [trace[n]] == trace;
    }
  }

  class Refresh {
    const input: S.Input
    var index: nat
    var completed: nat
    var workers: seq<S.Worker>
    var cache: S.Cache
    var counts: multiset<S.Status>
    var stored: map<nat, seq<S.Outcome>>
    ghost var verified: seq<S.Key>
    ghost var log: seq<S.Counted>
    ghost const size: nat
    ghost var trace: seq<S.Action>
    ghost var history: seq<S.Pool>

    ghost function State(): S.Pool
      reads this
    {
      S.Pool(index, workers, cache, counts, stored, verified, log)
    }

    /** The object is where its history leads, and `completed` counts the rows stored. */
    ghost predicate Valid()
      reads this
    {
      IsHistory(input, size, trace, history) && State() == history[|trace|] && completed == |stored|
    }

    constructor (input: S.Input, size: nat)
      ensures Valid() && this.input == input && State() == S.Initial(size)
    {
      this.input, this.size := input, size;
      index, completed, cache, counts, stored := 0, 0, map[], multiset{}, map[];
      workers := seq(size, _ => S.Idle);
      verified, log := [], [];
      trace, history := [], [S.Initial(size)];
    }

    /** So every guarantee of the pool's runs is one about this object. */
    lemma IsReachable()
      requires Valid()
      ensures State() == S.Run(input, S.Initial(size), trace) && S.Inv(input, State())
    {
      HistoryIsRun(input, size, trace, history);
      S.Reached(input, size, trace);
    }

    /** Puts a stretch that has ended on record. */
    ghost method Log(a: S.Action)
      requires IsHistory(input, size, trace, history) && State() == S.Step(input, history[|trace|], a)
      requires completed == |stored|
      modifies this`trace, this`history
      ensures Valid() && trace == old(trace) + [a]
    {
      trace, history := trace + [a], history + [State()];
    }

    /** `rows[index++]`; a payload that does not parse ends the worker. */
    method TakeRow(w: nat)
      requires Valid() && w < |workers| && workers[w].Idle?
      modifies this
      ensures Valid() && State() == S.Step(input, old(State()), S.Take(w))
      ensures index == if old(index) < |input.rows| then old(index) + 1 else old(index)
      ensures workers == if old(index) >= |input.rows| then old(workers)
                         else if input.rows[old(index)] == None then old(workers)[w := S.Failed(old(index), [])]
                         else old(workers)[w := S.Working(old(index), [])]
      ensures cache == old(cache) && counts == old(counts) && stored == old(stored) && completed == old(completed)
    {
      if index < |input.rows| {
        var row := index;
        index := index + 1;
        workers := workers[w := if input.rows[row].Some? then S.Working(row, []) else S.Failed(row, [])];
      }
      Log(S.Take(w));
    }

    /** The key of the service that the worker is at: its name in lower case, its address and its version. */
    function Named(worker: S.Worker): S.Key
      requires !worker.Idle? && S.HasService(input, worker.row, |worker.results|)
    {
      var service := input.rows[worker.row].value[|worker.results|];
      S.Key(input.lower(service.name), service.url, service.version)
    }

    /** Starts a verification only for a key that has no promise yet. */
    method AwaitNext(w: nat) returns (started: bool)
      requires Valid() && w < |workers| && workers[w].Working?
      requires S.HasService(input, workers[w].row, |workers[w].results|)
      modifies this
      ensures Valid() && State() == S.Step(input, old(State()), S.LookUp(w))
      ensures started <==> S.KeyAt(input, old(workers)[w].row, |old(workers)[w].results|) !in old(cache)
      ensures started <==> Named(old(workers)[w]) !in old(cache)
      ensures cache == if started then old(cache)[Named(old(workers)[w]) := S.Pending] else old(cache)
      ensures workers == old(workers)[w := S.Awaiting(old(workers)[w].row, old(workers)[w].results)]
      ensures index == old(index) && counts == old(counts) && stored == old(stored) && completed == old(completed)
    {
      var row, results := workers[w].row, workers[w].results;
      var key := S.KeyOf(input, input.rows[row].value[|results|]);
      started := key !in cache;
      if started {
        cache := cache[key := S.Pending];
        verified := verified + [key];
      }
      workers := workers[w := S.Awaiting(row, results)];
      Log(S.LookUp(w));
    }

    method Settle(key: S.Key, answer: Option<S.Verdict>)
      requires Valid() && key in cache && cache[key].Pending?
      modifies this
      ensures Valid() && State() == S.Step(input, old(State()), S.Settle(key, answer))
      ensures cache == old(cache)[key := if answer == None then S.Rejected else S.Resolved(answer.value)]
      ensures workers == old(workers) && index == old(index) && counts == old(counts) && stored == old(stored)
    {
      cache := cache[key := if answer.Some? then S.Resolved(answer.value) else S.Rejected];
      Log(S.Settle(key, answer));
    }

    predicate HasSettled(key: S.Key)
      reads this
    {
      key in cache && !cache[key].Pending?
    }

    /** The awaited promise has settled: its status is counted, or the worker fails. */
    method CountResult(w: nat)
      requires Valid() && w < |workers| && workers[w].Awaiting?
      requires S.HasService(input, workers[w].row, |workers[w].results|)
      requires HasSettled(S.KeyAt(input, workers[w].row, |workers[w].results|))
      modifies this
      ensures Valid() && State() == S.Step(input, old(State()), S.Receive(w))
      ensures cache == old(cache) && index == old(index) && stored == old(stored) && completed == old(completed)
      ensures var row, results := old(workers)[w].row, old(workers)[w].results;
              var promise := old(cache)[Named(old(workers)[w])];
              if promise == S.Rejected
              then workers == old(workers)[w := S.Failed(row, results)] && counts == old(counts)
              else var v := promise.verdict;
                   workers == old(workers)[w := S.Working(row, results + [
                     S.Outcome(input.rows[row].value[|results|].name, v)])] &&
                   counts == old(counts) + multiset{(v.protocol, v.status)}
    {
      var row, results := workers[w].row, workers[w].results;
      var service := input.rows[row].value[|results|];
      var promise := cache[S.KeyOf(input, service)];
      if promise.Rejected? {
        workers := workers[w := S.Failed(row, results)];
      } else {
        var v := promise.verdict;
        counts := counts + multiset{S.StatusOf(v)};
        log := log + [S.Counted(row, |results|, S.StatusOf(v))];
        workers := workers[w := S.Working(row, results + [S.Outcome(service.name, v)])];
      }
      Log(S.Receive(w));
    }

    lemma HeldRowIsNew(w: nat)
      requires Valid() && w < |workers| && !workers[w].Idle?
      ensures workers[w].row !in stored
    {
      IsReachable();
    }

    /** The insert; `completed` stays the number of rows stored. */
    method StoreRow(w: nat, succeeds: bool)
      requires Valid() && w < |workers| && workers[w].Working? && S.HasRow(input, workers[w].row)
      requires |workers[w].results| == |input.rows[workers[w].row].value|
      modifies this
      ensures Valid() && State() == S.Step(input, old(State()), S.Store(w, succeeds))
      ensures completed == old(completed) + if succeeds then 1 else 0
      ensures cache == old(cache) && index == old(index) && counts == old(counts)
      ensures var row, results := old(workers)[w].row, old(workers)[w].results;
              if succeeds then workers == old(workers)[w := S.Idle] && stored == old(stored)[row := results]
              else workers == old(workers)[w := S.Failed(row, results)] && stored == old(stored)
    {
      var row, results := workers[w].row, workers[w].results;
      HeldRowIsNew(w);
      if succeeds {
        stored := stored[row := results];
        completed := completed + 1;
        workers := workers[w := S.Idle];
      } else {
        workers := workers[w := S.Failed(row, results)];
      }
      Log(S.Store(w, succeeds));
    }
  }
}
