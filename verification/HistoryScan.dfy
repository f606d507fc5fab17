/**
 The restartable scan over job ids, from the newest down to a floor: what each written file
 contains, across interruptions, resumptions and head refreshes.
 */
module HistoryScan {
  import opened Wrappers

  type Wallet = string

  /** One `getJob` result; the wallet is already in lower case. */
  datatype Read = Unread | Job(status: int, wallet: Wallet)

  /** The reads a file rests on, by job id. */
  type Observed = map<nat, Read>

  datatype Entry = Entry(count: nat, jobs: seq<nat>)

  datatype File = File(
    jobCounter: nat, through: nat, targetFloor: nat, scanned: nat, failures: seq<nat>,
    providers: map<Wallet, Entry>)

  datatype Error =
    | InvalidHistoryCap | NoHistoryFile | InvalidHistoryResume | HistoryCoverageGap
    | FullHistoryRequired | HeadRefreshRequiresFreshScan

  const SAMPLES: nat := 20
  const BATCH: nat := 10

  /// What a file must contain

  /** The ids from `hi` down to `lo`. */
  function Range(lo: nat, hi: nat): seq<nat>
    decreases hi
  {
    if hi < lo || hi == 0 then [] else [hi] + Range(lo, hi - 1)
  }

  predicate Counts(seen: Observed, w: Wallet, id: nat) {
    id in seen && seen[id].Job? && (seen[id].status == 2 || seen[id].status == 3) && seen[id].wallet == w
  }

  /** The ids counted for a wallet, in the order of `ids`. */
  function Hits(seen: Observed, w: Wallet, ids: seq<nat>): seq<nat> {
    if ids == [] then []
    else (if Counts(seen, w, ids[0]) then [ids[0]] else []) + Hits(seen, w, ids[1..])
  }

  function Failures(seen: Observed, ids: seq<nat>): seq<nat> {
    if ids == [] then []
    else (if ids[0] in seen && seen[ids[0]].Unread? then [ids[0]] else []) + Failures(seen, ids[1..])
  }

  function Top(ids: seq<nat>): seq<nat> {
    if |ids| <= SAMPLES then ids else ids[..SAMPLES]
  }

  predicate RanksWallet(hits: seq<nat>, providers: map<Wallet, Entry>, w: Wallet) {
    (w in providers <==> hits != []) && (w in providers ==> providers[w] == Entry(|hits|, Top(hits)))
  }

  ghost predicate Ranks(seen: Observed, ids: seq<nat>, providers: map<Wallet, Entry>) {
    forall w: Wallet :: RanksWallet(Hits(seen, w, ids), providers, w)
  }

  ghost predicate Exact(
    seen: Observed, ids: seq<nat>, scanned: nat, failures: seq<nat>, providers: map<Wallet, Entry>)
  {
    scanned + |failures| == |ids| && failures == Failures(seen, ids) && Ranks(seen, ids, providers)
  }

  /** The file rests on exactly one read of every id from its counter down to its cursor, and on no other. */
  ghost predicate FileExact(seen: Observed, f: File) {
    && 1 <= f.through <= f.jobCounter && f.targetFloor < f.through
    && (forall id :: id in seen <==> f.through <= id <= f.jobCounter)
    && Exact(seen, Range(f.through, f.jobCounter), f.scanned, f.failures, f.providers)
  }

  /// Ranges and filters

  lemma {:induction false} RangeMembers(lo: nat, hi: nat)
    requires 1 <= lo
    ensures |Range(lo, hi)| == if hi < lo then 0 else hi - lo + 1
    ensures forall k :: 0 <= k < |Range(lo, hi)| ==> Range(lo, hi)[k] == hi - k
    decreases hi
  {
    if hi >= lo {
      RangeMembers(lo, hi - 1);
    }
  }

  lemma RangeConcat(lo: nat, mid: nat, hi: nat)
    requires 1 <= lo <= mid + 1 && mid <= hi
    ensures Range(mid + 1, hi) + Range(lo, mid) == Range(lo, hi)
  {
    RangeMembers(mid + 1, hi);
    RangeMembers(lo, mid);
    RangeMembers(lo, hi);
  }

  lemma RangeAround(lo: nat, id: nat, hi: nat)
    requires 1 <= lo <= id <= hi
    ensures Range(lo, hi) == Range(id + 1, hi) + [id] + Range(lo, id - 1)
  {
    RangeConcat(lo, id, hi);
    assert Range(lo, id) == [id] + Range(lo, id - 1);
  }

  lemma {:induction false} HitsConcat(seen: Observed, w: Wallet, xs: seq<nat>, ys: seq<nat>)
    ensures Hits(seen, w, xs + ys) == Hits(seen, w, xs) + Hits(seen, w, ys)
    decreases |xs|
  {
    if xs == [] {
      assert xs + ys == ys;
    } else {
      assert (xs + ys)[1..] == xs[1..] + ys;
      HitsConcat(seen, w, xs[1..], ys);
    }
  }

  lemma {:induction false} FailuresConcat(seen: Observed, xs: seq<nat>, ys: seq<nat>)
    ensures Failures(seen, xs + ys) == Failures(seen, xs) + Failures(seen, ys)
    decreases |xs|
  {
    if xs == [] {
      assert xs + ys == ys;
    } else {
      assert (xs + ys)[1..] == xs[1..] + ys;
      FailuresConcat(seen, xs[1..], ys);
    }
  }

  /** A read of another id changes nothing. */
  lemma {:induction false} FilterFrame(seen: Observed, w: Wallet, ids: seq<nat>, x: nat, read: Read)
    requires x !in ids
    ensures Hits(seen[x := read], w, ids) == Hits(seen, w, ids)
    ensures Failures(seen[x := read], ids) == Failures(seen, ids)
    decreases |ids|
  {
    if ids != [] {
      FilterFrame(seen, w, ids[1..], x, read);
    }
  }

  lemma HitsOne(seen: Observed, w: Wallet, x: nat)
    ensures Hits(seen, w, [x]) == if Counts(seen, w, x) then [x] else []
    ensures Failures(seen, [x]) == if x in seen && seen[x].Unread? then [x] else []
  {
    assert [x][1..] == [];
  }

  /** Reading `x` between the ids before and the ids after it. */
  lemma HitsInsert(seen: Observed, w: Wallet, before: seq<nat>, x: nat, read: Read, after: seq<nat>)
    requires x !in before && x !in after
    ensures var now := seen[x := read];
            Hits(now, w, before + [x] + after)
            == Hits(seen, w, before) + (if Counts(now, w, x) then [x] else []) + Hits(seen, w, after)
    ensures Failures(seen[x := read], before + [x] + after)
         == Failures(seen, before) + (if read.Unread? then [x] else []) + Failures(seen, after)
  {
    var now := seen[x := read];
    FilterFrame(seen, w, before, x, read);
    FilterFrame(seen, w, after, x, read);
    HitsOne(now, w, x);
    HitsConcat(now, w, before + [x], after);
    HitsConcat(now, w, before, [x]);
    FailuresConcat(now, before + [x], after);
    FailuresConcat(now, before, [x]);
  }

  predicate Descending(s: seq<nat>) {
    forall i, j :: 0 <= i < j < |s| ==> s[i] > s[j]
  }

  lemma {:induction false} HitsAmong(seen: Observed, w: Wallet, ids: seq<nat>)
    ensures forall x :: x in Hits(seen, w, ids) <==> x in ids && Counts(seen, w, x)
    decreases |ids|
  {
    if ids != [] {
      HitsAmong(seen, w, ids[1..]);
      assert ids == [ids[0]] + ids[1..];
    }
  }

  lemma {:induction false} HitsDescend(seen: Observed, w: Wallet, ids: seq<nat>)
    requires Descending(ids)
    ensures Descending(Hits(seen, w, ids))
    decreases |ids|
  {
    if ids != [] {
      var rest := Hits(seen, w, ids[1..]);
      HitsDescend(seen, w, ids[1..]);
      HitsAmong(seen, w, ids[1..]);
      forall k | 0 <= k < |rest| ensures rest[k] < ids[0] {
        assert rest[k] in rest && rest[k] in ids[1..];
      }
    }
  }

  lemma RangeDescending(lo: nat, hi: nat)
    requires 1 <= lo
    ensures Descending(Range(lo, hi))
    ensures forall x :: x in Range(lo, hi) <==> lo <= x <= hi
  {
    RangeMembers(lo, hi);
    forall x: nat | lo <= x <= hi ensures x in Range(lo, hi) {
      assert Range(lo, hi)[hi - x] == x;
    }
  }

  /// Sorted samples

  /** Insertion before the first smaller id. */
  function Insert(s: seq<nat>, x: nat): seq<nat> {
    if s == [] || s[0] < x then [x] + s else [s[0]] + Insert(s[1..], x)
  }

  /** `sort` by descending id. */
  function SortDescending(s: seq<nat>): seq<nat> {
    if s == [] then [] else Insert(SortDescending(s[..|s| - 1]), s[|s| - 1])
  }

  lemma {:induction false} InsertBetween(xs: seq<nat>, x: nat, ys: seq<nat>)
    requires (forall y :: y in xs ==> y > x) && (ys == [] || ys[0] < x)
    ensures Insert(xs + ys, x) == xs + [x] + ys
    decreases |xs|
  {
    if xs == [] {
      assert xs + ys == ys;
      assert xs + [x] + ys == [x] + ys;
    } else {
      assert (xs + ys)[1..] == xs[1..] + ys;
      assert xs[0] in xs && forall y :: y in xs[1..] ==> y in xs;
      InsertBetween(xs[1..], x, ys);
      assert [xs[0]] + (xs[1..] + [x] + ys) == xs + [x] + ys;
    }
  }

  lemma {:induction false} SortedStays(s: seq<nat>)
    requires Descending(s)
    ensures SortDescending(s) == s
    decreases |s|
  {
    if s != [] {
      var front, last := s[..|s| - 1], s[|s| - 1];
      SortedStays(front);
      InsertBetween(front, last, []);
      assert front + [] == front && front + [last] + [] == s;
    }
  }

  /** A sample of `xs + ys` splits into what it keeps of either; with `x` between them all is in order. */
  lemma SampleParts(xs: seq<nat>, x: nat, ys: seq<nat>, kept: seq<nat>, rest: seq<nat>)
    requires Descending(xs + [x] + ys)
    requires kept == Top(xs) && rest == Top(xs + ys)[|kept|..]
    ensures Top(xs + ys) == kept + rest && Descending(kept + rest)
    ensures (forall y :: y in kept ==> y > x) && (rest == [] || rest[0] < x)
  {
    var all, s := xs + [x] + ys, Top(xs + ys);
    assert s == kept + rest;
    forall i, j | 0 <= i < j < |s| ensures s[i] > s[j] {
      assert s[i] == all[if i < |xs| then i else i + 1] && s[j] == all[if j < |xs| then j else j + 1];
    }
    forall i | 0 <= i < |kept| ensures kept[i] > x {
      assert all[i] == kept[i] && all[|xs|] == x;
    }
    if rest != [] {
      assert rest[0] == s[|kept|] == all[|xs| + 1] && all[|xs|] == x;
    }
  }

  lemma SampleCut(xs: seq<nat>, x: nat, ys: seq<nat>, kept: seq<nat>, rest: seq<nat>)
    requires kept == Top(xs) && rest == Top(xs + ys)[|kept|..]
    ensures Top(kept + [x] + rest) == Top(xs + [x] + ys)
  {
  }

  /** Pushing, sorting and cutting the samples inserts the new id where it belongs. */
  lemma SortedSample(xs: seq<nat>, x: nat, ys: seq<nat>)
    requires Descending(xs + [x] + ys)
    ensures Top(SortDescending(Top(xs + ys) + [x])) == Top(xs + [x] + ys)
  {
    var s, kept := Top(xs + ys), Top(xs);
    var rest := s[|kept|..];
    SampleParts(xs, x, ys, kept, rest);
    SortedStays(s);
    assert (s + [x])[..|s|] == s;
    InsertBetween(kept, x, rest);
    SampleCut(xs, x, ys, kept, rest);
  }

  lemma PushedSample(hits: seq<nat>, x: nat)
    ensures Top(hits + [x]) == if |Top(hits)| < SAMPLES then Top(hits) + [x] else Top(hits)
  {
  }

  /// The scan

  function Cap(limit: int): nat {
    if limit < 1 then 1 else if limit > 60000 then 60000 else limit
  }

  function Floor(top: nat, cap: nat): nat {
    if top > cap then top - cap else 0
  }

  class History {
    var disk: Option<File>
    /** The reads the file on disk rests on. */
    ghost var observed: Observed

    ghost predicate Valid()
      reads this
    {
      disk.Some? ==> FileExact(observed, disk.value)
    }

    constructor ()
      ensures Valid() && disk.None?
    {
      disk := None;
      observed := map[];
    }

    /** One result of a batch; `after` is the history below a refreshed head. */
    static method Record(ghost seen: Observed, ghost before: seq<nat>, ghost after: seq<nat>, id: nat, read: Read,
                         refreshHead: bool, scanned: nat, failures: seq<nat>, providers: map<Wallet, Entry>)
        returns (scanned': nat, failures': seq<nat>, providers': map<Wallet, Entry>)
      requires Descending(before + [id] + after)
      requires Exact(seen, before + after, scanned, failures, providers)
      requires if refreshHead then Failures(seen, after) == [] else after == []
      ensures Exact(seen[id := read], before + [id] + after, scanned', failures', providers')
    {
      scanned', failures', providers' := scanned, failures, providers;
      RecordRest(seen, before, after, id, read);
      if read.Unread? {
        failures' := failures + [id];
        RecordUncounted(seen, before, after, id, read, providers);
        return;
      }
      scanned' := scanned + 1;
      if read.status != 2 && read.status != 3 {
        RecordUncounted(seen, before, after, id, read, providers);
        return;
      }
      var entry := if read.wallet in providers then providers[read.wallet] else Entry(0, []);
      var jobs := if refreshHead then Top(SortDescending(entry.jobs + [id]))
                  else if |entry.jobs| < SAMPLES then entry.jobs + [id] else entry.jobs;
      providers' := providers[read.wallet := Entry(entry.count + 1, jobs)];
      RecordCounted(seen, before, after, id, read, refreshHead, providers);
    }

    static lemma RecordRest(seen: Observed, before: seq<nat>, after: seq<nat>, id: nat, read: Read)
      requires Descending(before + [id] + after)
      ensures id !in before && id !in after
      ensures Failures(seen[id := read], before + [id] + after)
           == Failures(seen, before) + (if read.Unread? then [id] else []) + Failures(seen, after)
      ensures Failures(seen, before + after) == Failures(seen, before) + Failures(seen, after)
    {
      NotAround(before, id, after);
      HitsInsert(seen, "", before, id, read, after);
      FailuresConcat(seen, before, after);
    }

    static lemma NotAround(before: seq<nat>, id: nat, after: seq<nat>)
      requires Descending(before + [id] + after)
      ensures id !in before && id !in after
    {
      var all := before + [id] + after;
      forall i | 0 <= i < |before| ensures before[i] != id {
        assert all[i] > all[|before|];
      }
      forall j | 0 <= j < |after| ensures after[j] != id {
        assert all[|before|] > all[|before| + 1 + j];
      }
    }

    static lemma RecordUncounted(seen: Observed, before: seq<nat>, after: seq<nat>, id: nat, read: Read,
                                 providers: map<Wallet, Entry>)
      requires Descending(before + [id] + after) && Ranks(seen, before + after, providers)
      requires read.Unread? || (read.status != 2 && read.status != 3)
      ensures Ranks(seen[id := read], before + [id] + after, providers)
    {
      var now, ids := seen[id := read], before + [id] + after;
      forall w: Wallet ensures RanksWallet(Hits(now, w, ids), providers, w) {
        UncountedHits(seen, w, before, after, id, read);
        assert RanksWallet(Hits(seen, w, before + after), providers, w);
      }
    }

    static lemma UncountedHits(seen: Observed, w: Wallet, before: seq<nat>, after: seq<nat>, id: nat, read: Read)
      requires Descending(before + [id] + after) && !Counts(seen[id := read], w, id)
      ensures Hits(seen[id := read], w, before + [id] + after) == Hits(seen, w, before + after)
    {
      NotAround(before, id, after);
      HitsInsert(seen, w, before, id, read, after);
      HitsConcat(seen, w, before, after);
      assert Hits(seen, w, before) + [] + Hits(seen, w, after) == Hits(seen, w, before) + Hits(seen, w, after);
    }

    static function NewEntry(entry: Entry, id: nat, refreshHead: bool): Entry {
      Entry(entry.count + 1,
            if refreshHead then Top(SortDescending(entry.jobs + [id]))
            else if |entry.jobs| < SAMPLES then entry.jobs + [id] else entry.jobs)
    }

    static lemma CountedEntry(seen: Observed, before: seq<nat>, after: seq<nat>, id: nat, read: Read, refreshHead: bool)
      requires Descending(before + [id] + after) && (!refreshHead ==> after == [])
      requires read.Job? && (read.status == 2 || read.status == 3)
      ensures var w := read.wallet;
              var hits, now := Hits(seen, w, before + after), Hits(seen[id := read], w, before + [id] + after);
              now != [] && NewEntry(Entry(|hits|, Top(hits)), id, refreshHead) == Entry(|now|, Top(now))
    {
      var w := read.wallet;
      NotAround(before, id, after);
      HitsInsert(seen, w, before, id, read, after);
      HitsConcat(seen, w, before, after);
      var xs, ys := Hits(seen, w, before), Hits(seen, w, after);
      if refreshHead {
        HitsDescend(seen[id := read], w, before + [id] + after);
        SortedSample(xs, id, ys);
      } else {
        assert xs + ys == xs && xs + [id] + ys == xs + [id];
        PushedSample(xs, id);
      }
    }

    static lemma RecordCounted(seen: Observed, before: seq<nat>, after: seq<nat>, id: nat, read: Read,
                               refreshHead: bool, providers: map<Wallet, Entry>)
      requires Descending(before + [id] + after) && (!refreshHead ==> after == [])
      requires Ranks(seen, before + after, providers)
      requires read.Job? && (read.status == 2 || read.status == 3)
      ensures var entry := if read.wallet in providers then providers[read.wallet] else Entry(0, []);
              Ranks(seen[id := read], before + [id] + after,
                    providers[read.wallet := NewEntry(entry, id, refreshHead)])
    {
      var entry := if read.wallet in providers then providers[read.wallet] else Entry(0, []);
      var providers' := providers[read.wallet := NewEntry(entry, id, refreshHead)];
      var now, ids := seen[id := read], before + [id] + after;
      forall w: Wallet ensures RanksWallet(Hits(now, w, ids), providers', w) {
        assert RanksWallet(Hits(seen, w, before + after), providers, w);
        if w == read.wallet {
          CountedEntry(seen, before, after, id, read, refreshHead);
        } else {
          UncountedHits(seen, w, before, after, id, read);
        }
      }
    }

    /** The ids of one batch, read and recorded in memory; the file is not touched. */
    static method ReadBatch(ghost seen: Observed, ghost before: seq<nat>, ghost after: seq<nat>, end: nat, size: nat,
                            chain: nat -> Read, refreshHead: bool, scanned: nat, failures: seq<nat>,
                            providers: map<Wallet, Entry>)
        returns (ghost seen': Observed, scanned': nat, failures': seq<nat>, providers': map<Wallet, Entry>)
      requires size <= end && Descending(before + Range(end - size + 1, end) + after)
      requires Exact(seen, before + after, scanned, failures, providers)
      requires if refreshHead then Failures(seen, after) == [] else after == []
      ensures Exact(seen', before + Range(end - size + 1, end) + after, scanned', failures', providers')
      ensures forall id :: id in seen' <==> id in seen || end - size < id <= end
      ensures forall id :: id in seen' ==> seen'[id] == if end - size < id <= end then chain(id) else seen[id]
    {
      seen', scanned', failures', providers' := seen, scanned, failures, providers;
      assert before + Range(end + 1, end) == before;
      for i := 0 to size
        invariant Exact(seen', before + Range(end - i + 1, end) + after, scanned', failures', providers')
        invariant refreshHead ==> Failures(seen', after) == []
        invariant forall id :: id in seen' <==> id in seen || end - i < id <= end
        invariant forall id :: id in seen' ==> seen'[id] == if end - i < id <= end then chain(id) else seen[id]
      {
        var read := chain(end - i);
        scanned', failures', providers' :=
          ReadNext(seen', before, after, end, size, i, read, refreshHead, scanned', failures', providers');
        seen' := seen'[end - i := read];
      }
    }

    /** One more id of a batch. */
    static method ReadNext(ghost seen: Observed, ghost before: seq<nat>, ghost after: seq<nat>, end: nat,
                           ghost size: nat, i: nat, read: Read, refreshHead: bool, scanned: nat,
                           failures: seq<nat>, providers: map<Wallet, Entry>)
        returns (scanned': nat, failures': seq<nat>, providers': map<Wallet, Entry>)
      requires i < size <= end && Descending(before + Range(end - size + 1, end) + after)
      requires Exact(seen, before + Range(end - i + 1, end) + after, scanned, failures, providers)
      requires if refreshHead then Failures(seen, after) == [] else after == []
      ensures Exact(seen[end - i := read], before + Range(end - i, end) + after, scanned', failures', providers')
      ensures Failures(seen[end - i := read], after) == Failures(seen, after)
    {
      ghost var done := before + Range(end - i + 1, end);
      BatchStep(seen, before, end, size, i, after, read);
      scanned', failures', providers' :=
        Record(seen, done, after, end - i, read, refreshHead, scanned, failures, providers);
    }

    /** The next id of a batch fits in where it is put. */
    static lemma BatchStep(seen: Observed, before: seq<nat>, end: nat, size: nat, i: nat, after: seq<nat>, read: Read)
      requires i < size <= end && Descending(before + Range(end - size + 1, end) + after)
      ensures var id, done := end - i, before + Range(end - i + 1, end);
              && Descending(done + [id] + after)
              && done + [id] == before + Range(end - i, end)
              && Failures(seen[id := read], after) == Failures(seen, after)
    {
      var id, done := end - i, before + Range(end - i + 1, end);
      BatchOrder(before, end, size, i, after);
      NotAround(done, id, after);
      FilterFrame(seen, "", after, id, read);
      RangeConcat(id, id, end);
      assert Range(id, id) == [id];
      assert done + [id] == before + (Range(id + 1, end) + [id]);
    }

    /** A prefix of the batch leaves the ids in descending order. */
    static lemma BatchOrder(before: seq<nat>, end: nat, size: nat, i: nat, after: seq<nat>)
      requires i < size <= end && Descending(before + Range(end - size + 1, end) + after)
      ensures Descending(before + Range(end - i + 1, end) + [end - i] + after)
    {
      RangeAround(end - size + 1, end - i, end);
      DropMiddle(before, Range(end - i + 1, end), end - i, Range(end - size + 1, end - i - 1), after);
    }

    static lemma DropMiddle(before: seq<nat>, high: seq<nat>, id: nat, low: seq<nat>, after: seq<nat>)
      requires Descending(before + (high + [id] + low) + after)
      ensures Descending(before + high + [id] + after)
    {
      var all, part := before + (high + [id] + low) + after, before + high + [id] + after;
      var cut := |before| + |high| + 1;
      forall a, b | 0 <= a < b < |part| ensures part[a] > part[b] {
        assert part[a] == all[if a < cut then a else a + |low|];
        assert part[b] == all[if b < cut then b else b + |low|];
      }
    }

    /// One run of the program

    static lemma WholeRange(end: nat, size: nat, top: nat, bottom: nat)
      requires size <= end <= top && bottom <= end - size
      ensures Range(end + 1, top) + Range(end - size + 1, end) == Range(end - size + 1, top)
      ensures Descending(Range(end + 1, top) + Range(end - size + 1, end) + Range(1, bottom))
      ensures bottom == end - size ==> Range(end - size + 1, top) + Range(1, bottom) == Range(1, top)
    {
      RangeConcat(end - size + 1, end, top);
      RangeMembers(end - size + 1, top);
      RangeMembers(1, bottom);
      if bottom == end - size {
        RangeConcat(1, bottom, top);
      }
    }

    /** The file after a batch that ended above `cursor`. */
    method Publish(ghost seen: Observed, cursor: nat, top: nat, floor: nat, refreshHead: bool, scanned: nat,
                   failures: seq<nat>, providers: map<Wallet, Entry>)
      requires floor <= cursor < top && (refreshHead ==> cursor == floor)
      requires var low := if refreshHead then 1 else cursor + 1;
               && Exact(seen, Range(low, top), scanned, failures, providers)
               && forall id :: id in seen <==> low <= id <= top
      modifies this
      ensures disk.Some? && observed == seen && FileExact(seen, disk.value)
      ensures disk.value.jobCounter == top && disk.value.through == (if refreshHead then 1 else cursor + 1)
      ensures disk.value.targetFloor == if refreshHead then 0 else floor
    {
      disk := Some(File(top, if refreshHead then 1 else cursor + 1, if refreshHead then 0 else floor, scanned,
                        failures, providers));
      observed := seen;
    }

    /** The coverage equation of a resumed file. */
    static predicate Covered(f: File) {
      f.scanned + |f.failures| == f.jobCounter - f.through + 1
    }

    /** What a run leaves behind once it has committed a batch. */
    ghost predicate Committed(seen: Observed, top: nat, chain: nat -> Read)
      reads this
    {
      && disk.Some? && FileExact(observed, disk.value) && disk.value.jobCounter == top
      && (forall id :: id in seen ==> id in observed && observed[id] == seen[id])
      && (forall id :: id in observed && id !in seen ==> observed[id] == chain(id))
    }

    /**
     One run, interrupted after `batches` batches.  A file that passes the coverage check is
     taken to be one that this program wrote.  Every file written rests on the reads of the file
     it resumed, kept, and on one new read of every other id it covers; a run that is not
     interrupted ends exactly at its floor.
     */
    method Scan(counter: nat, limit: Option<int>, resume: bool, refreshHead: bool, batches: nat, chain: nat -> Read)
        returns (r: Result<bool, Error>, written: nat)
      requires disk.Some? && Covered(disk.value) ==> FileExact(observed, disk.value)
      modifies this
      ensures disk.Some? && Covered(disk.value) ==> FileExact(observed, disk.value)
      ensures r.Failure? ==> written == 0
      ensures r.Failure? <==>
                || limit.None?
                || (resume && (old(disk).None? || old(disk).value.jobCounter > counter || !Covered(old(disk).value)))
                || (refreshHead &&
                    (!resume || old(disk).value.through != 1 || old(disk).value.targetFloor != 0 ||
                     old(disk).value.failures != [] || counter - old(disk).value.jobCounter > 10))
      ensures r.Failure? ==> disk == old(disk)
      ensures r == Failure(InvalidHistoryCap) <==> limit.None?
      ensures r == Failure(NoHistoryFile) <==> limit.Some? && resume && old(disk).None?
      ensures r == Failure(InvalidHistoryResume) <==>
                limit.Some? && resume && old(disk).Some? && old(disk).value.jobCounter > counter
      ensures r == Failure(HistoryCoverageGap) <==>
                limit.Some? && resume && old(disk).Some? && old(disk).value.jobCounter <= counter &&
                old(disk).value.scanned + |old(disk).value.failures|
                != old(disk).value.jobCounter - old(disk).value.through + 1
      ensures r == Failure(HeadRefreshRequiresFreshScan) ==>
                refreshHead && resume && old(disk).Some? && counter - old(disk).value.jobCounter > 10 &&
                old(disk).value.through == 1
      ensures written > 0 ==>
                limit.Some? && disk.Some? && (resume ==> old(disk).Some?) &&
                disk.value.targetFloor ==
                if refreshHead then 0
                else var top := if resume then old(disk).value.jobCounter else counter;
                     var cap := if limit.value < 1 then 1 else if limit.value > 60000 then 60000 else limit.value;
                     if top > cap then top - cap else 0
      ensures r.Success? && batches > counter ==> r == Success(true)
      ensures written == 0 ==> disk == old(disk) && observed == old(observed)
      ensures written > 0 ==>
                (resume ==> old(disk).Some?) &&
                Committed(if resume then old(observed) else map[],
                          if resume && !refreshHead then old(disk).value.jobCounter else counter, chain)
      ensures r == Success(true) ==>
                (resume ==> old(disk).Some?) && limit.Some? &&
                var top := if resume && !refreshHead then old(disk).value.jobCounter else counter;
                var low := if refreshHead then 1 else Floor(top, Cap(limit.value)) + 1;
                if written > 0 then disk.value.through == low
                else if resume then disk.value.jobCounter == top && disk.value.through <= low
                else counter == 0
    {
      written := 0;
      if limit.None? {
        return Failure(InvalidHistoryCap), 0;
      }
      if resume && disk.None? {
        return Failure(NoHistoryFile), 0;
      }
      var file := if resume then disk.value else File(counter, counter + 1, 0, 0, [], map[]);
      if resume && file.jobCounter > counter {
        return Failure(InvalidHistoryResume), 0;
      }
      if resume && !Covered(file) {
        return Failure(HistoryCoverageGap), 0;
      }
      if refreshHead && (!resume || file.through != 1 || file.targetFloor != 0 || file.failures != []) {
        return Failure(FullHistoryRequired), 0;
      }
      if refreshHead && counter - file.jobCounter > BATCH {
        return Failure(HeadRefreshRequiresFreshScan), 0;
      }
      FreshFile(counter);
      var complete: bool;
      if refreshHead {
        complete, written := RefreshHead(file, counter, batches, chain);
      } else {
        complete, written := Descend(file, if resume then observed else map[], Cap(limit.value), batches, chain);
      }
      r := Success(complete);
    }

    /** A scan that starts from nothing starts from the empty range above its counter. */
    static lemma FreshFile(counter: nat)
      ensures Exact(map[], Range(counter + 1, counter), 0, [], map[])
    {
      assert Range(counter + 1, counter) == [];
    }

    /** The batches of a first or resumed scan, downwards from the cursor. */
    method Descend(file: File, ghost seen0: Observed, cap: nat, batches: nat, chain: nat -> Read)
        returns (complete: bool, written: nat)
      requires 1 <= cap && 1 <= file.through <= file.jobCounter + 1
      requires Exact(seen0, Range(file.through, file.jobCounter), file.scanned, file.failures, file.providers)
      requires forall id :: id in seen0 <==> file.through <= id <= file.jobCounter
      modifies this
      ensures written == 0 ==> disk == old(disk) && observed == old(observed)
      ensures written > 0 ==> Committed(seen0, file.jobCounter, chain)
      ensures complete && written > 0 ==> disk.value.through == Floor(file.jobCounter, cap) + 1
      ensures complete && written == 0 ==> file.through <= Floor(file.jobCounter, cap) + 1
      ensures written > 0 ==> disk.value.targetFloor == Floor(file.jobCounter, cap)
      ensures batches >= file.jobCounter ==> complete
    {
      var top, floor := file.jobCounter, Floor(file.jobCounter, cap);
      var scanned, failures, providers := file.scanned, file.failures, file.providers;
      var end: nat := file.through - 1;
      ghost var seen := seen0;
      written := 0;
      assert Range(end + 1, top) == Range(file.through, top);
      while end > floor && written < batches
        invariant end <= top && Exact(seen, Range(end + 1, top), scanned, failures, providers)
        invariant forall id :: id in seen <==> end < id <= top
        invariant forall id :: id in seen ==> if id in seen0 then seen[id] == seen0[id] else seen[id] == chain(id)
        invariant end + written <= file.through - 1
        invariant written == 0 ==> disk == old(disk) && observed == old(observed) && end == file.through - 1
        invariant written > 0 ==>
                    floor <= end && disk.Some? && FileExact(observed, disk.value) && observed == seen &&
                    disk.value.jobCounter == top && disk.value.through == end + 1 && disk.value.targetFloor == floor
        decreases end
      {
        var size := if end - floor > BATCH then BATCH else end - floor;
        ghost var before := Range(end + 1, top);
        DescendStep(end, size, top);
        seen, scanned, failures, providers :=
          ReadBatch(seen, before, [], end, size, chain, false, scanned, failures, providers);
        end := end - size;
        Publish(seen, end, top, floor, false, scanned, failures, providers);
        written := written + 1;
      }
      complete := end <= floor;
    }

    static lemma DescendStep(end: nat, size: nat, top: nat)
      requires size <= end <= top
      ensures var before, batch := Range(end + 1, top), Range(end - size + 1, end);
              before + [] == before && before + batch + [] == Range(end - size + 1, top) &&
              Descending(before + batch + [])
    {
      WholeRange(end, size, top, 0);
    }

    /** The single batch of a head refresh, above a finished history. */
    method RefreshHead(file: File, counter: nat, batches: nat, chain: nat -> Read)
        returns (complete: bool, written: nat)
      requires FileExact(observed, file) && file.through == 1 && file.targetFloor == 0 && file.failures == []
      requires file.jobCounter <= counter <= file.jobCounter + BATCH
      modifies this
      ensures written == 0 ==> disk == old(disk) && observed == old(observed)
      ensures written > 0 ==>
                Committed(old(observed), counter, chain) && disk.value.through == 1 && disk.value.targetFloor == 0
      ensures complete && written == 0 ==> counter == file.jobCounter
      ensures batches >= 1 ==> complete
    {
      written := 0;
      if counter == file.jobCounter || batches == 0 {
        return counter == file.jobCounter, 0;
      }
      var size := counter - file.jobCounter;
      ghost var before, after := Range(counter + 1, counter), Range(1, file.jobCounter);
      assert before == [] && [] + after == after;
      WholeRange(counter, size, counter, file.jobCounter);
      ghost var seen;
      var scanned, failures, providers;
      seen, scanned, failures, providers :=
        ReadBatch(observed, before, after, counter, size, chain, true, file.scanned, file.failures, file.providers);
      Publish(seen, file.jobCounter, counter, file.jobCounter, true, scanned, failures, providers);
      return true, 1;
    }
  }

  /// What the files say

  lemma {:induction false} FiltersAgree(a: Observed, b: Observed, w: Wallet, ids: seq<nat>)
    requires forall id :: id in ids ==> id in a && id in b && a[id] == b[id]
    ensures Hits(a, w, ids) == Hits(b, w, ids) && Failures(a, ids) == Failures(b, ids)
    decreases |ids|
  {
    if ids != [] {
      assert ids[0] in ids && forall id :: id in ids[1..] ==> id in ids;
      FiltersAgree(a, b, w, ids[1..]);
    }
  }

  /**
   With stable reads the file is determined by its range: however often a scan was interrupted,
   resumed or refreshed, it holds what one uninterrupted scan of that range holds.
   */
  lemma InterruptionsDoNotMatter(a: Observed, f: File, b: Observed, g: File)
    requires FileExact(a, f) && FileExact(b, g) && f.jobCounter == g.jobCounter && f.through == g.through
    requires forall id :: id in a && id in b ==> a[id] == b[id]
    ensures f.scanned == g.scanned && f.failures == g.failures && f.providers == g.providers
  {
    var ids := Range(f.through, f.jobCounter);
    RangeDescending(f.through, f.jobCounter);
    FiltersAgree(a, b, "", ids);
    forall w: Wallet
      ensures (w in f.providers <==> w in g.providers) && (w in f.providers ==> f.providers[w] == g.providers[w])
    {
      FiltersAgree(a, b, w, ids);
      assert RanksWallet(Hits(a, w, ids), f.providers, w) && RanksWallet(Hits(b, w, ids), g.providers, w);
    }
  }

  /// Whole histories of runs

  /** One run of the program: its settings, the counter it finds, and where it is interrupted. */
  datatype Request = Request(counter: nat, limit: Option<int>, resume: bool, refreshHead: bool, batches: nat)

  /** The file rests on the reads of one stable chain. */
  ghost predicate RestsOn(chain: nat -> Read, seen: Observed, f: File) {
    FileExact(seen, f) && forall id :: id in seen ==> seen[id] == chain(id)
  }

  /**
   Any sequence of runs over one stable chain: first scans, resumptions and head refreshes, each
   refused, interrupted anywhere or finished.  Whatever they leave rests on that chain.
   */
  method ScanRepeatedly(h: History, requests: seq<Request>, chain: nat -> Read)
    requires h.disk.Some? ==> RestsOn(chain, h.observed, h.disk.value)
    modifies h
    ensures h.disk.Some? ==> RestsOn(chain, h.observed, h.disk.value)
  {
    for i := 0 to |requests|
      invariant h.disk.Some? ==> RestsOn(chain, h.observed, h.disk.value)
    {
      var q := requests[i];
      ghost var before := h.observed;
      var r, written := h.Scan(q.counter, q.limit, q.resume, q.refreshHead, q.batches, chain);
    }
  }

  /**
   And it is what one uninterrupted scan of the same range writes: a program that starts afresh
   at the same counter, with a limit that reaches down to the same id, ends with the same file.
   */
  method AgreesWithOneScan(requests: seq<Request>, chain: nat -> Read, limit: int)
      returns (h: History, once: History)
    ensures h.disk.Some? && once.disk.Some?
            && h.disk.value.through == Floor(h.disk.value.jobCounter, Cap(limit)) + 1 ==>
              var f, g := h.disk.value, once.disk.value;
              f.jobCounter == g.jobCounter && f.through == g.through && f.scanned == g.scanned &&
              f.failures == g.failures && f.providers == g.providers
    ensures h.disk.Some? ==> once.disk.Some?
  {
    h := new History();
    ScanRepeatedly(h, requests, chain);
    once := new History();
    if h.disk.Some? {
      var counter := h.disk.value.jobCounter;
      var r, written := once.Scan(counter, Some(limit), false, false, counter + 1, chain);
      if h.disk.value.through == once.disk.value.through {
        InterruptionsDoNotMatter(h.observed, h.disk.value, once.observed, once.disk.value);
      }
    }
  }

  /** The ids in a file's range that count for a wallet. */
  ghost function Counted(seen: Observed, f: File, w: Wallet): set<nat> {
    set id | id in seen && f.through <= id <= f.jobCounter && seen[id].Job? && seen[id].status in {2, 3} &&
             seen[id].wallet == w
  }

  /**
   Every file covers its range exactly, and for every wallet it holds the number of its counted
   jobs and up to twenty of them: the highest ids, in descending order.
   */
  lemma SamplesAreHighest(seen: Observed, f: File, w: Wallet)
    requires FileExact(seen, f)
    ensures f.scanned + |f.failures| == f.jobCounter - f.through + 1
    ensures Descending(f.failures)
    ensures forall id :: id in f.failures <==> f.through <= id <= f.jobCounter && id in seen && seen[id].Unread?
    ensures w in f.providers <==> Counted(seen, f, w) != {}
    ensures w in f.providers ==>
              var Entry(count, jobs) := f.providers[w];
              && count == |Counted(seen, f, w)| && |jobs| == (if count < 20 then count else 20)
              && Descending(jobs)
              && (forall id :: id in jobs ==> id in Counted(seen, f, w))
              && (forall id, low :: id in Counted(seen, f, w) && id !in jobs && low in jobs ==> id < low)
  {
    var ids := Range(f.through, f.jobCounter);
    RangeMembers(f.through, f.jobCounter);
    RangeDescending(f.through, f.jobCounter);
    HitsAmong(seen, w, ids);
    HitsDescend(seen, w, ids);
    FailuresAre(seen, ids);
    var hits := Hits(seen, w, ids);
    assert forall id :: id in hits <==> id in Counted(seen, f, w);
    DescendingCard(hits, Counted(seen, f, w));
    assert RanksWallet(hits, f.providers, w);
    if w in f.providers {
      TopIsHighest(hits);
    }
    if hits != [] {
      assert hits[0] in Counted(seen, f, w);
    }
  }

  lemma {:induction false} FailuresAre(seen: Observed, ids: seq<nat>)
    requires Descending(ids)
    ensures Descending(Failures(seen, ids))
    ensures forall id :: id in Failures(seen, ids) <==> id in ids && id in seen && seen[id].Unread?
    decreases |ids|
  {
    if ids != [] {
      var rest := Failures(seen, ids[1..]);
      assert ids == [ids[0]] + ids[1..];
      FailuresAre(seen, ids[1..]);
      forall i | 0 <= i < |rest| ensures ids[0] > rest[i] {
        assert rest[i] in ids[1..];
      }
    }
  }

  lemma {:induction false} DescendingCard(s: seq<nat>, ids: set<nat>)
    requires Descending(s) && forall id :: id in s <==> id in ids
    ensures |s| == |ids|
    decreases |s|
  {
    if s == [] {
      assert ids == {};
    } else {
      assert s == [s[0]] + s[1..];
      assert s[0] !in s[1..];
      DescendingCard(s[1..], ids - {s[0]});
    }
  }

  lemma TopIsHighest(hits: seq<nat>)
    requires Descending(hits)
    ensures Descending(Top(hits))
    ensures forall id :: id in Top(hits) ==> id in hits
    ensures forall id, low :: id in hits && id !in Top(hits) && low in Top(hits) ==> id < low
  {
    var top := Top(hits);
    forall id, low | id in hits && id !in top && low in top ensures id < low {
      var i :| 0 <= i < |hits| && hits[i] == id;
      var j :| 0 <= j < |top| && top[j] == low;
      assert i >= |top|;
      assert hits[j] == low;
    }
  }
}
