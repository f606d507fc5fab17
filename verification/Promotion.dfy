/**
 Crash-safe promotion of a release.  Every file operation and every command may succeed,
 raise (a failure or a signal, before or after taking effect) or be the last thing that
 happens before the machine stops.  What a crashed call leaves behind is what the next
 deployment finds.
 */
module Promotion {
  import opened Wrappers

  type Sha = string

  /** A drop-in written for a release, or one that was there before. */
  datatype Content = Release(sha: Sha) | Foreign(text: string)

  type Dropin = Option<Content>

  datatype Fate = Succeeds | Raises(applied: bool) | Crashes(applied: bool)

  datatype Outcome = Done | Raised | Crashed

  function Ends(f: Fate): Outcome {
    match f
    case Succeeds => Done
    case Raises(_) => Raised
    case Crashes(_) => Crashed
  }

  predicate TakesEffect(f: Fate) {
    f.Succeeds? || f.applied
  }

  class Host {
    /** How each step ends, and the order in which a directory listing by age comes out. */
    const fates: nat -> Fate
    const byAge: set<Sha> -> seq<Sha>
    var clock: nat

    var dropin: Dropin
    var journal: Option<Dropin>
    var current: Option<Sha>
    var releases: set<Sha>
    /** What systemd has read, and what the service runs. */
    var loaded: Dropin
    var running: Dropin

    ghost const initial: Dropin
    ghost var verified: set<Content>

    /** The drop-in there was at first, or one that passed its health check. */
    ghost predicate Good(d: Dropin)
      reads this
    {
      d == initial || (d.Some? && d.value in verified)
    }

    predicate OnDisk(d: Dropin)
      reads this
    {
      d.Some? && d.value.Release? ==> d.value.sha in releases
    }

    /**
     Between deployments, however the last one ended: without a journal the drop-in is good,
     with one the journal names a good one; the current file names a verified release; and no
     drop-in that is live or may be restored lacks its release directory.
     */
    ghost predicate Valid()
      reads this
    {
      && (journal.None? ==> Good(dropin))
      && (journal.Some? ==> Good(journal.value) && OnDisk(journal.value))
      && (current.Some? ==> Release(current.value) in verified)
      && OnDisk(dropin)
      && (forall s, x :: x in byAge(s) <==> x in s)
    }

    constructor (dropin: Dropin, releases: set<Sha>, fates: nat -> Fate, byAge: set<Sha> -> seq<Sha>)
      requires dropin.Some? && dropin.value.Release? ==> dropin.value.sha in releases
      requires forall s, x :: x in byAge(s) <==> x in s
      ensures Valid() && this.dropin == initial == running == dropin && journal.None? && current.None?
      ensures this.releases == releases && this.fates == fates && this.byAge == byAge && clock == 0
    {
      this.fates, this.byAge, clock := fates, byAge, 0;
      this.dropin, journal, current, this.releases := dropin, None, None, releases;
      loaded, running, initial, verified := dropin, dropin, dropin, {};
    }

    /** None of the next `n` steps fails. */
    ghost predicate Smooth(from: nat, n: nat) {
      forall k :: from <= k < from + n ==> fates(k).Succeeds?
    }

    /// Single steps

    method Tick() returns (f: Fate)
      modifies this`clock
      ensures f == fates(old(clock)) && clock == old(clock) + 1
    {
      f := fates(clock);
      clock := clock + 1;
    }

    method WriteDropin(d: Dropin) returns (o: Outcome)
      modifies this`clock, this`dropin
      ensures clock == old(clock) + 1 && o == Ends(fates(old(clock)))
      ensures dropin == if TakesEffect(fates(old(clock))) then d else old(dropin)
    {
      var f := Tick();
      if TakesEffect(f) { dropin := d; }
      o := Ends(f);
    }

    method WriteJournal(previous: Option<Dropin>) returns (o: Outcome)
      modifies this`clock, this`journal
      ensures clock == old(clock) + 1 && o == Ends(fates(old(clock)))
      ensures journal == if TakesEffect(fates(old(clock))) then previous else old(journal)
    {
      var f := Tick();
      if TakesEffect(f) { journal := previous; }
      o := Ends(f);
    }

    method WriteCurrent(sha: Sha) returns (o: Outcome)
      modifies this`clock, this`current
      ensures clock == old(clock) + 1 && o == Ends(fates(old(clock)))
      ensures current == if TakesEffect(fates(old(clock))) then Some(sha) else old(current)
    {
      var f := Tick();
      if TakesEffect(f) { current := Some(sha); }
      o := Ends(f);
    }

    /** `systemctl daemon-reload`. */
    method Reload() returns (o: Outcome)
      modifies this`clock, this`loaded
      ensures clock == old(clock) + 1 && o == Ends(fates(old(clock)))
      ensures loaded == if TakesEffect(fates(old(clock))) then dropin else old(loaded)
    {
      var f := Tick();
      if TakesEffect(f) { loaded := dropin; }
      o := Ends(f);
    }

    /** `systemctl restart`. */
    method Restart() returns (o: Outcome)
      modifies this`clock, this`running
      ensures clock == old(clock) + 1 && o == Ends(fates(old(clock)))
      ensures running == if TakesEffect(fates(old(clock))) then loaded else old(running)
    {
      var f := Tick();
      if TakesEffect(f) { running := loaded; }
      o := Ends(f);
    }

    /** The health check of a build; it cannot pass while another build is running. */
    method Health(sha: Sha) returns (o: Outcome)
      modifies this`clock, this`verified
      ensures clock == old(clock) + 1
      ensures o == if running == Some(Release(sha)) then Ends(fates(old(clock)))
                   else if fates(old(clock)).Crashes? then Crashed else Raised
      ensures old(verified) <= verified <= old(verified) + {Release(sha)}
      ensures o == Done ==> Release(sha) in verified && running == Some(Release(sha))
    {
      var f := Tick();
      if running != Some(Release(sha)) {
        return if f.Crashes? then Crashed else Raised;
      }
      if TakesEffect(f) { verified := verified + {Release(sha)}; }
      o := Ends(f);
    }

    /** A step that only reads, or builds outside what is modelled. */
    method Attempt() returns (o: Outcome)
      modifies this`clock
      ensures clock == old(clock) + 1 && o == Ends(fates(old(clock)))
    {
      var f := Tick();
      o := Ends(f);
    }

    method MakeRelease(sha: Sha) returns (o: Outcome)
      modifies this`clock, this`releases
      ensures clock == old(clock) + 1 && o == Ends(fates(old(clock)))
      ensures releases == if TakesEffect(fates(old(clock))) then old(releases) + {sha} else old(releases)
    {
      var f := Tick();
      if TakesEffect(f) { releases := releases + {sha}; }
      o := Ends(f);
    }

    method RemoveRelease(sha: Sha) returns (o: Outcome)
      modifies this`clock, this`releases
      ensures clock == old(clock) + 1 && o == Ends(fates(old(clock)))
      ensures releases == if TakesEffect(fates(old(clock))) then old(releases) - {sha} else old(releases)
    {
      var f := Tick();
      if TakesEffect(f) { releases := releases - {sha}; }
      o := Ends(f);
    }

    /** Unless all of its steps succeed, a call ends with its first step that does not, and as that step does. */
    ghost predicate FirstFailure(from: nat, steps: nat, o: Outcome)
      reads this
    {
      o != Done ==> from < clock <= from + steps && Smooth(from, clock - from - 1) && o == Ends(fates(clock - 1))
    }

    /// Restore and promote

    /** `restore`. */
    method Restore(previous: Dropin) returns (o: Outcome)
      modifies this`clock, this`dropin, this`loaded, this`running
      ensures dropin == previous || dropin == old(dropin)
      ensures o == Done ==> dropin == loaded == running == previous
      ensures (o == Done <==> Smooth(old(clock), 3)) && (o == Done ==> clock == old(clock) + 3)
      ensures FirstFailure(old(clock), 3, o)
    {
      o := WriteDropin(previous);
      if o != Done { return; }
      o := Reload();
      if o != Done { return; }
      o := Restart();
    }

    /** What `promote` does after a failure: it restores, unlinks the journal and raises again. */
    method RollBack(previous: Dropin) returns (o: Outcome)
      requires journal.Some?
      modifies this`clock, this`dropin, this`journal, this`loaded, this`running
      ensures journal.None? <==> Smooth(old(clock), 3) && TakesEffect(fates(old(clock) + 3))
      ensures journal.None? ==>
                dropin == loaded == running == previous && clock == old(clock) + 4 &&
                o == if fates(clock - 1).Succeeds? then Raised else Ends(fates(clock - 1))
      ensures journal.Some? ==> journal == old(journal) && (dropin == previous || dropin == old(dropin))
      ensures o != Done && clock > old(clock) && (o == Crashed <==> fates(clock - 1).Crashes?)
    {
      o := Restore(previous);
      if o != Done { return; }
      o := WriteJournal(None);
      if o == Done { o := Raised; }
    }

    /**
     From `c` on: the journal is written, the guarded step `k` raises and is the first to fail, the
     former drop-in is written, loaded and started, and the unlink of the journal takes effect.
     */
    ghost predicate RollsBack(c: nat, k: nat) {
      k < 4 && Smooth(c, k + 1) && fates(c + k + 1).Raises? && Smooth(c + k + 2, 3) && TakesEffect(fates(c + k + 5))
    }

    /** It is decided by the first step that fails. */
    lemma OnlyFailure(c: nat, n: nat)
      requires Smooth(c, n) && !fates(c + n).Succeeds?
      ensures forall k: nat :: RollsBack(c, k) ==> k + 1 == n && fates(c + n).Raises?
    {
    }

    lemma NoFailure(c: nat)
      requires Smooth(c, 5)
      ensures forall k: nat :: !RollsBack(c, k)
    {
    }

    /** The same, `steps` successful steps later. */
    ghost predicate RollsBackAfter(c: nat, steps: nat, k: nat) {
      Smooth(c, steps) && RollsBack(c + steps, k)
    }

    /**
     `promote`.  However it ends, either the journal still names the drop-in there was before,
     or there is no journal and the drop-in is that one again or the new one, verified.
     */
    method Promote(sha: Sha) returns (o: Outcome)
      requires Valid() && journal.None? && sha in releases
      modifies this`clock, this`dropin, this`journal, this`loaded, this`running, this`verified
      ensures o == Done <==> Smooth(old(clock), 6)
      ensures o == Done ==> clock == old(clock) + 6
      ensures old(dropin) != Some(Release(sha)) ==>
                (journal.None? && dropin == Some(Release(sha)) <==>
                 Smooth(old(clock), 5) && TakesEffect(fates(old(clock) + 5)))
      ensures Valid() && old(verified) <= verified
      ensures journal == Some(old(dropin)) ||
              (journal.None? &&
               (dropin == old(dropin) || (dropin == Some(Release(sha)) && Release(sha) in verified)))
      ensures o == Done ==>
                journal.None? && dropin == loaded == running == Some(Release(sha)) && Release(sha) in verified
      ensures o == Raised && journal.None? && dropin != Some(Release(sha)) ==>
                dropin == old(dropin) && (clock > old(clock) + 1 ==> dropin == loaded == running)
      ensures forall k :: RollsBack(old(clock), k) ==>
                journal.None? && dropin == loaded == running == old(dropin) && clock == old(clock) + k + 6 &&
                o == if fates(clock - 1).Succeeds? then Raised else Ends(fates(clock - 1))
      ensures old(dropin) != Some(Release(sha)) ==>
                (clock > old(clock) + 1 && journal.None? && dropin == old(dropin)
                 <==> exists k :: RollsBack(old(clock), k))
      ensures !fates(old(clock)).Succeeds? ==>
                o == Ends(fates(old(clock))) && dropin == old(dropin) && loaded == old(loaded) &&
                running == old(running)
      ensures clock > old(clock) && (o == Crashed <==> fates(clock - 1).Crashes?)
      ensures o == Done <==> Smooth(old(clock), clock - old(clock))
    {
      o := WriteJournal(Some(dropin));
      if o != Done {
        OnlyFailure(old(clock), 0);
        return;
      }
      o := SwitchOver(sha, old(clock));
    }

    /** Once the journal names the drop-in: the guarded part, and the unlink or the way back. */
    method SwitchOver(sha: Sha, ghost began: nat) returns (o: Outcome)
      requires Valid() && journal == Some(dropin) && sha in releases && clock == began + 1 && Smooth(began, 1)
      modifies this`clock, this`dropin, this`journal, this`loaded, this`running, this`verified
      ensures Valid() && old(verified) <= verified && clock > old(clock)
      ensures o == Done <==> Smooth(old(clock), 5)
      ensures o == Done ==>
                clock == old(clock) + 5 && journal.None? &&
                dropin == loaded == running == Some(Release(sha)) && Release(sha) in verified
      ensures o == Done <==> Smooth(old(clock), clock - old(clock))
      ensures o == Crashed <==> fates(clock - 1).Crashes?
      ensures journal.Some? ==> journal == old(journal)
      ensures journal.None? <==>
                (Smooth(old(clock), 4) && TakesEffect(fates(old(clock) + 4))) ||
                exists k :: RollsBack(began, k)
      ensures Smooth(old(clock), 4) && TakesEffect(fates(old(clock) + 4)) ==>
                dropin == Some(Release(sha)) && Release(sha) in verified
      ensures forall k :: RollsBack(began, k) ==>
                !Smooth(old(clock), 4) && dropin == loaded == running == old(dropin) && clock == old(clock) + k + 5 &&
                o == if fates(clock - 1).Succeeds? then Raised else Ends(fates(clock - 1))
    {
      var previous := dropin;
      o := Activate(sha);
      if o == Done {
        NoFailure(began);
        o := WriteJournal(None);
        return;
      }
      OnlyFailure(began, clock - old(clock));
      if o == Raised {
        assert RollsBack(began, clock - old(clock) - 1)
               <==> Smooth(clock, 3) && TakesEffect(fates(clock + 3));
        o := RollBack(previous);
      }
    }

    /** The guarded part of `promote`. */
    method Activate(sha: Sha) returns (o: Outcome)
      requires sha in releases
      modifies this`clock, this`dropin, this`loaded, this`running, this`verified
      ensures o == Done <==> Smooth(old(clock), 4)
      ensures o == Done ==> clock == old(clock) + 4
      ensures FirstFailure(old(clock), 4, o)
      ensures clock > old(clock)
      ensures dropin == old(dropin) || dropin == Some(Release(sha))
      ensures old(verified) <= verified
      ensures o == Done ==> dropin == loaded == running == Some(Release(sha)) && Release(sha) in verified
    {
      o := WriteDropin(Some(Release(sha)));
      if o != Done { return; }
      o := Reload();
      if o != Done { return; }
      o := Restart();
      if o != Done { return; }
      o := Health(sha);
    }

    /// A deployment

    /** The recovery at the start of a deployment restores exactly what the journal names. */
    method Recover() returns (o: Outcome)
      requires Valid() && journal.Some?
      modifies this`clock, this`dropin, this`journal, this`loaded, this`running
      ensures Valid()
      ensures journal == old(journal) || (journal.None? && Some(dropin) == old(journal) && dropin == loaded == running)
      ensures o == Done ==> journal.None? && Some(dropin) == old(journal) && dropin == loaded == running
      ensures (o == Done <==> Smooth(old(clock), 4)) && (o == Done ==> clock == old(clock) + 4)
      ensures FirstFailure(old(clock), 4, o)
    {
      o := Restore(journal.value);
      if o != Done { return; }
      o := WriteJournal(None);
    }

    static predicate AmongFirst(n: nat, listed: seq<Sha>, s: Sha) {
      exists k :: 0 <= k < n && k < |listed| && listed[k] == s
    }

    /** The newest three, the new one and the one recorded before are kept. */
    method Prune(sha: Sha, previous: Option<Sha>) returns (o: Outcome)
      requires Valid() && journal.None? && dropin == Some(Release(sha))
      modifies this`clock, this`releases
      ensures Valid() && releases <= old(releases) && clock >= old(clock)
      ensures o == Done <==> Smooth(old(clock), clock - old(clock))
      ensures forall s :: s in old(releases) && (s == sha || previous == Some(s)) ==> s in releases
      ensures forall s :: AmongFirst(3, byAge(old(releases)), s) ==> s in releases
      ensures o == Done ==>
                forall s :: s in releases ==>
                  s == sha || previous == Some(s) || AmongFirst(3, byAge(old(releases)), s)
    {
      var listed := byAge(releases);
      var newest := if |listed| <= 3 then listed else listed[..3];
      o := Done;
      for i := 0 to |listed|
        invariant Valid() && releases <= old(releases) && o == Done
        invariant clock >= old(clock) && Smooth(old(clock), clock - old(clock))
        invariant forall s :: s in old(releases) && (s == sha || previous == Some(s) || s in newest) ==> s in releases
        invariant forall k :: 0 <= k < i ==>
                    listed[k] !in releases || listed[k] == sha || previous == Some(listed[k]) || listed[k] in newest
      {
        var s := listed[i];
        if s != sha && previous != Some(s) && s !in newest {
          o := RemoveRelease(s);
          if o != Done { return; }
        }
      }
    }

    /** The drop-in that recovery leaves, if it ends well. */
    static function Standing(journal: Option<Dropin>, dropin: Dropin): Dropin {
      if journal.Some? then journal.value else dropin
    }

    /** The release is live for good, and the current file does not name it. */
    ghost predicate Lags(sha: Sha)
      reads this
    {
      journal.None? && dropin == Some(Release(sha)) && current != Some(sha)
    }

    /**
     The promotion goes well from `c` up to the unlink of the journal, which takes effect; and
     then either that very step raises or stops, or the write of the current file has no effect.
     */
    ghost predicate LagsFrom(c: nat) {
      Smooth(c, 5) && TakesEffect(fates(c + 5)) && !(fates(c + 5).Succeeds? && TakesEffect(fates(c + 6)))
    }

    /** The same from the start of a deployment that finds no journal. */
    ghost predicate LagSchedule(c: nat) {
      Smooth(c, 3) && LagsFrom(c + 3)
    }

    /** `deploy`: recovery, the first check, and the installation of a release that is not recorded yet. */
    method Deploy(sha: Sha) returns (o: Outcome)
      requires Valid()
      modifies this`clock, this`dropin, this`journal, this`current, this`releases, this`loaded, this`running,
               this`verified
      ensures Valid() && old(verified) <= verified
      ensures current == old(current) ||
              (current == Some(sha) && journal.None? && dropin == Some(Release(sha)) && Release(sha) in verified)
      ensures o == Done ==> journal.None? && current == Some(sha) && Release(sha) in verified
      ensures o == Done && old(current) != Some(sha) ==> dropin == running == Some(Release(sha))
      ensures old(current) != Some(sha) && Standing(old(journal), old(dropin)) != Some(Release(sha)) ==>
                (Lags(sha) <==>
                 (old(journal).Some? ==> Smooth(old(clock), 4)) &&
                 LagSchedule(if old(journal).Some? then old(clock) + 4 else old(clock)))
      ensures clock > old(clock)
      ensures old(current) != Some(sha) ==> (o == Done <==> Smooth(old(clock), clock - old(clock)))
      ensures old(current) == Some(sha) ==>
                (o == Done <==> Smooth(old(clock), clock - old(clock)) && running == Some(Release(sha)))
      ensures old(current) != Some(sha) && old(journal).None? ==>
                forall k :: RollsBackAfter(old(clock), 3, k) ==>
                  Restored(old(dropin)) && current == old(current) && clock == old(clock) + k + 9
      ensures old(current) != Some(sha) && old(journal).Some? ==>
                forall k :: RollsBackAfter(old(clock), 7, k) ==>
                  Restored(old(journal).value) && current == old(current) && clock == old(clock) + k + 13
      ensures old(journal).None? && !Smooth(old(clock), 3) ==>
                journal.None? && dropin == old(dropin) && loaded == old(loaded) && running == old(running) &&
                current == old(current)
      ensures old(journal).Some? && Smooth(old(clock), 4) && !Smooth(old(clock), 7) ==>
                Restored(old(journal).value) && current == old(current)
      ensures old(current).Some? && old(current).value in old(releases) ==> old(current).value in releases
      ensures o == Done && old(current) != Some(sha) ==>
                forall s :: s in releases ==>
                  s == sha || old(current) == Some(s) || AmongFirst(3, byAge(old(releases) + {sha}), s)
      ensures old(current) == Some(sha) && old(journal).None? ==>
                dropin == old(dropin) && journal.None? && releases == old(releases) && running == old(running)
    {
      if journal.Some? {
        Later(clock, 4, 3, 7);
        o := Recover();
        if o != Done { return; }
      }
      o := Proceed(sha);
    }

    lemma Later(c: nat, a: nat, b: nat, n: nat)
      requires n == a + b
      ensures forall k :: RollsBackAfter(c, n, k) ==> RollsBackAfter(c + a, b, k)
      ensures Smooth(c, n) <==> Smooth(c, a) && Smooth(c + a, b)
    {
    }

    /** A deployment that finds no journal. */
    method Proceed(sha: Sha) returns (o: Outcome)
      requires Valid() && journal.None?
      modifies this`clock, this`dropin, this`journal, this`current, this`releases, this`loaded, this`running,
               this`verified
      ensures Valid() && old(verified) <= verified
      ensures current == old(current) ||
              (current == Some(sha) && journal.None? && dropin == Some(Release(sha)) && Release(sha) in verified)
      ensures o == Done ==> journal.None? && current == Some(sha) && Release(sha) in verified
      ensures o == Done && old(current) != Some(sha) ==> dropin == running == Some(Release(sha))
      ensures old(current) != Some(sha) && old(dropin) != Some(Release(sha)) ==>
                (Lags(sha) <==> LagSchedule(old(clock)))
      ensures clock > old(clock)
      ensures old(current) != Some(sha) ==> (o == Done <==> Smooth(old(clock), clock - old(clock)))
      ensures old(current) == Some(sha) ==>
                (o == Done <==> Smooth(old(clock), clock - old(clock)) && running == Some(Release(sha)))
      ensures old(current) != Some(sha) ==>
                forall k :: RollsBackAfter(old(clock), 3, k) ==>
                  Restored(old(dropin)) && current == old(current) && clock == old(clock) + k + 9
      ensures !Smooth(old(clock), 3) ==>
                journal.None? && dropin == old(dropin) && loaded == old(loaded) && running == old(running) &&
                current == old(current)
      ensures old(current).Some? && old(current).value in old(releases) ==> old(current).value in releases
      ensures o == Done && old(current) != Some(sha) ==>
                forall s :: s in releases ==>
                  s == sha || old(current) == Some(s) || AmongFirst(3, byAge(old(releases) + {sha}), s)
      ensures old(current) == Some(sha) ==>
                dropin == old(dropin) && journal.None? && releases == old(releases) && running == old(running) &&
                loaded == old(loaded)
    {
      Later(clock, 1, 2, 3);
      o := Attempt();
      if o != Done { return; }
      if current == Some(sha) {
        o := Health(sha);
      } else {
        o := Install(sha);
      }
    }

    /** The build and the checks as steps that may fail, then promotion, record and pruning. */
    method Install(sha: Sha) returns (o: Outcome)
      requires Valid() && journal.None? && current != Some(sha)
      modifies this`clock, this`dropin, this`journal, this`current, this`releases, this`loaded, this`running,
               this`verified
      ensures Valid() && old(verified) <= verified
      ensures current == old(current) ||
              (current == Some(sha) && journal.None? && dropin == Some(Release(sha)) && Release(sha) in verified)
      ensures o == Done ==>
                journal.None? && current == Some(sha) &&
                dropin == running == Some(Release(sha)) && Release(sha) in verified
      ensures old(dropin) != Some(Release(sha)) ==>
                (Lags(sha) <==> Smooth(old(clock), 2) && LagsFrom(old(clock) + 2))
      ensures clock > old(clock) && (o == Done <==> Smooth(old(clock), clock - old(clock)))
      ensures !Smooth(old(clock), 2) ==>
                journal.None? && dropin == old(dropin) && loaded == old(loaded) && running == old(running) &&
                current == old(current)
      ensures forall k :: RollsBackAfter(old(clock), 2, k) ==>
                Restored(old(dropin)) && current == old(current) && clock == old(clock) + k + 8
      ensures old(current).Some? && old(current).value in old(releases) ==> old(current).value in releases
      ensures o == Done ==>
                forall s :: s in releases ==>
                  s == sha || old(current) == Some(s) || AmongFirst(3, byAge(old(releases) + {sha}), s)
    {
      o := MakeRelease(sha);
      if o != Done { return; }
      o := Attempt();
      if o != Done { return; }
      o := PromoteAndRecord(sha);
    }

    /** The drop-in is written, loaded and running, and there is nothing left to recover. */
    ghost predicate Restored(d: Dropin)
      reads this
    {
      journal.None? && dropin == loaded == running == d
    }

    method PromoteAndRecord(sha: Sha) returns (o: Outcome)
      requires Valid() && journal.None? && current != Some(sha) && sha in releases
      modifies this`clock, this`dropin, this`journal, this`current, this`releases, this`loaded, this`running,
               this`verified
      ensures Valid() && old(verified) <= verified
      ensures current == old(current) ||
              (current == Some(sha) && journal.None? && dropin == Some(Release(sha)) && Release(sha) in verified)
      ensures o == Done ==>
                journal.None? && current == Some(sha) &&
                dropin == running == Some(Release(sha)) && Release(sha) in verified
      ensures old(dropin) != Some(Release(sha)) ==> (Lags(sha) <==> LagsFrom(old(clock)))
      ensures clock > old(clock) && (o == Done <==> Smooth(old(clock), clock - old(clock)))
      ensures forall k :: RollsBack(old(clock), k) ==>
                Restored(old(dropin)) && current == old(current) && releases == old(releases) &&
                clock == old(clock) + k + 6
      ensures old(current).Some? && old(current).value in old(releases) ==> old(current).value in releases
      ensures o == Done ==>
                forall s :: s in releases ==>
                  s == sha || old(current) == Some(s) || AmongFirst(3, byAge(old(releases)), s)
    {
      var previous := current;
      o := Promote(sha);
      if o != Done { return; }
      o := WriteCurrent(sha);
      if o != Done { return; }
      o := Prune(sha, previous);
    }

    /**
     Any number of deployments, each finding what the last one left, crashed or not.  At the end
     of every run the service can be brought back to a good drop-in whose release is on disk.
     */
    method Serve(requests: seq<Sha>) returns (outcomes: seq<Outcome>)
      requires Valid()
      modifies this`clock, this`dropin, this`journal, this`current, this`releases, this`loaded, this`running,
               this`verified
      ensures Valid() && |outcomes| == |requests|
      ensures var rollback := if journal.Some? then journal.value else dropin;
              Good(rollback) && OnDisk(rollback)
    {
      outcomes := [];
      for i := 0 to |requests|
        invariant Valid() && |outcomes| == i
      {
        var o := Deploy(requests[i]);
        outcomes := outcomes + [o];
      }
    }
  }

  /**
   The current file can lag behind the live release, in both ways that `Deploy` allows: the
   unlink of the journal takes effect and then raises or stops, or the machine stops before the
   new name is recorded.  There is no journal then, so the next deployment does not roll back.
   */
  method CurrentCanLag(sha: Sha, byAge: set<Sha> -> seq<Sha>, unlinkFails: bool, fate: Fate) returns (h: Host)
    requires forall s, x :: x in byAge(s) <==> x in s
    requires if unlinkFails then TakesEffect(fate) && !fate.Succeeds? else !TakesEffect(fate)
    ensures fresh(h) && h.Valid() && h.Lags(sha) && Release(sha) in h.verified
  {
    h := new Host(None, {}, n => if n == (if unlinkFails then 8 else 9) then fate else Succeeds, byAge);
    var o := h.Deploy(sha);
  }
}
