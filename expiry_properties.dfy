/** Properties of the expiry state machine: one initialisation at a time,
    then across any sequence of runs of the check over the same disk. */
module ExpiryProperties {
  import opened Expiry

  /** The disk before the first deployment start, and after a manual reset. */
  const FreshDisk: Disk := Disk(None, NoLock)

  // ---------------------------------------------------------------------
  // One initialisation
  // ---------------------------------------------------------------------

  /** With a lock present, initialisation terminates at once and touches
      neither file, whatever the clock and the file faults. */
  lemma LockedStartTerminates(d: Disk, now: int, f: IoFaults)
    requires d.lock.Lock?
    ensures Check(d, now, f) == (Terminated(FoundLock), d)
  {
  }

  /** Without a start-date file and without a lock, initialisation records
      "now" as the start date, creates no lock and does not terminate. */
  lemma FirstStartRecordsNow(d: Disk, now: int, f: IoFaults)
    requires d.startFile.None? && d.lock.NoLock?
    requires f.startWrite == Succeeds
    ensures Check(d, now, f) == (Started, Disk(Some(Timestamp(now)), NoLock))
  {
  }

  /** Expiry is strict: with a readable start date `s`, the gate stays
      active exactly while `now <= s + 15 days`, and past that instant it
      writes a lock stamped with `now` and terminates. */
  lemma ExpiryIsStrict(s: int, now: int, f: IoFaults)
    requires !f.startReadFails
    ensures var (o, d') := Check(Disk(Some(Timestamp(s)), NoLock), now, f);
      (o.Active? <==> now <= s + TrialDays * SecondsPerDay) &&
      (now == s + TrialDays * SecondsPerDay ==> o == Active(0)) &&
      (now > s + TrialDays * SecondsPerDay && f.lockWrite == Succeeds ==>
         o == Terminated(ExpiredNow) && d' == Disk(Some(Timestamp(s)), Lock(Some(now)))) &&
      (now <= s + TrialDays * SecondsPerDay ==> d' == Disk(Some(Timestamp(s)), NoLock))
  {
  }

  /** In the active branch the days remaining are the whole days, rounded
      down, between now and the expiry instant; never negative, and at most
      15 while the clock has not gone back before the start date. */
  lemma DaysRemainingIsFloor(s: int, now: int, f: IoFaults)
    requires !f.startReadFails
    requires now <= ExpiryOf(s)
    ensures var o := Check(Disk(Some(Timestamp(s)), NoLock), now, f).0;
      o.Active? &&
      o.daysRemaining * SecondsPerDay <= ExpiryOf(s) - now < (o.daysRemaining + 1) * SecondsPerDay &&
      0 <= o.daysRemaining &&
      (s <= now ==> o.daysRemaining <= TrialDays)
  {
  }

  /** The errors the catch-all handler swallows arise exactly from a failed
      file operation or the start date is content the check cannot use. */
  lemma ErrorsComeFromFaults(d: Disk, now: int, f: IoFaults)
    requires d.lock.NoLock?
    ensures Check(d, now, f).0.Error? <==>
      (d.startFile.None? && f.startWrite != Succeeds) ||
      (d.startFile.Some? && f.startReadFails) ||
      (d.startFile == Some(Malformed)) ||
      (exists s :: d.startFile == Some(Timestamp(s)) && now > ExpiryOf(s) && f.lockWrite != Succeeds)
  {
  }

  /** Fail-open: an error never terminates the process, and it leaves no
      lock behind unless the lock file was created before its write failed. */
  lemma ErrorsFailOpen(d: Disk, now: int, f: IoFaults)
    requires d.lock.NoLock?
    ensures var (o, d') := Check(d, now, f);
      o.Error? ==>
        (d'.lock.NoLock? || (o.cause == LockWriteFailed && f.lockWrite == WriteFails && d'.lock == Lock(None)))
  {
  }

  // ---------------------------------------------------------------------
  // Any sequence of runs of the check
  // ---------------------------------------------------------------------

  /** Expired is terminal: once the lock exists every later run terminates
      on finding it, and neither file changes any more. */
  lemma {:induction false} LockIsTerminal(d: Disk, runs: seq<Construction>)
    requires d.lock.Lock?
    ensures Run(d, runs).1 == d
    ensures forall i :: 0 <= i < |runs| ==> Run(d, runs).0[i] == Terminated(FoundLock)
    decreases |runs|
  {
    if runs != [] {
      LockIsTerminal(d, runs[1..]);
    }
  }

  /** A termination is final: every run after one that terminated
      terminates too, on finding the lock. */
  lemma {:induction false} TerminationIsFinal(d: Disk, runs: seq<Construction>, i: nat, j: nat)
    requires i < j < |runs|
    requires Run(d, runs).0[i].Terminated?
    ensures Run(d, runs).0[j] == Terminated(FoundLock)
    decreases i
  {
    var next := Check(d, runs[0].now, runs[0].faults).1;
    if i == 0 {
      LockIsTerminal(next, runs[1..]);
    } else {
      TerminationIsFinal(next, runs[1..], i - 1, j - 1);
    }
  }

  /** The start date is write-once: the instant recorded by the run that
      reported `Started` is the start date after any later runs. */
  lemma {:induction false} RecordedStartPersists(d: Disk, runs: seq<Construction>, i: nat)
    requires i < |runs|
    requires Run(d, runs).0[i] == Started
    ensures Run(d, runs).1.startFile == Some(Timestamp(runs[i].now))
    decreases i
  {
    var next := Check(d, runs[0].now, runs[0].faults).1;
    if i > 0 {
      RecordedStartPersists(next, runs[1..], i - 1);
    }
  }

  /** The lock is justified by the start date: a disk with a lock has a
      readable start date, and the instant the lock records lies after that
      start date's expiry. */
  ghost predicate Justified(d: Disk)
  {
    d.lock.Lock? ==>
      exists s :: d.startFile == Some(Timestamp(s)) &&
        (d.lock.expiredOn.Some? ==> d.lock.expiredOn.value > ExpiryOf(s))
  }

  /** One initialisation keeps the lock justified. */
  lemma CheckKeepsJustified(d: Disk, now: int, f: IoFaults)
    requires Justified(d)
    ensures Justified(Check(d, now, f).1)
  {
  }

  /** Every disk reached from a fresh deployment keeps the lock justified. */
  lemma {:induction false} RunKeepsJustified(d: Disk, runs: seq<Construction>)
    requires Justified(d)
    ensures Justified(Run(d, runs).1)
    decreases |runs|
  {
    if runs != [] {
      CheckKeepsJustified(d, runs[0].now, runs[0].faults);
      RunKeepsJustified(Check(d, runs[0].now, runs[0].faults).1, runs[1..]);
    }
  }

  lemma FreshDiskReachesOnlyJustified(runs: seq<Construction>)
    ensures Justified(Run(FreshDisk, runs).1)
  {
    RunKeepsJustified(FreshDisk, runs);
  }

  /** A start-date file the check cannot use (for instance one whose first
      write failed) makes every later run fail open: the trial never
      expires and no lock is ever written. */
  lemma {:induction false} MalformedStartNeverExpires(runs: seq<Construction>)
    ensures Run(Disk(Some(Malformed), NoLock), runs).1 == Disk(Some(Malformed), NoLock)
    ensures forall i :: 0 <= i < |runs| ==> Run(Disk(Some(Malformed), NoLock), runs).0[i].Error?
    decreases |runs|
  {
    if runs != [] {
      MalformedStartNeverExpires(runs[1..]);
    }
  }

  /** The first process start of a deployment constructs the middleware
      twice, at import and again in the framework, and so runs the check
      twice: the first run starts the trial and the second, later within the
      same day, already reports 14 whole days remaining. The two runs are
      usually less than a second apart; `inFramework` is taken as strictly
      later because the real clock has sub-second resolution, whereas at the
      same whole second this model would report 15. */
  lemma FirstProcessStart(atImport: int, inFramework: int)
    requires atImport < inFramework <= atImport + SecondsPerDay
    ensures Run(FreshDisk, [Construction(atImport, NoFaults), Construction(inFramework, NoFaults)])
         == ([Started, Active(TrialDays - 1)], Disk(Some(Timestamp(atImport)), NoLock))
  {
    var active := Disk(Some(Timestamp(atImport)), NoLock);
    var second := [Construction(inFramework, NoFaults)];
    var both := [Construction(atImport, NoFaults)] + second;
    assert second[1..] == [] && both[1..] == second && both[0] == Construction(atImport, NoFaults);
    var days := WholeDays(ExpiryOf(atImport) - inFramework);
    assert (TrialDays - 1) * SecondsPerDay <= ExpiryOf(atImport) - inFramework < TrialDays * SecondsPerDay;
    assert days == TrialDays - 1;
    assert Check(FreshDisk, atImport, NoFaults) == (Started, active);
    assert Check(active, inFramework, NoFaults) == (Active(TrialDays - 1), active);
    assert [Active(TrialDays - 1)] + [] == [Active(TrialDays - 1)];
    assert Run(active, second) == ([Active(TrialDays - 1)], active);
    var outcomes := [Started] + [Active(TrialDays - 1)];
    assert Run(FreshDisk, both) == (outcomes, active);
    assert outcomes == [Started, Active(TrialDays - 1)];
    assert both == [Construction(atImport, NoFaults), Construction(inFramework, NoFaults)];
  }

  // ---------------------------------------------------------------------
  // The trial on a calendar, in seconds since 1970-01-01T00:00:00
  // ---------------------------------------------------------------------

  const Jan01: int := 1704067200  // 2024-01-01T00:00:00
  const Jan10: int := Jan01 + 9 * SecondsPerDay
  const Jan16: int := Jan01 + 15 * SecondsPerDay
  const Jan20: int := Jan01 + 19 * SecondsPerDay

  /** Started on 1 January 2024: six days remain on 10 January, the gate is
      still active at the exact expiry instant on 16 January, it expires by
      20 January, and the run after that finds the lock. */
  lemma TrialCalendar()
    ensures Run(FreshDisk, [Construction(Jan01, NoFaults), Construction(Jan10, NoFaults), Construction(Jan16, NoFaults),
                            Construction(Jan20, NoFaults), Construction(Jan20 + 1, NoFaults)])
         == ([Started, Active(6), Active(0), Terminated(ExpiredNow), Terminated(FoundLock)],
             Disk(Some(Timestamp(Jan01)), Lock(Some(Jan20))))
  {
    var active := Disk(Some(Timestamp(Jan01)), NoLock);
    var locked := Disk(Some(Timestamp(Jan01)), Lock(Some(Jan20)));
    var s5 := [Construction(Jan20 + 1, NoFaults)];
    var s4 := [Construction(Jan20, NoFaults)] + s5;
    var s3 := [Construction(Jan16, NoFaults)] + s4;
    var s2 := [Construction(Jan10, NoFaults)] + s3;
    var s1 := [Construction(Jan01, NoFaults)] + s2;
    assert s5[1..] == [] && s4[1..] == s5 && s3[1..] == s4 && s2[1..] == s3 && s1[1..] == s2;
    var o5 := [Terminated(FoundLock)];
    var o4 := [Terminated(ExpiredNow)] + o5;
    var o3 := [Active(0)] + o4;
    var o2 := [Active(6)] + o3;
    var o1 := [Started] + o2;
    assert o5 == [Terminated(FoundLock)] + [];
    assert Run(locked, s5) == (o5, locked);
    assert Run(active, s4) == (o4, locked);
    assert Run(active, s3) == (o3, locked);
    assert Run(active, s2) == (o2, locked);
    assert Run(FreshDisk, s1) == (o1, locked);
    assert s1 == [Construction(Jan01, NoFaults), Construction(Jan10, NoFaults), Construction(Jan16, NoFaults), Construction(Jan20, NoFaults), Construction(Jan20 + 1, NoFaults)];
    assert o1 == [Started, Active(6), Active(0), Terminated(ExpiredNow), Terminated(FoundLock)];
  }
}
