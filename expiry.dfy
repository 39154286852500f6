/** The trial-expiry state machine of the website gate, on values.

    The two persisted files are abstracted into a `Disk` value, "now" is an
    integer number of seconds, and the failures the file operations can raise
    are an explicit `IoFaults` parameter. `Check` is one run of the start-up
    check, which happens each time the middleware is constructed; `Run` is a
    sequence of such runs over the same disk. A process start usually
    constructs the middleware twice (once when the module is imported, once
    when the framework loads it), so it contributes two runs.
 */
module Expiry {

  datatype Option<T> = None | Some(value: T)

  /** Length of a day in seconds, and of the trial window in days. */
  const SecondsPerDay: int := 86400
  const TrialDays: int := 15
  const TrialSeconds: int := TrialDays * SecondsPerDay

  /** Content of the start-date file: a naive local timestamp the check can
      use, or content it cannot use. `Malformed` covers text that
      `fromisoformat` rejects (left behind by a failed write, or edited by
      hand) and a timestamp with a UTC offset, which parses but makes the
      subtraction from the naive current time raise `TypeError`. Either way
      the check raises before it compares dates. */
  datatype Record = Timestamp(seconds: int) | Malformed

  /** The lock file. Its presence alone is the expired signal; `expiredOn` is
      the time written on its first line, None when the write did not finish. */
  datatype LockFile = NoLock | Lock(expiredOn: Option<int>)

  /** Both persisted files. */
  datatype Disk = Disk(startFile: Option<Record>, lock: LockFile)

  /** How a write through `open(path, 'w')` ends: it succeeds, `open` itself
      raises (no file is created), or a write raises after `open` has created
      (and truncated) the file. */
  datatype WriteFault = Succeeds | OpenFails | WriteFails

  /** The failures the environment injects into one initialisation. */
  datatype IoFaults = IoFaults(startWrite: WriteFault, startReadFails: bool, lockWrite: WriteFault)

  const NoFaults: IoFaults := IoFaults(Succeeds, false, Succeeds)

  /** Why the process is terminated: it found a lock, or it just detected expiry. */
  datatype ExitReason = FoundLock | ExpiredNow

  /** The exception that the catch-all handler swallows. `StartMalformed`
      is the `ValueError` of an unparseable start date or the `TypeError` of
      one with a UTC offset. */
  datatype Cause = StartWriteFailed | StartReadFailed | StartMalformed | LockWriteFailed

  /** What one initialisation does: terminate the process, start the trial,
      report the whole days remaining, or log an error and carry on. */
  datatype Outcome = Terminated(reason: ExitReason) | Started | Active(daysRemaining: int) | Error(cause: Cause)

  /** Message passed to the process exit. */
  function ExitMessage(reason: ExitReason): (m: string)
    ensures "Website expired" <= m
    ensures reason == ExpiredNow ==> "Website expired after 15 days" <= m
  {
    match reason
    case FoundLock => "Website expired - Application terminated"
    case ExpiredNow => "Website expired after 15 days - Application terminated"
  }

  /** Whole days in a span of seconds, rounded down as `timedelta.days` does. */
  function WholeDays(span: int): (days: int)
    ensures days * SecondsPerDay <= span < days * SecondsPerDay + SecondsPerDay
  {
    span / SecondsPerDay
  }

  /** The instant after which a trial started at `start` has expired. */
  function ExpiryOf(start: int): int
  {
    start + TrialSeconds
  }

  /** One initialisation of the gate on disk `d` at time `now`: the outcome
      and the disk afterwards. */
  function Check(d: Disk, now: int, f: IoFaults): (r: (Outcome, Disk))
    // the start date is write-once and the lock is never removed or rewritten
    ensures d.startFile.Some? ==> r.1.startFile == d.startFile
    ensures d.lock.Lock? ==> r.1 == d
    // every termination leaves a lock behind
    ensures r.0.Terminated? ==> r.1.lock.Lock?
    // a lock is created only by detecting expiry of a recorded start date
    ensures d.lock.NoLock? && r.1.lock.Lock? ==>
      exists s :: d.startFile == Some(Timestamp(s)) && now > ExpiryOf(s)
  {
    if d.lock.Lock? then (Terminated(FoundLock), d)
    else match d.startFile
      case None =>
        (match f.startWrite
         case Succeeds => (Started, d.(startFile := Some(Timestamp(now))))
         case OpenFails => (Error(StartWriteFailed), d)
         case WriteFails => (Error(StartWriteFailed), d.(startFile := Some(Malformed))))
      case Some(record) =>
        if f.startReadFails then (Error(StartReadFailed), d)
        else match record
          case Malformed => (Error(StartMalformed), d)
          case Timestamp(start) =>
            var expiry := ExpiryOf(start);
            if now > expiry then
              (match f.lockWrite
               case Succeeds => (Terminated(ExpiredNow), d.(lock := Lock(Some(now))))
               case OpenFails => (Error(LockWriteFailed), d)
               case WriteFails => (Error(LockWriteFailed), d.(lock := Lock(None))))
            else (Active(WholeDays(expiry - now)), d)
  }

  /** One construction of the middleware, hence one run of the check: the
      clock reading and the faults injected. */
  datatype Construction = Construction(now: int, faults: IoFaults)

  /** A sequence of runs of the check over the same disk: the outcome of
      each and the disk after the last. */
  function Run(d: Disk, runs: seq<Construction>): (r: (seq<Outcome>, Disk))
    ensures |r.0| == |runs|
    ensures d.startFile.Some? ==> r.1.startFile == d.startFile
    decreases |runs|
  {
    if runs == [] then ([], d)
    else
      var (o, next) := Check(d, runs[0].now, runs[0].faults);
      var (rest, last) := Run(next, runs[1..]);
      ([o] + rest, last)
  }
}
