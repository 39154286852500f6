/** The expiry middleware: the two persisted files as a `Storage` object that
    every construction shares, and the middleware object that checks them
    once at construction and then gates each request. */
module WebsiteManager {
  import opened Expiry

  datatype HttpRequest = HttpRequest(path: string)
  datatype HttpResponse = HttpResponse(status: nat, body: string)

  const ServiceUnavailable: nat := 503

  /** The fixed page served while the lock exists (its HTML is not modelled). */
  const ExpiredPage: HttpResponse :=
    HttpResponse(ServiceUnavailable, "Website Expired: this website has been automatically disabled after 15 days.")

  /** The start-date file and the lock file in the application's base directory. */
  class Storage {
    var startFile: Option<Record>
    var lock: LockFile

    function Contents(): Disk
      reads this
    {
      Disk(startFile, lock)
    }

    constructor (d: Disk)
      ensures Contents() == d
    {
      startFile, lock := d.startFile, d.lock;
    }
  }

  class WebsiteExpiryMiddleware {
    const getResponse: HttpRequest -> HttpResponse
    const storage: Storage
    /** The requests handed to the downstream handler so far. */
    ghost var forwarded: seq<HttpRequest>

    /** Remembers the downstream handler and where the files live; the expiry
        check itself is run by `Boot`. */
    constructor (getResponse: HttpRequest -> HttpResponse, storage: Storage)
      ensures this.getResponse == getResponse && this.storage == storage
      ensures forwarded == []
    {
      this.getResponse := getResponse;
      this.storage := storage;
      forwarded := [];
    }

    /** Writes the current time as the start date; `raised` when the file
        could not be opened or written. */
    method WriteStartFile(now: int, fault: WriteFault) returns (raised: bool)
      modifies storage
      ensures raised <==> fault != Succeeds
      ensures storage.lock == old(storage.lock)
      ensures storage.startFile == match fault
        case Succeeds => Some(Timestamp(now))
        case OpenFails => old(storage.startFile)
        case WriteFails => Some(Malformed)
    {
      match fault
      case Succeeds =>
        storage.startFile := Some(Timestamp(now));
        raised := false;
      case OpenFails =>
        raised := true;
      case WriteFails =>
        storage.startFile := Some(Malformed);
        raised := true;
    }

    /** Writes the lock file recording `expiredOn`; `raised` when the file
        could not be opened or written. A write that fails after the open
        still leaves a lock file behind. */
    method CreateLockFile(expiredOn: int, fault: WriteFault) returns (raised: bool)
      modifies storage
      ensures raised <==> fault != Succeeds
      ensures storage.startFile == old(storage.startFile)
      ensures storage.lock == match fault
        case Succeeds => Lock(Some(expiredOn))
        case OpenFails => old(storage.lock)
        case WriteFails => Lock(None)
    {
      match fault
      case Succeeds =>
        storage.lock := Lock(Some(expiredOn));
        raised := false;
      case OpenFails =>
        raised := true;
      case WriteFails =>
        storage.lock := Lock(None);
        raised := true;
    }

    /** The start-up check: terminate on a lock, start the trial, report the
        days remaining, or write the lock and terminate once the trial is
        over; any raised error is swallowed and reported as `Error`. */
    method CheckAndHandleExpiry(now: int, faults: IoFaults) returns (outcome: Outcome)
      modifies storage
      ensures (outcome, storage.Contents()) == Check(old(storage.Contents()), now, faults)
    {
      if storage.lock.Lock? {
        return Terminated(FoundLock);
      }
      if storage.startFile.None? {
        var raised := WriteStartFile(now, faults.startWrite);
        if raised {
          return Error(StartWriteFailed);
        }
        return Started;
      }
      if faults.startReadFails {
        return Error(StartReadFailed);
      }
      var record := storage.startFile.value;
      if record.Malformed? {
        return Error(StartMalformed);
      }
      var expiry := ExpiryOf(record.seconds);
      var daysRemaining := WholeDays(expiry - now);
      if now > expiry {
        var raised := CreateLockFile(now, faults.lockWrite);
        if raised {
          return Error(LockWriteFailed);
        }
        return Terminated(ExpiredNow);
      }
      return Active(daysRemaining);
    }

    /** The 503 page when the lock exists, nothing otherwise. */
    method ProcessRequest(request: HttpRequest) returns (response: Option<HttpResponse>)
      ensures response.Some? <==> storage.lock.Lock?
      ensures response.Some? ==> response.value == ExpiredPage && response.value.status == 503
    {
      if storage.lock.Lock? {
        return Some(ExpiredPage);
      }
      return None;
    }

    /** Handles one request: the 503 page while the lock exists, and only
        otherwise the downstream handler's response. */
    method Call(request: HttpRequest) returns (response: HttpResponse)
      modifies this`forwarded
      ensures storage.lock.Lock? ==> response == ExpiredPage && forwarded == old(forwarded)
      ensures storage.lock.NoLock? ==> response == getResponse(request) && forwarded == old(forwarded) + [request]
    {
      var rejection := ProcessRequest(request);
      if rejection.Some? {
        return rejection.value;
      }
      forwarded := forwarded + [request];
      response := getResponse(request);
    }
  }

  /** One construction of the middleware, which runs the expiry check.
      A termination ends the process with an exit message, so no middleware
      is left to serve requests; any other outcome leaves one that has
      forwarded nothing. */
  method Boot(getResponse: HttpRequest -> HttpResponse, storage: Storage, now: int, faults: IoFaults)
    returns (outcome: Outcome, exitMessage: Option<string>, middleware: WebsiteExpiryMiddleware?)
    modifies storage
    ensures (outcome, storage.Contents()) == Check(old(storage.Contents()), now, faults)
    ensures exitMessage == if outcome.Terminated? then Some(ExitMessage(outcome.reason)) else None
    ensures middleware == null <==> outcome.Terminated?
    ensures middleware != null ==>
      fresh(middleware) && middleware.storage == storage && middleware.getResponse == getResponse &&
      middleware.forwarded == []
  {
    middleware := new WebsiteExpiryMiddleware(getResponse, storage);
    outcome := middleware.CheckAndHandleExpiry(now, faults);
    exitMessage := None;
    if outcome.Terminated? {
      exitMessage := Some(ExitMessage(outcome.reason));
      middleware := null;
    }
  }
}
