# Website trial-expiry gate

A model of `WebsiteExpiryMiddleware`, a Django middleware that disables a website 15 days after it first started. The middleware keeps its state in two files in the application's base directory:

- the start-date file records when the trial began;
- the lock file marks the trial as over.

Each time the middleware is constructed, it checks the files. A process start usually constructs it twice: once at the bottom of the module when it is imported (website_manager.py:103-108), and once more when Django loads it as middleware. So the check runs twice per process start. One run of the check does this:

- If the lock exists, it terminates the process.
- If there is no start date, it records "now" as the start date.
- If the start date is at most 15 days old, it reports the whole days remaining.
- Otherwise it writes the lock and terminates the process.

Any exception raised during this check is printed and swallowed. Termination escapes the handler, because `sys.exit` raises `SystemExit` and the handler catches only `Exception`. On every request, the middleware returns a 503 page while the lock exists. Otherwise it hands the request to the downstream handler.

The model has three modules:

- `Expiry` (`expiry.dfy`) is the state machine on values. A `Disk` holds both files, and `Check` performs one run of the check. A `Construction` is one construction of the middleware, so one run of the check, not one process start. `Run` performs a sequence of runs over the same disk. Timestamps are integer seconds and a day is 86400 seconds. The file operations that can raise are an explicit `IoFaults` parameter:
  - a write either succeeds, fails at `open`, or fails after `open` has created the file;
  - the start-date read either succeeds or fails.
- `ExpiryProperties` (`expiry_properties.dfy`) proves properties of that machine. Some hold for one run of the check; others hold for every sequence of runs.
- `WebsiteManager` (`website_manager.dfy`) is the middleware in its own imperative form. A shared `Storage` object holds the two files. `WebsiteExpiryMiddleware.CheckAndHandleExpiry` mutates that storage step by step, and its contract equates the outcome and the new file state with `Expiry.Check`. `Boot` is one construction plus its check. A termination returns the exit message and leaves no middleware to serve requests.

The state is slightly richer than "start date or none, locked or not", because the code can leave two kinds of partial file behind:

- A start-date file whose write failed after `open` has been created and truncated. It no longer parses, so `Record.Malformed` stands for it. From then on every run of the check fails open, and the trial never expires (`MalformedStartNeverExpires`). A hand edit has the same effect if it leaves text `fromisoformat` rejects. So does a timestamp with a UTC offset such as `2024-01-01T00:00:00+00:00`: it parses, but subtracting the naive `datetime.now()` from it at website_manager.py:44 raises `TypeError`, and the handler swallows that error. `Malformed` stands for both kinds of content.
- A lock file whose write failed after `open` exists, but what it contains is unknown (`Lock(None)`). The exception is swallowed, so that process keeps running. Yet the lock is present, so its requests get the 503 page and the next run of the check terminates. Said plainly, "an error during the check leaves no lock" is false in exactly this case. `ErrorsFailOpen` states the precise version.

For a trial started at 2024-01-01T00:00:00, expiry is at 2024-01-16T00:00:00. `(expiry - now).days` rounds down, so on 2024-01-10 6 whole days remain (`TrialCalendar`).

## Model

| member | source | states |
|---|---|---|
| `Expiry.Check` | website_manager.py:23-56 | one initialisation: the start date is never overwritten once present; with a lock present nothing changes; every termination leaves a lock; a lock is only created when a recorded start date has expired |
| `Expiry.WholeDays` | website_manager.py:44 | days remaining is the span rounded down to whole days, as `timedelta.days` does |
| `Expiry.ExitMessage` | website_manager.py:29-50 | both exit messages start with "Website expired"; the one on fresh expiry names the 15 days |
| `Expiry.Run` | website_manager.py:15-21 | a sequence of runs of the check yields one outcome per run and never changes a recorded start date |
| `ExpiryProperties.LockedStartTerminates` | website_manager.py:27-29 | with a lock present, the check terminates and neither file changes, whatever the clock or the file faults |
| `ExpiryProperties.FirstStartRecordsNow` | website_manager.py:32-36 | with neither file present, initialisation records now as the start date, writes no lock and does not terminate |
| `ExpiryProperties.ExpiryIsStrict` | website_manager.py:43-53 | active if and only if now is at most start plus 15 days; at exactly that instant 0 days remain; past it the lock is written with now and the process terminates; while active nothing changes |
| `ExpiryProperties.DaysRemainingIsFloor` | website_manager.py:42-53 | in the active branch days remaining is the floor of (expiry - now) in days, non-negative, and at most 15 when now is not before the start |
| `ExpiryProperties.ErrorsComeFromFaults` | website_manager.py:25-56 | an error outcome occurs exactly when a file operation raises or the start date is content the check cannot use (unparseable, or carrying a UTC offset) |
| `ExpiryProperties.ErrorsFailOpen` | website_manager.py:48-62 | an error never terminates; it leaves no lock unless the lock file was created before its write failed |
| `ExpiryProperties.LockIsTerminal` | website_manager.py:27-29 | once locked, every later run terminates on the lock and neither file changes again |
| `ExpiryProperties.TerminationIsFinal` | website_manager.py:27-50 | every run after one that terminated also terminates, on finding the lock |
| `ExpiryProperties.RecordedStartPersists` | website_manager.py:32-40 | the instant recorded by the run that began the trial stays the start date through all later runs |
| `ExpiryProperties.CheckKeepsJustified` | website_manager.py:43-62 | one initialisation keeps the invariant: a lock implies a readable start date whose expiry precedes the instant on the lock |
| `ExpiryProperties.RunKeepsJustified` | website_manager.py:43-62 | any sequence of runs keeps that invariant |
| `ExpiryProperties.FreshDiskReachesOnlyJustified` | website_manager.py:23-62 | every disk reached from a fresh deployment satisfies that invariant |
| `ExpiryProperties.MalformedStartNeverExpires` | website_manager.py:39-56 | a start date the check cannot use (unparseable, or carrying a UTC offset) makes every run an error: no lock is ever written and the files never change |
| `ExpiryProperties.FirstProcessStart` | website_manager.py:103-108 | the first process start of a deployment runs the check twice: the run at import starts the trial, and the framework's run later that day already reports 14 days remaining |
| `ExpiryProperties.TrialCalendar` | website_manager.py:43-53 | started on 2024-01-01: 6 days remain on 01-10, still active at 01-16T00:00, expired with the lock on 01-20, and the next run finds the lock |
| `WebsiteManager.Storage.constructor` | website_manager.py:17-18 | the two files hold the given disk state |
| `WebsiteManager.WebsiteExpiryMiddleware.constructor` | website_manager.py:15-18 | keeps the downstream handler and the storage; nothing forwarded yet |
| `WebsiteManager.WebsiteExpiryMiddleware.WriteStartFile` | website_manager.py:32-34 | records now as the start date, leaves it untouched when open fails, leaves an unparseable file when the write fails; raises exactly on a fault |
| `WebsiteManager.WebsiteExpiryMiddleware.CreateLockFile` | website_manager.py:58-62 | writes a lock recording the expiry instant; a failed open leaves no lock, a failed write leaves a lock of unknown content; raises exactly on a fault |
| `WebsiteManager.WebsiteExpiryMiddleware.CheckAndHandleExpiry` | website_manager.py:23-56 | the outcome and the new file state are those of `Expiry.Check` on the old file state |
| `WebsiteManager.WebsiteExpiryMiddleware.ProcessRequest` | website_manager.py:75-91 | returns the 503 page if and only if the lock exists, and nothing otherwise |
| `WebsiteManager.WebsiteExpiryMiddleware.Call` | website_manager.py:93-100 | with the lock, returns the 503 page without calling the downstream handler; without it, returns the downstream response and records exactly that one forwarded request |
| `WebsiteManager.Boot` | website_manager.py:15-21 | construction runs the check; a termination yields the exit message of its reason and no middleware, and a surviving one shares the storage and has forwarded nothing |

## Left out

- Filesystem access and path joining: the two files are the fields of `Storage`. The exceptions they can raise are the explicit `IoFaults` parameter.
- Partial writes: a write that fails after `open` is modelled as leaving a start-date file that does not parse, or a lock of unknown content. A truncated timestamp that would still parse is not distinguished.
- `datetime.now`, `isoformat` and `fromisoformat`: time is integer seconds. The local clock, daylight saving and microseconds are not modelled. A start date the check cannot use is the `Malformed` record: text `fromisoformat` rejects (`ValueError` at line 40), or a timestamp with a UTC offset (`TypeError` at line 44, when it is subtracted from the naive current time).
- The range of `datetime` (years 1 to 9999) is not modelled. Near its end, `start + timedelta(days=15)` raises `OverflowError`, which the code would swallow as an error.
- `sys.exit`: it is the `Terminated` outcome. `Boot` then returns no middleware.
- Console output and `show_expired_message`: their text is not modelled, and neither is a print that raises. The prints at website_manager.py:28, 35, 49 and 53 sit inside the `try`. What a raising print does depends on whether the handler's own print at line 56 fails too:
  - A stdout fault that persists (a stream that cannot encode the emoji, a broken pipe) also makes line 56 raise, since it prints an emoji to the same stream. That exception escapes the check and the constructor. During the construction at import it is caught at lines 107-108. During the framework's construction it propagates, and the middleware fails to load.
  - Only a one-off print failure that does not recur at line 56 is swallowed as an error. At lines 28 and 49 that happens before `sys.exit`, so the process would keep running, with the lock present, instead of terminating.
  - The faults in the model are file faults only. Hence `LockedStartTerminates`, `LockIsTerminal` and `TerminationIsFinal` hold only when printing succeeds, and `ErrorsComeFromFaults` covers file faults only.
- The HTML of the 503 page: only its status and a short notice text are modelled.
- The module-level construction at import (website_manager.py:103-108) is a second construction, so a `Construction` in the model is one run of the check, not one process start. The process itself (import, then the framework's construction) is not modelled beyond `FirstProcessStart`. The lambda passed there as the downstream handler is not modelled.
- Concurrent first starts of several worker processes: each can write the start-date file, and the last write wins. The model runs starts one after another.
- tailwind.config.js: styling configuration with no behaviour.
