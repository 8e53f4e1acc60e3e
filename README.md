# webscrot: a verified model of the worker pool and its shutdown accounting

webscrot takes screenshots of a list of URLs. It starts a number of workers; each owns one
X display (`:` followed by its id plus a display-number offset) on which it runs a virtual
display server (Xvfb) and a window manager (ratpoison). A worker takes URLs from a shared
queue, opens each in a browser (midori) on its display, captures the root window with
ImageMagick's `import` into a file named after the sanitised URL, and kills the browser. Every
task sends `true` on a completion channel; every worker, when it stops, sends `false`. The
main goroutine counts these signals on one counter: while the done flag is clear, the signal
that brings the counter from `taskCount` to zero sets the flag (which tells idle workers to
stop); after that, the signal that brings it to `-workerCount` ends the process.

The model has five modules, one file each:

- `naming.dfy` (`Naming`): Go's `%d` rendering of integers, the display name (with the
  64-bit wrap-around of Go's `int` in `id + displayNumberOffset`), the URL sanitiser (every
  maximal run of characters outside `[A-Za-z0-9]` becomes one `-`), the browser URL, the
  screenshot path and the screen geometry argument. Pure functions with lemmas: the
  sanitiser's output alphabet, no doubled hyphens, letters and digits kept in order,
  idempotence, agreement with a two-stage reference definition, collisions; decimal round
  trip, geometry read-back and distinct display names.
- `coordinator.dfy` (`Coordinator`): the counting loop at the end of `main`, as a class with
  the counter, the done flag and an exited flag as fields, specified by a step function
  `Step` and its iteration `Replay`; lemmas give the state after any number of signals in
  closed form.
- `worker.dfy` (`Worker`): `processTask` as a method. Each subprocess start is a boolean
  outcome, and the screenshot command's outcome is recorded; what each turn of the worker's
  `select` found (a dequeued task with its outcomes, or an empty queue with the flag's value)
  is the method's input. The method returns the trace of what the worker did: subprocesses
  started (with their command lines), screenshots taken, subprocesses killed, and values sent
  on the completion channel. It is proved equal to the specification `WorkerTrace`, about
  which the lemmas state signal accounting, resource discipline and which display each
  command addresses.
- `dispatch.dfy` (`Dispatch`): the shared task queue. A run is an interleaving of the
  producer's sends and the workers' turns; the queue is first-in first-out, a turn takes its
  head when there is one and otherwise reads the done flag. This decides what every worker's
  turns find, and the lemmas show that the URLs are handed out in list order and, once some
  worker has left its loop, that the workers took each URL exactly once between them.
- `accounting.dfy` (`Accounting`): ties the workers' signals to the coordinator's exit, for
  any workers that took all tasks between them and for whole runs over the shared queue.

The model follows the code where it departs from what the code evidently intends:

- The task queue is created with capacity `workerCount` (webscrot.go:152), so the producer
  can block until workers take URLs. Only blocking is affected; the interleaving in
  `Dispatch` does not bound the number of queued URLs.
- With no task at all the coordinator never sets the done flag and never exits (see
  Findings), although the countdown to `-workerCount` (webscrot.go:179) and the message
  announcing that the workers are being terminated (webscrot.go:185) show that the workers
  are meant to be stopped and the process ended once every signal has arrived.
- The coordinator cannot tell a task signal from a termination signal. A worker whose display
  or window manager fails early sends its `false` while tasks are still counted, so the flag can
  be set before every task is done. The total is unaffected: the exit comes on signal number
  `taskCount + workerCount` whatever the order (`Coordinator.ExitAfterAllSignals` does not
  look at signal values).

## Model

| member | source | states |
|---|---|---|
| `Naming.NatToDecimal` | webscrot.go:81 | the rendering of a natural number is a non-empty digit string with no leading zero |
| `Naming.IntDecimalRoundTrip` | webscrot.go:81 | reading back the `%d` rendering of any integer, negative ones included, gives the integer |
| `Naming.IntToDecimalInjective` | webscrot.go:81 | two integers with the same rendering are equal |
| `Naming.Wrap64` | webscrot.go:81 | the sum computed in Go's `int` lies in the 64-bit range, equals the exact sum whenever that fits, and differs from it by a multiple of 2^64 |
| `Naming.Wrap64Injective` | webscrot.go:81 | two sums less than 2^64 apart wrap to distinct values |
| `Naming.DisplayName` | webscrot.go:81 | a display name is a colon followed by at least one character |
| `Naming.DisplayNameRoundTrip` | webscrot.go:81 | the text after the colon is a decimal number whose value is `id + displayNumberOffset` wrapped to 64 bits, which is the sum itself whenever it fits |
| `Naming.DistinctWorkersDistinctDisplays` | webscrot.go:166-167 | workers with distinct ids in `1..workerCount`, the count being a Go `int`, get distinct display names for every offset, wrap-around included |
| `Naming.ScreenGeometryFields` | webscrot.go:83 | the display server's screen argument splits at its first two `x` into the renderings of the width and the height, which read back as the configured values, followed by the depth `16` |
| `Naming.SanitizeFrom` | webscrot.go:114-116 | the output has only letters, digits and hyphens, never two hyphens in a row, is no longer than the input, and does not start with a hyphen when continuing a replaced run |
| `Naming.Sanitize` | webscrot.go:114-116 | the token has only letters, digits and single hyphens, and contains no `/` |
| `Naming.SanitizeKeepsAlnums` | webscrot.go:114-116 | deleting the hyphens from the token gives exactly the URL's letters and digits, in their order |
| `Naming.TokenIsFixed` | webscrot.go:114-116 | a string of letters, digits and single hyphens is left unchanged |
| `Naming.FixedPointsAreTokens` | webscrot.go:114-116 | a string is left unchanged by the sanitiser if and only if it is such a token |
| `Naming.SanitizeIdempotent` | webscrot.go:114-116 | sanitising twice equals sanitising once |
| `Naming.SanitizeEnds` | webscrot.go:114-116 | the token is empty only for the empty URL, starts with a hyphen iff the URL starts with a non-alphanumeric character, and ends with one iff the URL does |
| `Naming.SanitizeIsMaskedSqueeze` | webscrot.go:114-116 | the sanitiser equals the reference: replace each non-alphanumeric character by a hyphen, then squeeze each run of hyphens to one |
| `Naming.SeparatorsCollide` | webscrot.go:116 | two URLs that differ only where both have non-alphanumeric characters get the same token |
| `Naming.FileName` | webscrot.go:116 | the file name has no `/` when the configured prefix, suffix and extension have none |
| `Naming.BrowserUrlInjective` | webscrot.go:108 | the browser address `urlPrefix + url + urlSuffix` determines the URL: equal addresses iff equal URLs |
| `Naming.ScreenshotPathCollision` | webscrot.go:116 | two URLs get the same screenshot path iff their tokens are equal |
| `Naming.ScreenshotStaysInOutputDir` | webscrot.go:116 | the path is `outputPath + "/"` followed by `filenamePrefix + token + filenameSuffix + "." + filenameExtension`, which holds no `/` when the configured parts hold none |
| `Coordinator.Step` | webscrot.go:177-188 | one signal lowers the counter by exactly one, never clears the done flag, and changes nothing after exit |
| `Coordinator.ReplayFromStart` | webscrot.go:175-190 | after `n` signals the counter is `taskCount - n` (until exit), the flag is set iff `taskCount >= 1` and `n >= taskCount`, and exit has happened iff `taskCount >= 1`, `workerCount >= 1` and `n >= taskCount + workerCount` |
| `Coordinator.SignalDecrements` | webscrot.go:177-188 | every signal received before exit lowers the counter by one, so the counter is `taskCount - n` |
| `Coordinator.JobDoneAfterAllTasks` | webscrot.go:183-187 | with at least one task the flag is set exactly from the `taskCount`-th signal on |
| `Coordinator.JobDoneNeverReset` | webscrot.go:178-187 | once set, the flag stays set |
| `Coordinator.ExitAfterAllSignals` | webscrot.go:178-182 | with at least one task and one worker, exit happens exactly at the `taskCount + workerCount`-th signal |
| `Coordinator.ZeroTasksNeverExit` | webscrot.go:183-187 | with no task the counter is `-n` after `n` signals, the flag is never set and the coordinator never exits |
| `Coordinator.ReplayFromCorrectedStart` | webscrot.go:175-190 | from the corrected start the state after `n` signals has the same closed form with the flag set iff `n >= taskCount`, zero tasks included |
| `Coordinator.CorrectedExitAfterAllSignals` | webscrot.go:175-190 | from the corrected start, exit happens exactly at the `taskCount + workerCount`-th signal for every task count, and the corrected start equals the original one whenever there is a task |
| `Coordinator.Coordinator.constructor` | webscrot.go:160 | the counter starts at the number of tasks with the flag clear and nothing received |
| `Coordinator.Coordinator.Receive` | webscrot.go:177-188 | a received signal, whatever its value, moves the state one `Step` and lowers the counter by one |
| `Coordinator.Coordinator.Run` | webscrot.go:175-190 | signals are consumed until exit or until none is left, and when the run brings the exit it stops right after signal number `taskCount + workerCount`; afterwards the flag is set iff `taskCount >= 1` and at least `taskCount` signals were received, and exit happened iff there are tasks and workers and `taskCount + workerCount` were received |
| `Worker.TaskTrace` | webscrot.go:106-127 | a task's pipeline sends exactly one signal, `true`, as its last action, and starts the browser exactly when the browser start succeeds |
| `Worker.CleanupTrace` | webscrot.go:135-144 | the cleanup only kills, kills the window manager iff its handle is set and the display iff its handle is set, never a browser, and with both set kills the window manager first |
| `Worker.TaskCommandLines` | webscrot.go:108-119 | the browser opens `urlPrefix + url + urlSuffix` in full screen, the screenshot goes to the task's screenshot path and its outcome is recorded, and both address the worker's display |
| `Worker.TraceUsesOwnDisplay` | webscrot.go:81-116 | every subprocess a worker starts (the display server with its display as first argument, the window manager, the browser) and every screenshot it takes address the worker's own display |
| `Worker.WorkersShareNoDisplay` | webscrot.go:166-167 | no start or screenshot of one worker addresses the display of a worker with another id |
| `Worker.TaskLoop` | webscrot.go:104-133 | the loop's actions and whether it was left equal the specification `LoopTrace` of its polls |
| `Worker.ProcessTask` | webscrot.go:80-147 | the worker's whole trace equals the specification `WorkerTrace` |
| `Worker.LoopLeftOnlyWhenDone` | webscrot.go:128-131 | the task loop is left iff some turn finds the queue empty while the done flag is set |
| `Worker.LoopSignals` | webscrot.go:106-127 | the loop sends exactly one `true` per dequeued task, whether the browser fails to start or the screenshot fails, and nothing else |
| `Worker.RunningWorkerSignals` | webscrot.go:104-146 | a worker whose subprocesses started sends one `true` per task taken and, iff its loop is left, a final `false` as its last action |
| `Worker.WorkerSignals` | webscrot.go:86-146 | a worker sends one `true` per task it takes and, iff it finishes, exactly one `false`, which is its last action |
| `Worker.DisplayFailure` | webscrot.go:86-91 | if the display server fails the worker starts nothing else, takes no task, cleans nothing up and only sends `false` |
| `Worker.WindowManagerFailure` | webscrot.go:95-99 | if the window manager fails, only the display is killed, no task is taken and `false` is sent |
| `Worker.NormalCleanupOrder` | webscrot.go:135-146 | after the loop is left the window manager is killed, then the display, then `false` is sent |
| `Worker.TaskDisciplined` | webscrot.go:108-126 | a task's pipeline starts the browser only on a running display and window manager, captures while it runs, kills it before the `true` signal, and leaves the running set unchanged |
| `Worker.LoopDisciplined` | webscrot.go:104-133 | any number of loop turns leaves the display and window manager running and no browser |
| `Worker.RunningWorkerDisciplined` | webscrot.go:104-146 | a worker whose subprocesses started keeps the display and window manager running through its loop and, once the loop is left, leaves nothing running |
| `Worker.CleanupDisciplined` | webscrot.go:135-146 | the cleanup after the loop kills the window manager before the display it needs and sends the final signal with nothing running |
| `Worker.WorkerDisciplined` | webscrot.go:86-146 | a worker only kills what is running, never kills a subprocess another one needs (so the window manager goes before the display), never signals while a browser runs, and once finished leaves nothing running |
| `Dispatch.DealIsFifo` | webscrot.go:171-173 | the URLs taken over a run by the workers' receives (line 106) are a prefix of the queued URLs followed by those still to send: the queue hands them out in list order |
| `Dispatch.NothingLeftToDeal` | webscrot.go:104-131 | with nothing queued and nothing left to send, every turn finds the queue empty |
| `Dispatch.DoneMeansDrained` | webscrot.go:128-131 | when the flag is read as set only after the producer is done, a turn that finds the queue empty with the flag set comes after every URL was taken, in order, and no later turn takes a task |
| `Dispatch.SharesPartitionTheRun` | webscrot.go:104-131 | what the workers take in their loops, counted together, is exactly what the run took from the queue |
| `Dispatch.EveryTaskTakenOnce` | webscrot.go:104-131 | once some worker leaves its loop, the run has taken every URL in list order and the workers between them took each URL exactly once |
| `Dispatch.LoneWorkerTakesAllInOrder` | webscrot.go:104-131 | a single worker that leaves its loop has taken every URL, in list order |
| `Accounting.TotalSignalsCount` | webscrot.go:104-146 | the workers together send one signal per task taken plus one per finished worker |
| `Accounting.CoordinatorExitsOnLastSignal` | webscrot.go:175-190 | when every worker has finished and the workers took all `taskCount` tasks between them, they send exactly `taskCount + workerCount` signals and the coordinator exits on the last one and not before |
| `Accounting.NoRunningWorkerNoExit` | webscrot.go:86-99 | if no worker gets both its display and window manager running, the workers send only `workerCount` signals, so with at least one task the coordinator never reaches its exit (`Bye!` and `os.Exit(0)`); every goroutine is then blocked on a channel |
| `Accounting.TotalTakenIsShares` | webscrot.go:104-131 | counted worker by worker, the tasks taken by the workers of a queue run are their shares of the queue |
| `Accounting.QueueRunTakesAll` | webscrot.go:104-131 | in a run over the shared queue where some worker reaches its loop and every worker finishes, the workers take each URL exactly once and all of them have sent their final signal |
| `Accounting.QueueRunExits` | webscrot.go:166-190 | in such a run the workers send exactly `taskCount + workerCount` signals and the coordinator exits on the last of them and on no earlier one |

## Left out

- `prepareTasks` (reading the URL list as lines or as a JSON array) is not part of this model: it consists of standard-library scanning and JSON decoding.
- Subprocesses: starting, killing and waiting for Xvfb, ratpoison, midori and `import` is reduced to whether each start succeeded; the screenshot's outcome only changes a log line, so the trace records the capture with its outcome and goes on the same way. The working directory given to `import` is not modelled.
- Concurrency: goroutines, the busy-polling `select` with a `default` branch and the unsynchronised reads and write of the global done flag are reduced to a sequence of events (`Dispatch.Event`): producer sends and worker turns, one at a time. The value of the done flag a turn reads is free, except that it is read as set only after the producer has sent every URL (`Dispatch.FlagAfterProducer`); it is not tied to the coordinator's counter. `Accounting.CoordinatorExitsOnLastSignal` takes as given that the workers took every task between them; `Accounting.QueueRunExits` proves it for runs over the shared queue.
- Channel capacities and blocking: the task queue holds only `workerCount` URLs and the completion channel `taskCount + workerCount` values; the model does not bound either, so a run may queue more URLs than the channel would hold.
- Go's runtime deadlock detector: when every goroutine is blocked on a channel, Go aborts the process with a fatal error and exit status 2. This happens when no worker reaches its loop and there is a task (`Accounting.NoRunningWorkerNoExit`: the coordinator waits for signals that never come), and when the worker count is 0 (with a task the producer's first send on a queue of capacity 0 never completes; without one the coordinator waits for a signal nobody sends). The model only shows that the coordinator's own exit is never reached; the abort is not modelled.
- A negative worker count makes channel creation panic; the model takes the worker count as a natural number.
- `time.Sleep` delays (the settle delays and the render delay), flag parsing, log output and `os.Exit` itself (the model records exit as a flag after which nothing is received).
- `Worker.ProcessTask`: the code loops for ever; given a finite sequence of polls, the method returns the trace so far when the polls run out before the loop is left.
- The sanitiser works on Unicode characters; Go matches on runes decoded from UTF-8, with each invalid byte read as one non-alphanumeric character, which gives the same token.

## Findings

| source | as written | input that shows it | evidently intended | confidence | as-written member | corrected member |
|---|---|---|---|---|---|---|
| webscrot.go:183-187 | the counter starts at `taskCount` with the done flag clear, and only a phase-1 signal that brings it to exactly 0 sets the flag | an empty URL list (`taskCount = 0`) with one or more workers: the first signal takes the counter to -1, the flag is never set, idle workers never leave their loop and the process never exits | with no task the done flag holds from the start, so the coordinator exits after the `workerCount` termination signals | high; not executed | `Coordinator.ZeroTasksNeverExit` | `Coordinator.CorrectedExitAfterAllSignals` |

The coordinator class and the accounting lemmas use the start state of the code. For one
or more tasks it equals the corrected start; `Coordinator.CorrectedExitAfterAllSignals`
proves that.
