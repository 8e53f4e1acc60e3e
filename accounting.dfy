/** The signal accounting between the workers and the coordinator: `main` starts workers
    with ids 1 to the worker count, every worker sends one `true` per task it takes and one
    `false` when it finishes, and the coordinator exits on its `taskCount + workerCount`-th
    signal. */
module Accounting {
  import opened Naming
  import opened Worker
  import C = Coordinator
  import opened Dispatch

  /** What happened to one worker: whether its subprocesses started and what its polls found. */
  datatype WorkerRun = WorkerRun(displayStarts: bool, wmStarts: bool, polls: seq<Poll>)

  /** The signals sent by the workers of `runs`, the first of them having id `firstId`. */
  function TotalSignals(cfg: Config, runs: seq<WorkerRun>, firstId: int): nat
    decreases |runs|
  {
    if runs == [] then 0
    else
      var r := runs[0];
      |Signals(WorkerTrace(firstId, cfg, r.displayStarts, r.wmStarts, r.polls))|
      + TotalSignals(cfg, runs[1..], firstId + 1)
  }

  /** How many tasks the workers of `runs` take. */
  function TotalTaken(runs: seq<WorkerRun>): nat
    decreases |runs|
  {
    if runs == [] then 0
    else TakenCount(runs[0].displayStarts, runs[0].wmStarts, runs[0].polls) + TotalTaken(runs[1..])
  }

  /** How many of the workers of `runs` have sent their final signal. */
  function FinishedCount(runs: seq<WorkerRun>): nat
    decreases |runs|
  {
    if runs == [] then 0
    else (if Finished(runs[0].displayStarts, runs[0].wmStarts, runs[0].polls) then 1 else 0)
         + FinishedCount(runs[1..])
  }

  /** The coordinator receives one signal per task taken and one per finished worker. */
  lemma {:induction false} TotalSignalsCount(cfg: Config, runs: seq<WorkerRun>, firstId: int)
    ensures TotalSignals(cfg, runs, firstId) == TotalTaken(runs) + FinishedCount(runs)
    decreases |runs|
  {
    if runs != [] {
      var r := runs[0];
      WorkerSignals(firstId, cfg, r.displayStarts, r.wmStarts, r.polls);
      TotalSignalsCount(cfg, runs[1..], firstId + 1);
    }
  }

  /** When all workers have finished and between them took every task, the signals they
      sent are exactly the `taskCount + workerCount` the coordinator waits for: it exits on
      the last of them and not before. */
  lemma CoordinatorExitsOnLastSignal(cfg: Config, taskCount: nat, runs: seq<WorkerRun>)
    requires taskCount >= 1 && |runs| >= 1
    requires FinishedCount(runs) == |runs| && TotalTaken(runs) == taskCount
    ensures var n := TotalSignals(cfg, runs, 1);
            n == taskCount + |runs|
            && C.Replay(C.Start(taskCount), |runs|, n).exited
            && !C.Replay(C.Start(taskCount), |runs|, n - 1).exited
  {
    var n := TotalSignals(cfg, runs, 1);
    TotalSignalsCount(cfg, runs, 1);
    C.ExitAfterAllSignals(taskCount, |runs|, n);
    C.ExitAfterAllSignals(taskCount, |runs|, n - 1);
  }

  /** When no worker gets its display and window manager running, no task is taken: the
      workers' final signals fall short of what the coordinator waits for, and it never
      exits. */
  lemma NoRunningWorkerNoExit(cfg: Config, taskCount: nat, runs: seq<WorkerRun>)
    requires taskCount >= 1
    requires forall k :: 0 <= k < |runs| ==> !(runs[k].displayStarts && runs[k].wmStarts)
    ensures var n := TotalSignals(cfg, runs, 1);
            n == |runs| && !C.Replay(C.Start(taskCount), |runs|, n).exited
  {
    NoTaskTaken(runs);
    TotalSignalsCount(cfg, runs, 1);
    C.ReplayFromStart(taskCount, |runs|, |runs|);
  }

  lemma {:induction false} NoTaskTaken(runs: seq<WorkerRun>)
    requires forall k :: 0 <= k < |runs| ==> !(runs[k].displayStarts && runs[k].wmStarts)
    ensures TotalTaken(runs) == 0 && FinishedCount(runs) == |runs|
    decreases |runs|
  {
    if runs != [] {
      NoTaskTaken(runs[1..]);
    }
  }

  // ---------------------------------------------------------------------------
  // Runs over the shared queue
  // ---------------------------------------------------------------------------

  /** Whether a worker's display server and window manager start. */
  datatype Launch = Launch(displayStarts: bool, wmStarts: bool)

  /** The workers (0-based) that reach their task loop. */
  function Running(launches: seq<Launch>): set<nat> {
    set k: nat | k < |launches| && launches[k].displayStarts && launches[k].wmStarts
  }

  /** The workers of a queue run: worker `k`, with id `k + 1`, polls what the run hands it. */
  function QueueRuns(launches: seq<Launch>, v: seq<Visit>): seq<WorkerRun> {
    seq(|launches|, k requires 0 <= k < |launches| =>
          WorkerRun(launches[k].displayStarts, launches[k].wmStarts, PollsOf(v, k)))
  }

  /** The tasks the workers from `lo` on take, counted run by run, are those of their
      shares of the queue. */
  lemma {:induction false} TotalTakenIsShares(launches: seq<Launch>, v: seq<Visit>, lo: nat)
    requires lo <= |launches|
    requires forall j :: 0 <= j < |v| ==> v[j].worker in Running(launches)
    ensures TotalTaken(QueueRuns(launches, v)[lo..]) == |TakenBy(v, lo, |launches|)|
    decreases |launches| - lo
  {
    var runs := QueueRuns(launches, v);
    if lo == |launches| {
      assert runs[lo..] == [];
    } else {
      assert runs[lo..][1..] == runs[lo + 1..];
      TotalTakenIsShares(launches, v, lo + 1);
      if lo !in Running(launches) {
        NoTurnNoPolls(v, lo);
      }
    }
  }

  lemma {:induction false} AllFinished(runs: seq<WorkerRun>)
    requires forall k :: 0 <= k < |runs| ==>
               Finished(runs[k].displayStarts, runs[k].wmStarts, runs[k].polls)
    ensures FinishedCount(runs) == |runs|
    decreases |runs|
  {
    if runs != [] {
      AllFinished(runs[1..]);
    }
  }

  /** A whole run over the shared queue: the producer sends the URLs in order while the
      workers poll, and the done flag is seen set only after the producer is done. If some
      worker reaches its task loop and every worker finishes, the workers between them take
      each URL exactly once. */
  lemma QueueRunTakesAll(tasks: seq<string>, events: seq<Event>, launches: seq<Launch>)
    requires FlagAfterProducer(tasks, events)
    requires TurnsBy(events, Running(launches))
    requires Running(launches) != {}
    requires forall k :: 0 <= k < |launches| ==>
               Finished(launches[k].displayStarts, launches[k].wmStarts,
                        PollsOf(Deal(tasks, [], events), k))
    ensures var v := Deal(tasks, [], events);
            var runs := QueueRuns(launches, v);
            TakenBy(v, 0, |launches|) == multiset(tasks)
            && TotalTaken(runs) == |tasks|
            && FinishedCount(runs) == |runs| == |launches|
  {
    var v := Deal(tasks, [], events);
    var runs := QueueRuns(launches, v);
    var k :| k in Running(launches);
    assert SeesDoneWhenIdle(PollsOf(v, k));
    EveryTaskTakenOnce(tasks, events, |launches|, Running(launches));
    TurnsOfWorkers(tasks, [], events, Running(launches));
    TotalTakenIsShares(launches, v, 0);
    assert runs[0..] == runs;
    AllFinished(runs);
  }

  /** In such a run the workers send exactly `taskCount + workerCount` signals and the
      coordinator exits on the last of them, and on no earlier one. */
  lemma QueueRunExits(cfg: Config, tasks: seq<string>, events: seq<Event>,
                      launches: seq<Launch>)
    requires |tasks| >= 1
    requires FlagAfterProducer(tasks, events)
    requires TurnsBy(events, Running(launches))
    requires Running(launches) != {}
    requires forall k :: 0 <= k < |launches| ==>
               Finished(launches[k].displayStarts, launches[k].wmStarts,
                        PollsOf(Deal(tasks, [], events), k))
    ensures var runs := QueueRuns(launches, Deal(tasks, [], events));
            var n := TotalSignals(cfg, runs, 1);
            n == |tasks| + |launches|
            && C.Replay(C.Start(|tasks|), |launches|, n).exited
            && forall m :: 0 <= m < n ==> !C.Replay(C.Start(|tasks|), |launches|, m).exited
  {
    var runs := QueueRuns(launches, Deal(tasks, [], events));
    QueueRunTakesAll(tasks, events, launches);
    TotalSignalsCount(cfg, runs, 1);
    var n := TotalSignals(cfg, runs, 1);
    C.ExitAfterAllSignals(|tasks|, |launches|, n);
    forall m | 0 <= m < n ensures !C.Replay(C.Start(|tasks|), |launches|, m).exited {
      C.ExitAfterAllSignals(|tasks|, |launches|, m);
    }
  }
}
