/** The shared task queue. `main` sends the URLs on one channel in list order while the
    workers poll it; a turn of a worker's `select` takes the head of the queue when there is
    one and otherwise reads the done flag. A run is an interleaving of the producer's sends
    and the workers' turns, and it decides what each worker's polls find. */
module Dispatch {
  import opened Worker

  datatype Event =
    | Enqueue
      // the producer sends the next URL; once every URL is sent this changes nothing
    | Turn(worker: nat, jobDone: bool, launched: bool, captured: bool)
      // one turn of worker `worker` (0-based): the done flag's value if the queue is empty,
      // and how the task goes if one is taken

  /** One turn as the worker saw it. */
  datatype Visit = Visit(worker: nat, poll: Poll)

  /** The turns of a run, with `pending` the URLs the producer has still to send and `queue`
      those waiting in the channel, oldest first. */
  function Deal(pending: seq<string>, queue: seq<string>, events: seq<Event>): seq<Visit>
    decreases |events|
  {
    if events == [] then []
    else match events[0]
      case Enqueue =>
        if pending == [] then Deal(pending, queue, events[1..])
        else Deal(pending[1..], queue + [pending[0]], events[1..])
      case Turn(k, flag, launched, captured) =>
        if queue != [] then
          [Visit(k, Dequeued(Attempt(queue[0], launched, captured)))]
          + Deal(pending, queue[1..], events[1..])
        else [Visit(k, Idle(flag))] + Deal(pending, queue, events[1..])
  }

  /** The done flag is seen set only after the producer has sent every URL: the coordinator
      loop that sets it starts after the producer loop. */
  predicate FlagAfterProducer(pending: seq<string>, events: seq<Event>)
    decreases |events|
  {
    events == [] ||
    match events[0]
      case Enqueue =>
        FlagAfterProducer(if pending == [] then [] else pending[1..], events[1..])
      case Turn(_, flag, _, _) =>
        (flag ==> pending == []) && FlagAfterProducer(pending, events[1..])
  }

  /** Every turn of the run belongs to a worker of `workers`. */
  predicate TurnsBy(events: seq<Event>, workers: set<nat>) {
    forall i :: 0 <= i < |events| && events[i].Turn? ==> events[i].worker in workers
  }

  /** The URLs taken from the queue over the whole run, in the order they were taken. */
  function DealtUrls(v: seq<Visit>): seq<string>
    decreases |v|
  {
    if v == [] then []
    else (if v[0].poll.Dequeued? then [v[0].poll.attempt.url] else []) + DealtUrls(v[1..])
  }

  /** What worker `k`'s polls found, in order. */
  function PollsOf(v: seq<Visit>, k: nat): seq<Poll>
    decreases |v|
  {
    if v == [] then []
    else (if v[0].worker == k then [v[0].poll] else []) + PollsOf(v[1..], k)
  }

  /** The URLs workers `lo` up to `hi - 1` take in their task loops, counted together. */
  function TakenBy(v: seq<Visit>, lo: nat, hi: nat): multiset<string>
    decreases hi - lo
  {
    if lo >= hi then multiset{} else multiset(Taken(PollsOf(v, lo))) + TakenBy(v, lo + 1, hi)
  }

  /** Once some turn finds the queue empty and the flag set, no turn takes a task any more. */
  predicate NoDequeueAfterDone(v: seq<Visit>) {
    forall i, j :: 0 <= i < j < |v| && v[i].poll == Idle(true) ==> !v[j].poll.Dequeued?
  }

  // ---------------------------------------------------------------------------
  // The queue is first-in first-out
  // ---------------------------------------------------------------------------

  /** The URLs are taken in the order they were queued and sent: what the run takes is a
      prefix of the queue followed by the URLs still to send. */
  lemma {:induction false} DealIsFifo(pending: seq<string>, queue: seq<string>, events: seq<Event>)
    ensures var d := DealtUrls(Deal(pending, queue, events));
            |d| <= |queue + pending| && d == (queue + pending)[..|d|]
    decreases |events|
  {
    if events != [] {
      match events[0]
      case Enqueue =>
        if pending != [] {
          assert (queue + [pending[0]]) + pending[1..] == queue + pending;
          DealIsFifo(pending[1..], queue + [pending[0]], events[1..]);
        } else {
          DealIsFifo(pending, queue, events[1..]);
        }
      case Turn(k, flag, launched, captured) =>
        var v := Deal(pending, queue, events);
        if queue != [] {
          var rest := Deal(pending, queue[1..], events[1..]);
          assert v[1..] == rest;
          DealIsFifo(pending, queue[1..], events[1..]);
          assert queue + pending == [queue[0]] + (queue[1..] + pending);
        } else {
          var rest := Deal(pending, queue, events[1..]);
          assert v[1..] == rest;
          DealIsFifo(pending, queue, events[1..]);
        }
    }
  }

  /** With nothing queued and nothing left to send, no turn takes a task. */
  lemma {:induction false} NothingLeftToDeal(events: seq<Event>)
    ensures var v := Deal([], [], events);
            (forall j :: 0 <= j < |v| ==> !v[j].poll.Dequeued?) && DealtUrls(v) == []
    decreases |events|
  {
    if events != [] {
      NothingLeftToDeal(events[1..]);
      var v := Deal([], [], events);
      if events[0].Turn? {
        assert v[1..] == Deal([], [], events[1..]);
      }
    }
  }

  /** When some turn finds the queue empty with the flag set, every URL has been taken, in
      order, and no turn takes a task after that one. */
  lemma {:induction false} DoneMeansDrained(pending: seq<string>, queue: seq<string>,
                                            events: seq<Event>)
    requires FlagAfterProducer(pending, events)
    ensures var v := Deal(pending, queue, events);
            NoDequeueAfterDone(v)
            && ((exists i :: 0 <= i < |v| && v[i].poll == Idle(true)) ==>
                  DealtUrls(v) == queue + pending)
    decreases |events|
  {
    if events != [] {
      var v := Deal(pending, queue, events);
      match events[0]
      case Enqueue =>
        if pending != [] {
          assert (queue + [pending[0]]) + pending[1..] == queue + pending;
          DoneMeansDrained(pending[1..], queue + [pending[0]], events[1..]);
        } else {
          DoneMeansDrained(pending, queue, events[1..]);
        }
      case Turn(k, flag, launched, captured) =>
        var q' := if queue != [] then queue[1..] else queue;
        var rest := Deal(pending, q', events[1..]);
        assert v == [v[0]] + rest;
        DoneMeansDrained(pending, q', events[1..]);
        if v[0].poll == Idle(true) {
          assert queue == [] && pending == [];
          NothingLeftToDeal(events[1..]);
        }
        forall i, j | 0 <= i < j < |v| && v[i].poll == Idle(true)
          ensures !v[j].poll.Dequeued?
        {
          if i > 0 {
            assert rest[i - 1] == v[i] && rest[j - 1] == v[j];
          } else {
            assert rest[j - 1] == v[j];
          }
        }
        if exists i :: 0 <= i < |v| && v[i].poll == Idle(true) {
          var i :| 0 <= i < |v| && v[i].poll == Idle(true);
          if i > 0 {
            assert rest[i - 1].poll == Idle(true);
            if queue != [] {
              assert queue + pending == [queue[0]] + (queue[1..] + pending);
            }
          }
        }
    }
  }

  // ---------------------------------------------------------------------------
  // Each worker's share
  // ---------------------------------------------------------------------------

  lemma {:induction false} TurnsOfWorkers(pending: seq<string>, queue: seq<string>,
                                          events: seq<Event>, workers: set<nat>)
    requires TurnsBy(events, workers)
    ensures var v := Deal(pending, queue, events);
            forall j :: 0 <= j < |v| ==> v[j].worker in workers
    decreases |events|
  {
    if events != [] {
      assert TurnsBy(events[1..], workers) by {
        forall i | 0 <= i < |events[1..]| && events[1..][i].Turn?
          ensures events[1..][i].worker in workers
        {
          assert events[1..][i] == events[i + 1];
        }
      }
      match events[0]
      case Enqueue =>
        if pending != [] {
          TurnsOfWorkers(pending[1..], queue + [pending[0]], events[1..], workers);
          assert Deal(pending, queue, events) == Deal(pending[1..], queue + [pending[0]], events[1..]);
        } else {
          TurnsOfWorkers(pending, queue, events[1..], workers);
          assert Deal(pending, queue, events) == Deal(pending, queue, events[1..]);
        }
      case Turn(k, flag, launched, captured) =>
        var q' := if queue != [] then queue[1..] else queue;
        TurnsOfWorkers(pending, q', events[1..], workers);
        var v := Deal(pending, queue, events);
        assert v[1..] == Deal(pending, q', events[1..]);
        assert v[0].worker == events[0].worker;
        forall j | 1 <= j < |v| ensures v[j].worker in workers {
          assert v[j] == v[1..][j - 1];
        }
    }
  }

  /** A worker that has no turn finds nothing. */
  lemma {:induction false} NoTurnNoPolls(v: seq<Visit>, k: nat)
    requires forall j :: 0 <= j < |v| ==> v[j].worker != k
    ensures PollsOf(v, k) == []
    decreases |v|
  {
    if v != [] {
      NoTurnNoPolls(v[1..], k);
    }
  }

  /** A worker whose turns take no task takes none in its loop. */
  lemma {:induction false} NoDequeueTakesNothing(v: seq<Visit>, k: nat)
    requires forall j :: 0 <= j < |v| ==> !v[j].poll.Dequeued?
    ensures Taken(PollsOf(v, k)) == [] && DealtUrls(v) == []
    decreases |v|
  {
    if v != [] {
      NoDequeueTakesNothing(v[1..], k);
      var p := PollsOf(v, k);
      assert v[0].poll.Idle?;
      if v[0].worker == k {
        assert p == [v[0].poll] + PollsOf(v[1..], k);
        assert p[0] == v[0].poll && p[1..] == PollsOf(v[1..], k);
      } else {
        assert p == PollsOf(v[1..], k);
      }
    }
  }

  /** What a worker sees in one of its polls happened in some turn of the run. */
  lemma {:induction false} PollsOfTurn(v: seq<Visit>, k: nat, i: nat)
    requires i < |PollsOf(v, k)|
    ensures exists j :: 0 <= j < |v| && v[j].worker == k && v[j].poll == PollsOf(v, k)[i]
    decreases |v|
  {
    var p := PollsOf(v, k);
    if v[0].worker == k && i == 0 {
      assert v[0].poll == p[0];
    } else {
      var i' := if v[0].worker == k then i - 1 else i;
      assert p[i] == PollsOf(v[1..], k)[i'];
      PollsOfTurn(v[1..], k, i');
      var j :| 0 <= j < |v[1..]| && v[1..][j].worker == k && v[1..][j].poll == p[i];
      assert v[j + 1] == v[1..][j];
    }
  }

  /** The task a turn takes, if any and if the turn belongs to one of workers `lo` up to
      `hi - 1`. */
  function TurnTask(x: Visit, lo: nat, hi: nat): multiset<string> {
    if x.poll.Dequeued? && lo <= x.worker < hi then multiset{x.poll.attempt.url} else multiset{}
  }

  /** What one worker takes over a run is what it takes after the first turn, plus the first
      turn's task if that turn is its own. */
  lemma FirstTurnShare(v: seq<Visit>, k: nat)
    requires v != []
    requires v[0].poll == Idle(true) ==> forall j :: 1 <= j < |v| ==> !v[j].poll.Dequeued?
    ensures multiset(Taken(PollsOf(v, k)))
            == TurnTask(v[0], k, k + 1) + multiset(Taken(PollsOf(v[1..], k)))
  {
    var p := PollsOf(v, k);
    var rest := PollsOf(v[1..], k);
    if v[0].worker == k {
      assert p == [v[0].poll] + rest;
      assert p[0] == v[0].poll && p[1..] == rest;
      if v[0].poll == Idle(true) {
        forall j | 0 <= j < |v[1..]| ensures !v[1..][j].poll.Dequeued? {
          assert v[1..][j] == v[j + 1];
        }
        NoDequeueTakesNothing(v[1..], k);
      } else if v[0].poll.Dequeued? {
        assert Taken(p) == [v[0].poll.attempt.url] + Taken(rest);
      } else {
        assert Taken(p) == Taken(rest);
      }
    } else {
      assert p == rest;
    }
  }

  /** The tasks taken by workers `lo` up to `hi - 1` over a run are those taken after the
      first turn, plus the first turn's task if it belongs to one of them. */
  lemma {:induction false} TakenByFirst(v: seq<Visit>, lo: nat, hi: nat)
    requires v != []
    requires v[0].poll == Idle(true) ==> forall j :: 1 <= j < |v| ==> !v[j].poll.Dequeued?
    ensures TakenBy(v, lo, hi)
            == TurnTask(v[0], lo, hi) + TakenBy(v[1..], lo, hi)
    decreases hi - lo
  {
    if lo < hi {
      TakenByFirst(v, lo + 1, hi);
      FirstTurnShare(v, lo);
      Regroup(TurnTask(v[0], lo, lo + 1), TurnTask(v[0], lo + 1, hi),
              multiset(Taken(PollsOf(v[1..], lo))), TakenBy(v[1..], lo + 1, hi));
      assert TurnTask(v[0], lo, hi) == TurnTask(v[0], lo, lo + 1) + TurnTask(v[0], lo + 1, hi);
    }
  }

  lemma Regroup(x: multiset<string>, y: multiset<string>, a: multiset<string>, b: multiset<string>)
    ensures (x + a) + (y + b) == (x + y) + (a + b)
  {
  }

  /** Between them, the workers take exactly the URLs taken from the queue: each once. */
  lemma {:induction false} SharesPartitionTheRun(v: seq<Visit>, workerCount: nat)
    requires NoDequeueAfterDone(v)
    requires forall j :: 0 <= j < |v| ==> v[j].worker < workerCount
    ensures TakenBy(v, 0, workerCount) == multiset(DealtUrls(v))
    decreases |v|
  {
    if v == [] {
      ZeroTakenBy(v, 0, workerCount);
    } else {
      assert NoDequeueAfterDone(v[1..]) by {
        forall i, j | 0 <= i < j < |v[1..]| && v[1..][i].poll == Idle(true)
          ensures !v[1..][j].poll.Dequeued?
        {
          assert v[1..][i] == v[i + 1] && v[1..][j] == v[j + 1];
        }
      }
      if v[0].poll == Idle(true) {
        forall j | 1 <= j < |v| ensures !v[j].poll.Dequeued? {
          assert 0 < j;
        }
      }
      TakenByFirst(v, 0, workerCount);
      SharesPartitionTheRun(v[1..], workerCount);
    }
  }

  lemma {:induction false} ZeroTakenBy(v: seq<Visit>, lo: nat, hi: nat)
    requires v == []
    ensures TakenBy(v, lo, hi) == multiset{}
    decreases hi - lo
  {
    if lo < hi {
      ZeroTakenBy(v, lo + 1, hi);
    }
  }

  // ---------------------------------------------------------------------------
  // Whole runs
  // ---------------------------------------------------------------------------

  /** In a run where the flag is seen set only after the producer is done, and some worker
      leaves its loop, the workers between them take every URL of the list exactly once,
      and the queue hands them out in list order. */
  lemma EveryTaskTakenOnce(tasks: seq<string>, events: seq<Event>, workerCount: nat,
                           workers: set<nat>)
    requires FlagAfterProducer(tasks, events)
    requires forall k :: k in workers ==> k < workerCount
    requires TurnsBy(events, workers)
    requires exists k :: k in workers && SeesDoneWhenIdle(PollsOf(Deal(tasks, [], events), k))
    ensures var v := Deal(tasks, [], events);
            DealtUrls(v) == tasks && TakenBy(v, 0, workerCount) == multiset(tasks)
  {
    var v := Deal(tasks, [], events);
    var k :| k in workers && SeesDoneWhenIdle(PollsOf(v, k));
    var i :| 0 <= i < |PollsOf(v, k)| && PollsOf(v, k)[i] == Idle(true);
    PollsOfTurn(v, k, i);
    DoneMeansDrained(tasks, [], events);
    assert [] + tasks == tasks;
    TurnsOfWorkers(tasks, [], events, workers);
    SharesPartitionTheRun(v, workerCount);
  }

  /** A lone worker that leaves its loop has taken every URL, in list order. */
  lemma LoneWorkerTakesAllInOrder(tasks: seq<string>, events: seq<Event>)
    requires FlagAfterProducer(tasks, events)
    requires TurnsBy(events, {0})
    requires SeesDoneWhenIdle(PollsOf(Deal(tasks, [], events), 0))
    ensures Taken(PollsOf(Deal(tasks, [], events), 0)) == tasks
  {
    var v := Deal(tasks, [], events);
    var i :| 0 <= i < |PollsOf(v, 0)| && PollsOf(v, 0)[i] == Idle(true);
    PollsOfTurn(v, 0, i);
    DoneMeansDrained(tasks, [], events);
    assert [] + tasks == tasks;
    TurnsOfWorkers(tasks, [], events, {0});
    SoleWorkerTakesDealt(v);
  }

  lemma {:induction false} SoleWorkerTakesDealt(v: seq<Visit>)
    requires NoDequeueAfterDone(v)
    requires forall j :: 0 <= j < |v| ==> v[j].worker == 0
    ensures Taken(PollsOf(v, 0)) == DealtUrls(v)
    decreases |v|
  {
    if v != [] {
      assert NoDequeueAfterDone(v[1..]) by {
        forall i, j | 0 <= i < j < |v[1..]| && v[1..][i].poll == Idle(true)
          ensures !v[1..][j].poll.Dequeued?
        {
          assert v[1..][i] == v[i + 1] && v[1..][j] == v[j + 1];
        }
      }
      SoleWorkerTakesDealt(v[1..]);
      var p := PollsOf(v, 0);
      assert p[1..] == PollsOf(v[1..], 0);
      if v[0].poll == Idle(true) {
        forall j | 0 <= j < |v[1..]| ensures !v[1..][j].poll.Dequeued? {
          assert v[1..][j] == v[j + 1];
        }
        NoDequeueTakesNothing(v[1..], 0);
      }
    }
  }
}
