/** The shutdown coordinator at the end of `main`: it counts completion signals on one
    counter that starts at the number of tasks. While the done flag is clear, a signal that
    brings the counter to zero sets the flag; once the flag is set, a signal that brings the
    counter to minus the worker count ends the process. The value a signal carries is never
    looked at. */
module Coordinator {

  /** The coordinator's state: its counter, the shared done flag, and whether it has exited. */
  datatype State = State(counter: int, jobDone: bool, exited: bool)

  /** The state before any signal, as the code sets it up. */
  function Start(taskCount: nat): State {
    State(taskCount, false, false)
  }

  /** The effect of one received signal. Nothing is received after exit. */
  function Step(s: State, workerCount: nat): (r: State)
    ensures s.exited ==> r == s
    ensures !s.exited ==> r.counter == s.counter - 1
    ensures s.jobDone ==> r.jobDone
  {
    if s.exited then s
    else if s.jobDone then State(s.counter - 1, true, s.counter - 1 == -(workerCount as int))
    else State(s.counter - 1, s.counter - 1 == 0, false)
  }

  /** The state after `n` signals received from state `s`. */
  function Replay(s: State, workerCount: nat, n: nat): State
    decreases n
  {
    if n == 0 then s else Step(Replay(s, workerCount, n - 1), workerCount)
  }

  /** Whether the coordinator ever exits: only with at least one task and one worker. */
  predicate Terminates(taskCount: nat, workerCount: nat) {
    taskCount >= 1 && workerCount >= 1
  }

  /** The state after `n` signals, in closed form. */
  lemma {:induction false} ReplayFromStart(taskCount: nat, workerCount: nat, n: nat)
    ensures var s := Replay(Start(taskCount), workerCount, n);
            var stop := Terminates(taskCount, workerCount) && n >= taskCount + workerCount;
            s.counter == (if stop then -(workerCount as int) else taskCount - n)
            && s.jobDone == (taskCount >= 1 && n >= taskCount)
            && s.exited == stop
    decreases n
  {
    if n > 0 {
      ReplayFromStart(taskCount, workerCount, n - 1);
    }
  }

  /** Every signal received before exit lowers the counter by exactly one, and the flag,
      once set, is never cleared. */
  lemma SignalDecrements(taskCount: nat, workerCount: nat, n: nat)
    requires !Replay(Start(taskCount), workerCount, n).exited
    ensures Replay(Start(taskCount), workerCount, n + 1).counter
            == Replay(Start(taskCount), workerCount, n).counter - 1
    ensures Replay(Start(taskCount), workerCount, n).counter == taskCount - n
  {
    ReplayFromStart(taskCount, workerCount, n);
  }

  /** With at least one task the done flag is set by exactly the `taskCount`-th signal. */
  lemma JobDoneAfterAllTasks(taskCount: nat, workerCount: nat, n: nat)
    requires taskCount >= 1
    ensures Replay(Start(taskCount), workerCount, n).jobDone <==> n >= taskCount
  {
    ReplayFromStart(taskCount, workerCount, n);
  }

  /** The done flag, once set, stays set. */
  lemma JobDoneNeverReset(taskCount: nat, workerCount: nat, m: nat, n: nat)
    requires m <= n && Replay(Start(taskCount), workerCount, m).jobDone
    ensures Replay(Start(taskCount), workerCount, n).jobDone
  {
    ReplayFromStart(taskCount, workerCount, m);
    ReplayFromStart(taskCount, workerCount, n);
  }

  /** With at least one task and one worker, the coordinator exits on exactly the
      `taskCount + workerCount`-th signal. */
  lemma ExitAfterAllSignals(taskCount: nat, workerCount: nat, n: nat)
    requires taskCount >= 1 && workerCount >= 1
    ensures Replay(Start(taskCount), workerCount, n).exited <==> n >= taskCount + workerCount
  {
    ReplayFromStart(taskCount, workerCount, n);
  }

  /** With no task the counter only falls below zero: the flag is never set and the
      coordinator never exits, whatever number of signals arrives. */
  lemma ZeroTasksNeverExit(workerCount: nat, n: nat)
    ensures var s := Replay(Start(0), workerCount, n);
            s.counter == -(n as int) && !s.jobDone && !s.exited
  {
    ReplayFromStart(0, workerCount, n);
  }

  /** A start state that sets the flag at once when there is no task, so that the
      termination signals are counted from the beginning. */
  function CorrectedStart(taskCount: nat): State {
    State(taskCount, taskCount == 0, false)
  }

  lemma {:induction false} ReplayFromCorrectedStart(taskCount: nat, workerCount: nat, n: nat)
    requires workerCount >= 1
    ensures var s := Replay(CorrectedStart(taskCount), workerCount, n);
            var stop := n >= taskCount + workerCount;
            s.counter == (if stop then -(workerCount as int) else taskCount - n)
            && s.jobDone == (n >= taskCount)
            && s.exited == stop
    decreases n
  {
    if n > 0 {
      ReplayFromCorrectedStart(taskCount, workerCount, n - 1);
    }
  }

  /** From the corrected start, any number of tasks (zero included) and at least one worker,
      the coordinator exits on exactly the `taskCount + workerCount`-th signal. */
  lemma CorrectedExitAfterAllSignals(taskCount: nat, workerCount: nat, n: nat)
    requires workerCount >= 1
    ensures Replay(CorrectedStart(taskCount), workerCount, n).exited
            <==> n >= taskCount + workerCount
    ensures taskCount >= 1 ==> CorrectedStart(taskCount) == Start(taskCount)
  {
    ReplayFromCorrectedStart(taskCount, workerCount, n);
  }

  /** The coordinator loop of `main`, with the shared done flag as a field. */
  class Coordinator {
    const taskCount: nat
    const workerCount: nat
    var counter: int
    var jobDone: bool
    var exited: bool
    /** How many signals have been received so far. */
    ghost var received: nat

    ghost predicate Valid()
      reads this
    {
      State(counter, jobDone, exited) == Replay(Start(taskCount), workerCount, received)
    }

    constructor (taskCount: nat, workerCount: nat)
      ensures Valid() && received == 0
      ensures this.taskCount == taskCount && this.workerCount == workerCount
      ensures counter == taskCount && !jobDone && !exited
    {
      this.taskCount := taskCount;
      this.workerCount := workerCount;
      counter := taskCount;
      jobDone := false;
      exited := false;
      received := 0;
    }

    /** One turn of the loop: a signal is received and its value ignored. */
    method Receive(signal: bool)
      requires Valid() && !exited
      modifies this
      ensures Valid() && received == old(received) + 1
      ensures counter == old(counter) - 1
      ensures State(counter, jobDone, exited) == Step(old(State(counter, jobDone, exited)), workerCount)
    {
      if jobDone {
        counter := counter - 1;
        if counter == -(workerCount as int) {
          exited := true;
        }
      } else {
        counter := counter - 1;
        if counter == 0 {
          jobDone := true;
        }
      }
      received := received + 1;
    }

    /** Receives the signals in order until the coordinator exits or none is left;
        returns how many were taken. */
    method Run(signals: seq<bool>) returns (consumed: nat)
      requires Valid()
      modifies this
      ensures Valid() && consumed <= |signals| && received == old(received) + consumed
      ensures consumed < |signals| ==> exited
      ensures old(exited) ==> consumed == 0
      ensures !old(exited) && exited ==> received == taskCount + workerCount
      ensures jobDone <==> taskCount >= 1 && received >= taskCount
      ensures exited <==> Terminates(taskCount, workerCount) && received >= taskCount + workerCount
      ensures !exited ==> counter == taskCount - received
    {
      consumed := 0;
      ReplayFromStart(taskCount, workerCount, received);
      while consumed < |signals| && !exited
        invariant Valid() && consumed <= |signals|
        invariant received == old(received) + consumed
        invariant old(exited) ==> consumed == 0
        invariant !old(exited) && exited ==> received == taskCount + workerCount
        invariant !exited ==> !Terminates(taskCount, workerCount) || received < taskCount + workerCount
      {
        ReplayFromStart(taskCount, workerCount, received);
        ReplayFromStart(taskCount, workerCount, received + 1);
        Receive(signals[consumed]);
        consumed := consumed + 1;
      }
      ReplayFromStart(taskCount, workerCount, received);
    }
  }
}
