/** One worker (`processTask`): it starts a virtual display and a window manager on its own
    display number, then turns a polling loop that either takes a task from the queue and
    runs the capture pipeline or, finding the queue empty, leaves once the done flag is set;
    it then kills what it started and sends one final signal.

    Subprocesses are reduced to whether they started; the queue and the done flag are
    reduced to what each turn of the worker's `select` found. What the worker does is
    recorded as a trace of actions, the values it sends on the completion channel included. */
module Worker {
  import opened Naming

  datatype Option<T> = None | Some(value: T)

  /** The long-running subprocesses a worker owns. */
  datatype Resource = Display | WindowManager | Browser

  datatype Action =
    | Start(resource: Resource, args: seq<string>)  // a subprocess was started with these arguments
    | Capture(args: seq<string>, succeeded: bool)   // the screenshot command ran, with its outcome
    | Kill(resource: Resource)                      // a subprocess was killed and waited for
    | Send(signal: bool)                            // a value was sent on the completion channel

  /** How one task went: whether the browser started, and whether the screenshot command
      succeeded (a failure there is only logged and changes nothing else). */
  datatype Attempt = Attempt(url: string, launched: bool, captured: bool)

  /** What one turn of the `select` found: a task from the queue, or an empty queue together
      with the value the done flag had then. */
  datatype Poll = Dequeued(attempt: Attempt) | Idle(jobDone: bool)

  // ---------------------------------------------------------------------------
  // Command lines
  // ---------------------------------------------------------------------------

  function DisplayArgs(display: string, cfg: Config): seq<string> {
    [display, "-screen", "0", ScreenGeometry(cfg)]
  }

  function WindowManagerArgs(display: string): seq<string> {
    ["-d", display]
  }

  function BrowserArgs(display: string, cfg: Config, url: string): seq<string> {
    ["--display", display, "-e", "Fullscreen", "-a", BrowserUrl(cfg, url)]
  }

  function CaptureArgs(display: string, cfg: Config, url: string): seq<string> {
    ["-display", display, "-window", "root", ScreenshotPath(cfg, url)]
  }

  // ---------------------------------------------------------------------------
  // Specification of the worker
  // ---------------------------------------------------------------------------

  /** The capture pipeline for one dequeued task: it ends with its only signal, `true`, and
      it starts a browser exactly when the browser start succeeds. */
  function TaskTrace(display: string, cfg: Config, a: Attempt): (r: seq<Action>)
    ensures |r| >= 1 && r[|r| - 1] == Send(true)
    ensures forall i :: 0 <= i < |r| - 1 ==> !r[i].Send?
    ensures Start(Browser, BrowserArgs(display, cfg, a.url)) in r <==> a.launched
  {
    if !a.launched then [Send(true)]
    else [Start(Browser, BrowserArgs(display, cfg, a.url)),
          Capture(CaptureArgs(display, cfg, a.url), a.captured),
          Kill(Browser),
          Send(true)]
  }

  /** What the task loop does from a given turn on, and whether it is left. */
  datatype LoopOutcome = LoopOutcome(actions: seq<Action>, left: bool)

  function LoopTrace(display: string, cfg: Config, polls: seq<Poll>): LoopOutcome
    decreases |polls|
  {
    if polls == [] then LoopOutcome([], false)
    else match polls[0]
      case Dequeued(a) =>
        var rest := LoopTrace(display, cfg, polls[1..]);
        LoopOutcome(TaskTrace(display, cfg, a) + rest.actions, rest.left)
      case Idle(jobDone) =>
        if jobDone then LoopOutcome([], true) else LoopTrace(display, cfg, polls[1..])
  }

  /** The cleanup section: kill each subprocess whose handle is still set, window manager
      first, and nothing else. */
  function CleanupTrace(wmLive: bool, displayLive: bool): (r: seq<Action>)
    ensures forall i :: 0 <= i < |r| ==> r[i].Kill?
    ensures Kill(WindowManager) in r <==> wmLive
    ensures Kill(Display) in r <==> displayLive
    ensures Kill(Browser) !in r
    ensures wmLive && displayLive ==> r == [Kill(WindowManager), Kill(Display)]
  {
    (if wmLive then [Kill(WindowManager)] else [])
    + (if displayLive then [Kill(Display)] else [])
  }

  /** Everything worker `id` does, given whether its display server and its window manager
      start and what its polls find. */
  function WorkerTrace(id: int, cfg: Config, displayStarts: bool, wmStarts: bool,
                       polls: seq<Poll>): seq<Action>
  {
    var display := DisplayName(id, cfg.displayNumberOffset);
    if !displayStarts then [Send(false)]
    else if !wmStarts then
      [Start(Display, DisplayArgs(display, cfg))] + CleanupTrace(false, true) + [Send(false)]
    else
      var loop := LoopTrace(display, cfg, polls);
      [Start(Display, DisplayArgs(display, cfg)), Start(WindowManager, WindowManagerArgs(display))]
      + loop.actions
      + (if loop.left then CleanupTrace(true, true) + [Send(false)] else [])
  }

  // ---------------------------------------------------------------------------
  // Which display each command addresses
  // ---------------------------------------------------------------------------

  /** The X display an action addresses: the display server serves its first argument, the
      window manager, the browser and the screenshot command take the argument after their
      display option. Kills and signals address none. */
  function AddressedDisplay(x: Action): Option<string> {
    match x
    case Start(r, args) =>
      if r == Display then (if |args| >= 1 then Some(args[0]) else None)
      else if |args| >= 2 then Some(args[1]) else None
    case Capture(args, _) => if |args| >= 2 then Some(args[1]) else None
    case Kill(_) => None
    case Send(_) => None
  }

  /** Every start and every screenshot of `t` addresses `display`. */
  predicate AddressesOnly(t: seq<Action>, display: string) {
    forall i :: 0 <= i < |t| ==>
      AddressedDisplay(t[i]) == (if t[i].Start? || t[i].Capture? then Some(display) else None)
  }

  /** The browser opens the configured address of the task's URL in full screen, and the
      screenshot, whose outcome is recorded, goes to the task's screenshot path. */
  lemma TaskCommandLines(display: string, cfg: Config, a: Attempt)
    requires a.launched
    ensures var t := TaskTrace(display, cfg, a);
            |t| == 4 && t[0].Start? && t[0].resource == Browser && t[1].Capture?
            && var b := t[0].args; var c := t[1].args;
            |b| >= 1 && b[|b| - 1] == BrowserUrl(cfg, a.url) && "Fullscreen" in b
            && |c| >= 1 && c[|c| - 1] == ScreenshotPath(cfg, a.url)
            && t[1].succeeded == a.captured
            && AddressesOnly(t, display)
  {
    var b := BrowserArgs(display, cfg, a.url);
    assert b[3] == "Fullscreen";
  }

  lemma AddressesOnlyAppend(a: seq<Action>, b: seq<Action>, display: string)
    requires AddressesOnly(a, display) && AddressesOnly(b, display)
    ensures AddressesOnly(a + b, display)
  {
    forall i | 0 <= i < |a + b|
      ensures AddressedDisplay((a + b)[i])
              == (if (a + b)[i].Start? || (a + b)[i].Capture? then Some(display) else None)
    {
      if i < |a| {
        assert (a + b)[i] == a[i];
      } else {
        assert (a + b)[i] == b[i - |a|];
      }
    }
  }

  lemma {:induction false} LoopAddressesOnly(display: string, cfg: Config, polls: seq<Poll>)
    ensures AddressesOnly(LoopTrace(display, cfg, polls).actions, display)
    decreases |polls|
  {
    if polls != [] {
      LoopAddressesOnly(display, cfg, polls[1..]);
      match polls[0]
      case Dequeued(a) =>
        var t := TaskTrace(display, cfg, a);
        var rest := LoopTrace(display, cfg, polls[1..]).actions;
        assert AddressesOnly(t, display);
        AddressesOnlyAppend(t, rest, display);
      case Idle(jobDone) =>
    }
  }

  /** Every subprocess a worker starts, and every screenshot it takes, addresses the
      worker's own display. */
  lemma TraceUsesOwnDisplay(id: int, cfg: Config, displayStarts: bool, wmStarts: bool,
                            polls: seq<Poll>)
    ensures AddressesOnly(WorkerTrace(id, cfg, displayStarts, wmStarts, polls),
                          DisplayName(id, cfg.displayNumberOffset))
  {
    var display := DisplayName(id, cfg.displayNumberOffset);
    if displayStarts && wmStarts {
      var loop := LoopTrace(display, cfg, polls);
      var head := [Start(Display, DisplayArgs(display, cfg)),
                   Start(WindowManager, WindowManagerArgs(display))];
      var tail := if loop.left then CleanupTrace(true, true) + [Send(false)] else [];
      LoopAddressesOnly(display, cfg, polls);
      assert AddressesOnly(head, display);
      assert AddressesOnly(tail, display);
      AddressesOnlyAppend(head, loop.actions, display);
      AddressesOnlyAppend(head + loop.actions, tail, display);
    }
  }

  /** Two workers with distinct ids never address the same display: no start or screenshot
      of one reaches the display of the other. */
  lemma WorkersShareNoDisplay(i: int, j: int, workerCount: nat, cfg: Config,
                              ds1: bool, ws1: bool, polls1: seq<Poll>,
                              ds2: bool, ws2: bool, polls2: seq<Poll>)
    requires workerCount <= Int64Max
    requires 1 <= i <= workerCount && 1 <= j <= workerCount && i != j
    ensures var t1 := WorkerTrace(i, cfg, ds1, ws1, polls1);
            var t2 := WorkerTrace(j, cfg, ds2, ws2, polls2);
            forall x, y :: x in t1 && y in t2 && AddressedDisplay(x).Some? ==>
              AddressedDisplay(x) != AddressedDisplay(y)
  {
    TraceUsesOwnDisplay(i, cfg, ds1, ws1, polls1);
    TraceUsesOwnDisplay(j, cfg, ds2, ws2, polls2);
    DistinctWorkersDistinctDisplays(i, j, workerCount, cfg.displayNumberOffset);
  }

  // ---------------------------------------------------------------------------
  // The worker
  // ---------------------------------------------------------------------------

  /** The `for`/`select` loop of `processTask`: each turn either runs the pipeline for a
      dequeued task or, on an empty queue, leaves if the done flag is set. Returns what was
      done and whether the loop was left (otherwise the polls ran out while it still turns). */
  method TaskLoop(display: string, cfg: Config, polls: seq<Poll>)
    returns (actions: seq<Action>, left: bool)
    ensures LoopOutcome(actions, left) == LoopTrace(display, cfg, polls)
  {
    actions := [];
    var i := 0;
    while i < |polls|
      invariant 0 <= i <= |polls|
      invariant LoopTrace(display, cfg, polls)
                == LoopOutcome(actions + LoopTrace(display, cfg, polls[i..]).actions,
                               LoopTrace(display, cfg, polls[i..]).left)
    {
      assert polls[i..][1..] == polls[i + 1..];
      match polls[i] {
        case Dequeued(a) =>
          if !a.launched {
            actions := actions + [Send(true)];
          } else {
            actions := actions + [Start(Browser, BrowserArgs(display, cfg, a.url)),
                                  Capture(CaptureArgs(display, cfg, a.url), a.captured),
                                  Kill(Browser),
                                  Send(true)];
          }
        case Idle(jobDone) =>
          if jobDone {
            return actions, true;
          }
      }
      i := i + 1;
    }
    left := false;
  }

  /** `processTask`: start the display, then the window manager, run the task loop, clean up
      and send the final signal. A failed start clears that handle and jumps ahead, as the
      code's `goto`s do. If the polls run out before the loop is left, the worker is still
      polling and the trace so far is returned. */
  method ProcessTask(id: int, cfg: Config, displayStarts: bool, wmStarts: bool,
                     polls: seq<Poll>) returns (trace: seq<Action>)
    ensures trace == WorkerTrace(id, cfg, displayStarts, wmStarts, polls)
  {
    var display := DisplayName(id, cfg.displayNumberOffset);
    var displayLive := true;  // the display handle is set
    var wmLive := true;       // the window-manager handle is set
    trace := [];
    label done: {
      label cleanup: {
        if !displayStarts {
          displayLive := false;
          break done;
        }
        trace := trace + [Start(Display, DisplayArgs(display, cfg))];
        if !wmStarts {
          wmLive := false;
          break cleanup;
        }
        trace := trace + [Start(WindowManager, WindowManagerArgs(display))];
        var actions, left := TaskLoop(display, cfg, polls);
        trace := trace + actions;
        if !left {
          return;
        }
      }
      if wmLive {
        trace := trace + [Kill(WindowManager)];
      }
      if displayLive {
        trace := trace + [Kill(Display)];
      }
    }
    trace := trace + [Send(false)];
  }

  // ---------------------------------------------------------------------------
  // Signals
  // ---------------------------------------------------------------------------

  /** The values sent on the completion channel, in order. */
  function Signals(t: seq<Action>): seq<bool> {
    if t == [] then []
    else (if t[0].Send? then [t[0].signal] else []) + Signals(t[1..])
  }

  lemma {:induction false} SignalsAppend(a: seq<Action>, b: seq<Action>)
    ensures Signals(a + b) == Signals(a) + Signals(b)
    decreases |a|
  {
    if a != [] {
      assert (a + b)[0] == a[0];
      assert (a + b)[1..] == a[1..] + b;
      SignalsAppend(a[1..], b);
    } else {
      assert a + b == b;
    }
  }

  lemma {:induction false} SignalsNone(t: seq<Action>)
    requires forall i :: 0 <= i < |t| ==> !t[i].Send?
    ensures Signals(t) == []
    decreases |t|
  {
    if t != [] {
      SignalsNone(t[1..]);
    }
  }

  /** A trace whose only signal is its last action sends just that value. */
  lemma SignalsLast(t: seq<Action>, b: bool)
    requires |t| >= 1 && t[|t| - 1] == Send(b)
    requires forall i :: 0 <= i < |t| - 1 ==> !t[i].Send?
    ensures Signals(t) == [b]
  {
    var init := t[..|t| - 1];
    assert t == init + [Send(b)];
    SignalsAppend(init, [Send(b)]);
    SignalsNone(init);
    assert [Send(b)][1..] == [];
  }

  function Trues(n: nat): seq<bool> {
    seq(n, _ => true)
  }

  /** The URLs the loop takes from the queue before it is left. */
  function Taken(polls: seq<Poll>): seq<string>
    decreases |polls|
  {
    if polls == [] then []
    else match polls[0]
      case Dequeued(a) => [a.url] + Taken(polls[1..])
      case Idle(jobDone) => if jobDone then [] else Taken(polls[1..])
  }

  /** Some turn finds the queue empty while the done flag is set. */
  predicate SeesDoneWhenIdle(polls: seq<Poll>) {
    exists i :: 0 <= i < |polls| && polls[i] == Idle(true)
  }

  /** The loop is left exactly when a turn finds the queue empty and the done flag set. */
  lemma {:induction false} LoopLeftOnlyWhenDone(display: string, cfg: Config, polls: seq<Poll>)
    ensures LoopTrace(display, cfg, polls).left <==> SeesDoneWhenIdle(polls)
    decreases |polls|
  {
    if polls != [] {
      LoopLeftOnlyWhenDone(display, cfg, polls[1..]);
      if SeesDoneWhenIdle(polls[1..]) {
        var i :| 0 <= i < |polls[1..]| && polls[1..][i] == Idle(true);
        assert polls[i + 1] == Idle(true);
      }
      if SeesDoneWhenIdle(polls) && polls[0] != Idle(true) {
        var i :| 0 <= i < |polls| && polls[i] == Idle(true);
        assert polls[1..][i - 1] == Idle(true);
      }
    }
  }

  /** Each dequeued task yields exactly one `true`, whatever failed in its pipeline. */
  lemma {:induction false} LoopSignals(display: string, cfg: Config, polls: seq<Poll>)
    ensures Signals(LoopTrace(display, cfg, polls).actions) == Trues(|Taken(polls)|)
    decreases |polls|
  {
    if polls != [] {
      LoopSignals(display, cfg, polls[1..]);
      match polls[0]
      case Dequeued(a) =>
        var rest := LoopTrace(display, cfg, polls[1..]).actions;
        SignalsAppend(TaskTrace(display, cfg, a), rest);
        var t := TaskTrace(display, cfg, a);
        SignalsLast(t, true);
        assert Trues(|Taken(polls)|) == [true] + Trues(|Taken(polls[1..])|);
      case Idle(jobDone) =>
    }
  }

  /** Whether the worker has reached its final signal. */
  predicate Finished(displayStarts: bool, wmStarts: bool, polls: seq<Poll>) {
    !displayStarts || !wmStarts || SeesDoneWhenIdle(polls)
  }

  /** How many tasks the worker takes: none unless both its subprocesses started. */
  function TakenCount(displayStarts: bool, wmStarts: bool, polls: seq<Poll>): nat {
    if displayStarts && wmStarts then |Taken(polls)| else 0
  }

  /** A worker sends one `true` per task it takes and, once finished, exactly one `false`,
      which is also its last action. */
  lemma WorkerSignals(id: int, cfg: Config, displayStarts: bool, wmStarts: bool, polls: seq<Poll>)
    ensures var t := WorkerTrace(id, cfg, displayStarts, wmStarts, polls);
            var finished := Finished(displayStarts, wmStarts, polls);
            Signals(t) == Trues(TakenCount(displayStarts, wmStarts, polls))
                          + (if finished then [false] else [])
            && (finished ==> t != [] && t[|t| - 1] == Send(false))
  {
    var t := WorkerTrace(id, cfg, displayStarts, wmStarts, polls);
    if !displayStarts {
      assert Signals(t) == [false];
    } else if !wmStarts {
      SignalsLast(t, false);
    } else {
      var display := DisplayName(id, cfg.displayNumberOffset);
      LoopLeftOnlyWhenDone(display, cfg, polls);
      RunningWorkerSignals(display, cfg, polls);
    }
  }

  /** The signals of a worker whose display server and window manager both started. */
  lemma RunningWorkerSignals(display: string, cfg: Config, polls: seq<Poll>)
    ensures var loop := LoopTrace(display, cfg, polls);
            var head := [Start(Display, DisplayArgs(display, cfg)),
                         Start(WindowManager, WindowManagerArgs(display))];
            var t := head + loop.actions
                     + (if loop.left then CleanupTrace(true, true) + [Send(false)] else []);
            Signals(t) == Trues(|Taken(polls)|) + (if loop.left then [false] else [])
            && (loop.left ==> t[|t| - 1] == Send(false))
  {
    var loop := LoopTrace(display, cfg, polls);
    var head := [Start(Display, DisplayArgs(display, cfg)),
                 Start(WindowManager, WindowManagerArgs(display))];
    var tail := if loop.left then CleanupTrace(true, true) + [Send(false)] else [];
    LoopSignals(display, cfg, polls);
    SignalsAppend(head, loop.actions);
    SignalsAppend(head + loop.actions, tail);
    SignalsNone(head);
    if loop.left {
      SignalsLast(tail, false);
    }
  }

  /** A worker whose display server fails starts nothing else, takes no task, cleans
      nothing up and only sends its final signal. */
  lemma DisplayFailure(id: int, cfg: Config, wmStarts: bool, polls: seq<Poll>)
    ensures WorkerTrace(id, cfg, false, wmStarts, polls) == [Send(false)]
  {
  }

  /** A worker whose window manager fails kills only its display, takes no task and sends
      its final signal. */
  lemma WindowManagerFailure(id: int, cfg: Config, polls: seq<Poll>)
    ensures var display := DisplayName(id, cfg.displayNumberOffset);
            WorkerTrace(id, cfg, true, false, polls)
            == [Start(Display, DisplayArgs(display, cfg)), Kill(Display), Send(false)]
  {
  }

  /** After the loop is left, the window manager is killed, then the display, then the
      final signal is sent. */
  lemma NormalCleanupOrder(id: int, cfg: Config, polls: seq<Poll>)
    requires SeesDoneWhenIdle(polls)
    ensures var t := WorkerTrace(id, cfg, true, true, polls);
            |t| >= 5 && t[|t| - 3..] == [Kill(WindowManager), Kill(Display), Send(false)]
  {
    var display := DisplayName(id, cfg.displayNumberOffset);
    LoopLeftOnlyWhenDone(display, cfg, polls);
  }

  // ---------------------------------------------------------------------------
  // Resource discipline
  // ---------------------------------------------------------------------------

  /** What must be running before a subprocess starts and until it is killed. */
  function Needs(r: Resource): set<Resource> {
    match r
    case Display => {}
    case WindowManager => {Display}
    case Browser => {Display, WindowManager}
  }

  /** The running subprocesses after one action, or None when the action starts something
      already running or whose prerequisites are not running, kills something not running
      or still needed by another running subprocess, captures without a browser, or sends
      a signal while a browser is running. */
  function StepLive(x: Action, live: set<Resource>): Option<set<Resource>> {
    match x
    case Start(r, _) =>
      if r in live || !(Needs(r) <= live) then None else Some(live + {r})
    case Kill(r) =>
      if r !in live || exists q :: q in live && r in Needs(q) then None else Some(live - {r})
    case Capture(_, _) =>
      if Browser !in live then None else Some(live)
    case Send(_) =>
      if Browser in live then None else Some(live)
  }

  /** Replays a trace over the set of running subprocesses; None if some action breaks the
      discipline StepLive states. */
  function LiveAfter(t: seq<Action>, live: set<Resource>): Option<set<Resource>>
    decreases |t|
  {
    if t == [] then Some(live)
    else match StepLive(t[0], live)
      case None => None
      case Some(next) => LiveAfter(t[1..], next)
  }

  lemma {:induction false} LiveAfterAppend(a: seq<Action>, b: seq<Action>, live: set<Resource>)
    requires LiveAfter(a, live).Some?
    ensures LiveAfter(a + b, live) == LiveAfter(b, LiveAfter(a, live).value)
    decreases |a|
  {
    if a == [] {
      assert a + b == b;
    } else {
      assert (a + b)[1..] == a[1..] + b;
      assert (a + b)[0] == a[0];
      LiveAfterAppend(a[1..], b, StepLive(a[0], live).value);
    }
  }

  /** Replaying a trace one action longer takes one more step. */
  lemma LiveAfterSnoc(t: seq<Action>, x: Action, live: set<Resource>)
    requires LiveAfter(t, live).Some?
    ensures LiveAfter(t + [x], live) == StepLive(x, LiveAfter(t, live).value)
  {
    LiveAfterAppend(t, [x], live);
    assert [x][1..] == [];
  }

  /** The pipeline of one task leaves the set of running subprocesses as it found it. */
  lemma TaskDisciplined(display: string, cfg: Config, a: Attempt)
    ensures LiveAfter(TaskTrace(display, cfg, a), {Display, WindowManager})
            == Some({Display, WindowManager})
  {
    var live: set<Resource> := {Display, WindowManager};
    var t := TaskTrace(display, cfg, a);
    if a.launched {
      var withBrowser := live + {Browser};
      assert LiveAfter(t[..1], live) == Some(withBrowser) by {
        assert t[..1][1..] == [];
      }
      LiveAfterSnoc(t[..1], t[1], live);
      assert t[..2] == t[..1] + [t[1]];
      assert !exists q :: q in withBrowser && Browser in Needs(q);
      LiveAfterSnoc(t[..2], t[2], live);
      assert t[..3] == t[..2] + [t[2]];
      assert withBrowser - {Browser} == live;
      LiveAfterSnoc(t[..3], t[3], live);
      assert t == t[..3] + [t[3]];
    }
  }

  lemma {:induction false} LoopDisciplined(display: string, cfg: Config, polls: seq<Poll>)
    ensures LiveAfter(LoopTrace(display, cfg, polls).actions, {Display, WindowManager})
            == Some({Display, WindowManager})
    decreases |polls|
  {
    if polls != [] {
      LoopDisciplined(display, cfg, polls[1..]);
      match polls[0]
      case Dequeued(a) =>
        TaskDisciplined(display, cfg, a);
        LiveAfterAppend(TaskTrace(display, cfg, a),
                        LoopTrace(display, cfg, polls[1..]).actions, {Display, WindowManager});
      case Idle(jobDone) =>
    }
  }

  /** A worker kills only what it started, in reverse order of starting, never signals while
      a browser runs, and when it finishes nothing it started is left running. */
  lemma WorkerDisciplined(id: int, cfg: Config, displayStarts: bool, wmStarts: bool,
                          polls: seq<Poll>)
    ensures LiveAfter(WorkerTrace(id, cfg, displayStarts, wmStarts, polls), {})
            == Some(if Finished(displayStarts, wmStarts, polls) then {}
                    else {Display, WindowManager})
  {
    var display := DisplayName(id, cfg.displayNumberOffset);
    var t := WorkerTrace(id, cfg, displayStarts, wmStarts, polls);
    var none: set<Resource> := {};
    if !displayStarts {
      assert t[1..] == [];
    } else if !wmStarts {
      assert LiveAfter(t[..1], none) == Some({Display}) by {
        assert t[0] == Start(Display, DisplayArgs(display, cfg));
        assert Needs(Display) <= none && Display !in none;
        assert none + {Display} == {Display};
        assert t[..1][1..] == [];
      }
      LiveAfterSnoc(t[..1], t[1], none);
      assert t[..2] == t[..1] + [t[1]];
      assert {Display} - {Display} == none;
      LiveAfterSnoc(t[..2], t[2], none);
      assert t == t[..2] + [t[2]];
    } else {
      LoopLeftOnlyWhenDone(display, cfg, polls);
      RunningWorkerDisciplined(display, cfg, polls);
    }
  }

  /** The discipline of a worker whose display server and window manager both started. */
  lemma RunningWorkerDisciplined(display: string, cfg: Config, polls: seq<Poll>)
    ensures var loop := LoopTrace(display, cfg, polls);
            var head := [Start(Display, DisplayArgs(display, cfg)),
                         Start(WindowManager, WindowManagerArgs(display))];
            var t := head + loop.actions
                     + (if loop.left then CleanupTrace(true, true) + [Send(false)] else []);
            LiveAfter(t, {}) == Some(if loop.left then {} else {Display, WindowManager})
  {
    var none: set<Resource> := {};
    var both: set<Resource> := {Display, WindowManager};
    var loop := LoopTrace(display, cfg, polls);
    var head := [Start(Display, DisplayArgs(display, cfg)),
                 Start(WindowManager, WindowManagerArgs(display))];
    var tail := if loop.left then CleanupTrace(true, true) + [Send(false)] else [];
    assert LiveAfter(head[..1], none) == Some({Display}) by {
      assert Needs(Display) <= none && Display !in none;
      assert none + {Display} == {Display};
      assert head[..1][1..] == [];
    }
    LiveAfterSnoc(head[..1], head[1], none);
    assert head == head[..1] + [head[1]];
    assert {Display} + {WindowManager} == both;
    LoopDisciplined(display, cfg, polls);
    LiveAfterAppend(head, loop.actions, none);
    LiveAfterAppend(head + loop.actions, tail, none);
    if loop.left {
      CleanupDisciplined();
    }
  }

  /** The cleanup after the loop kills both subprocesses and sends the final signal with
      nothing left running. */
  lemma CleanupDisciplined()
    ensures LiveAfter(CleanupTrace(true, true) + [Send(false)], {Display, WindowManager})
            == Some({})
  {
    var none: set<Resource> := {};
    var both: set<Resource> := {Display, WindowManager};
    var tail := CleanupTrace(true, true) + [Send(false)];
    assert LiveAfter(tail[..1], both) == Some({Display}) by {
      assert !exists q :: q in both && WindowManager in Needs(q);
      assert both - {WindowManager} == {Display};
      assert tail[..1][1..] == [];
    }
    LiveAfterSnoc(tail[..1], tail[1], both);
    assert tail[..2] == tail[..1] + [tail[1]];
    assert {Display} - {Display} == none;
    LiveAfterSnoc(tail[..2], tail[2], both);
    assert tail == tail[..2] + [tail[2]];
  }
}
