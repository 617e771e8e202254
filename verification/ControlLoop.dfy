/** The control plane: status snapshot (status.py), session manager (session.py), command loop (app.py). */
module ControlLoop {
  import opened Options

  // Commands are submitted by any thread and dispatched one at a time by the control thread. How a session start
  // or stop turns out is the environment's choice.

  datatype ToolState = IDLE | RUNNING | PAUSED
  datatype Recent = RecentStopped | RecentCompleted | RecentFailed

  datatype Status = Status(
    tool: ToolState, recent: Option<Recent>, sessionId: Option<nat>, pipeline: Option<string>,
    lastError: Option<string>)

  /** The manager's active session. `completing` once the session refuses pause and resume. */
  datatype Active = Active(id: nat, pipeline: string, paused: bool, completing: bool)

  datatype Command =
    | Start(name: Option<string>)
    | Stop
    | Pause
    | Resume
    | Complete(id: nat, recent: Recent)
    | Shutdown
    | Unknown

  /** How a session's own stop ends; it raises when a cleanup step failed. */
  datatype StopOutcome = StopOutcome(raises: bool, error: Option<string>)

  /** How a session's own start ends: it may fail before or after it published itself as running,
      or raise before touching the status at all. */
  datatype StartOutcome = StartOk | StartFails(published: bool, message: string) | StartRaises(message: string)

  datatype Outcome = Outcome(stop: StopOutcome, start: StartOutcome)

  datatype View = View(active: Option<Active>, status: Status, nextId: nat)

  /** A call and the exception it raised, if any. */
  datatype Effect = Effect(view: View, raised: Option<string>)

  // ----- StatusManager -----

  function SetRunning(s: Status, id: nat, pipeline: string): Status {
    s.(tool := RUNNING, sessionId := Some(id), pipeline := Some(pipeline), lastError := None)
  }

  function SetIdle(s: Status, recent: Recent): Status {
    s.(tool := IDLE, recent := Some(recent), sessionId := None, pipeline := None)
  }

  class StatusManager {
    var snapshot: Status

    constructor ()
      ensures snapshot == Status(IDLE, None, None, None, None)
    {
      snapshot := Status(IDLE, None, None, None, None);
    }

    method MarkRunning(id: nat, pipeline: string)
      modifies this
      ensures snapshot == SetRunning(old(snapshot), id, pipeline)
    {
      snapshot := snapshot.(tool := RUNNING);
      snapshot := snapshot.(sessionId := Some(id), pipeline := Some(pipeline));
      snapshot := snapshot.(lastError := None);
    }

    method MarkPaused()
      modifies this
      ensures snapshot == old(snapshot).(tool := PAUSED)
    {
      snapshot := snapshot.(tool := PAUSED);
    }

    method MarkResumed()
      modifies this
      ensures snapshot == old(snapshot).(tool := RUNNING)
    {
      snapshot := snapshot.(tool := RUNNING);
    }

    method MarkIdle(recent: Recent)
      modifies this
      ensures snapshot == SetIdle(old(snapshot), recent)
    {
      snapshot := snapshot.(tool := IDLE);
      snapshot := snapshot.(recent := Some(recent));
      snapshot := snapshot.(sessionId := None, pipeline := None);
    }

    method SetLastError(e: Option<string>)
      modifies this
      ensures snapshot == old(snapshot).(lastError := e)
    {
      snapshot := snapshot.(lastError := e);
    }
  }

  // ----- What the manager's calls do -----

  function WithError(s: Status, e: Option<string>): Status {
    s.(lastError := e)
  }

  function ManagerStop(v: View, recent: Recent, out: StopOutcome): Effect {
    if v.active.None? then Effect(v, None)
    else
      var s := if out.error.Some? then WithError(v.status, out.error) else v.status;
      Effect(v.(active := None, status := SetIdle(s, if out.raises then RecentFailed else recent)),
             if out.raises then Some(out.error.GetOr("")) else None)
  }

  function ManagerStart(known: set<string>, v: View, name: string, out: Outcome): Effect {
    if name !in known then Effect(v, Some("unknown pipeline"))
    else
      var e := ManagerStop(v, RecentStopped, out.stop);
      if e.raised.Some? then e
      else
        var id, s := v.nextId, e.view.status;
        match out.start
        case StartOk =>
          Effect(View(Some(Active(id, name, false, false)), SetRunning(s, id, name), id + 1), None)
        case StartFails(published, message) =>
          var s1 := if published then SetRunning(s, id, name) else s;
          Effect(View(None, SetIdle(WithError(s1, Some(message)), RecentFailed), id + 1), Some(message))
        case StartRaises(message) => Effect(View(None, s, id + 1), Some(message))
  }

  function ManagerPause(v: View): View {
    if v.active.Some? && !v.active.value.paused && !v.active.value.completing then
      v.(active := Some(v.active.value.(paused := true)), status := v.status.(tool := PAUSED))
    else v
  }

  function ManagerResume(v: View): View {
    if v.active.Some? && v.active.value.paused && !v.active.value.completing then
      v.(active := Some(v.active.value.(paused := false)), status := v.status.(tool := RUNNING))
    else v
  }

  // ----- The application -----

  /** `current` is the command being dispatched and whether its first tests let it act. */
  datatype App = App(
    queue: seq<Command>, current: Option<(Command, bool)>, view: View,
    shutdownRequested: bool, stopEvent: bool, controlStop: bool,
    marking: nat, cleanups: nat)

  /** The tests a command meets before it acts: nothing runs after the stop event, and no start
      once a shutdown was requested or ROS has shut down. */
  predicate MayAct(a: App, c: Command, rosDown: bool) {
    !a.stopEvent && (c.Start? ==> !a.shutdownRequested && !rosDown)
  }

  /** A start without a name, or with an empty one, is for the default pipeline. */
  function Target(name: Option<string>, main: string): string {
    if name.Some? && name.value != "" then name.value else main
  }

  /** What a dispatched command does, given that it may act. */
  function Performed(known: set<string>, main: string, v: View, c: Command, out: Outcome): Effect {
    match c
    case Start(name) => ManagerStart(known, v.(status := WithError(v.status, None)), Target(name, main), out)
    case Stop => ManagerStop(v, RecentStopped, out.stop)
    case Pause => Effect(ManagerPause(v), None)
    case Resume => Effect(ManagerResume(v), None)
    case Complete(id, recent) =>
      if v.active.None? || v.active.value.id != id then Effect(v, None) else ManagerStop(v, recent, out.stop)
    case Shutdown => ManagerStop(v, RecentStopped, out.stop)
    case Unknown => Effect(v, Some("unknown control command"))
  }

  /** The control loop's handler records an exception as the last error. */
  function Handled(e: Effect): View {
    if e.raised.Some? then e.view.(status := WithError(e.view.status, e.raised)) else e.view
  }

  datatype Step =
    | Submit(c: Command)
    | MarkShutdown
    | PutShutdown
    | TakeCommand(rosDown: bool)
    | FinishCommand(out: Outcome)
    | SessionCompletes

  ghost predicate Enabled(a: App, step: Step) {
    match step
    case Submit(c) => !c.Shutdown?
    case MarkShutdown => true
    case PutShutdown => a.marking > 0
    case TakeCommand(_) => !a.controlStop && a.current.None? && a.queue != []
    case FinishCommand(_) => a.current.Some?
    case SessionCompletes => a.view.active.Some?
  }

  function Taken(a: App, rosDown: bool): App
    requires a.queue != []
  {
    var c := a.queue[0];
    var b := a.(queue := a.queue[1..], current := Some((c, MayAct(a, c, rosDown))));
    // a start that finds ROS down submits a shutdown instead
    if c.Start? && !a.stopEvent && !a.shutdownRequested && rosDown then
      b.(shutdownRequested := true, queue := b.queue + [Shutdown])
    else b
  }

  function Finished(known: set<string>, main: string, a: App, out: Outcome): App
    requires a.current.Some?
  {
    var (c, acts) := a.current.value;
    if !acts then a.(current := None)
    else
      var b := a.(current := None, view := Handled(Performed(known, main, a.view, c, out)));
      if c.Shutdown? then b.(stopEvent := true, controlStop := true, cleanups := a.cleanups + 1) else b
  }

  ghost function Apply(known: set<string>, main: string, a: App, step: Step): App
    requires Enabled(a, step)
  {
    match step
    case Submit(c) => a.(queue := a.queue + [c])
    case MarkShutdown => a.(shutdownRequested := true, marking := a.marking + 1)
    case PutShutdown => a.(queue := a.queue + [Shutdown], marking := a.marking - 1)
    case TakeCommand(rosDown) => Taken(a, rosDown)
    case FinishCommand(out) => Finished(known, main, a, out)
    case SessionCompletes => a.(view := a.view.(active := Some(a.view.active.value.(completing := true))))
  }

  ghost predicate Next(known: set<string>, main: string, a: App, b: App) {
    exists step :: Enabled(a, step) && b == Apply(known, main, a, step)
  }

  function Initial(): App {
    App([], None, View(None, Status(IDLE, None, None, None, None), 0), false, false, false, 0, 0)
  }

  ghost predicate IsRun(known: set<string>, main: string, run: seq<App>) {
    && |run| > 0 && run[0] == Initial()
    && forall i :: 0 <= i < |run| - 1 ==> Next(known, main, run[i], run[i + 1])
  }

  function Last(run: seq<App>): App
    requires |run| > 0
  {
    run[|run| - 1]
  }

  // ----- Invariants -----

  /** The published status is the manager's state. */
  ghost predicate Refines(v: View) {
    match v.active
    case None => v.status.tool == IDLE && v.status.sessionId == None && v.status.pipeline == None
    case Some(s) =>
      && v.status.tool == (if s.paused then PAUSED else RUNNING)
      && v.status.sessionId == Some(s.id) && v.status.pipeline == Some(s.pipeline)
      && s.id < v.nextId
  }

  /** A shutdown that was asked for is being put, queued or dispatched until the stop event. */
  ghost predicate ShutdownUnderway(a: App) {
    a.shutdownRequested ==>
      a.stopEvent || a.marking > 0 || Shutdown in a.queue || (a.current.Some? && a.current.value == (Shutdown, true))
  }

  ghost predicate StopState(a: App) {
    && (a.stopEvent <==> a.controlStop) && (a.stopEvent <==> a.cleanups == 1) && a.cleanups <= 1
    && (a.stopEvent ==> a.view.active.None? && a.current.None?)
    && (a.current.Some? && a.current.value.0.Shutdown? ==> a.current.value.1)
    && (!a.shutdownRequested ==>
      a.marking == 0 && Shutdown !in a.queue && !(a.current.Some? && a.current.value.0.Shutdown?) && !a.stopEvent)
  }

  ghost predicate Invariant(a: App) {
    Refines(a.view) && ShutdownUnderway(a) && StopState(a)
  }

  lemma PerformedRefines(known: set<string>, main: string, v: View, c: Command, out: Outcome)
    requires Refines(v)
    ensures Refines(Handled(Performed(known, main, v, c, out)))
  {
  }

  lemma InvariantKept(known: set<string>, main: string, a: App, step: Step)
    requires Enabled(a, step) && Invariant(a)
    ensures Invariant(Apply(known, main, a, step))
  {
    var b := Apply(known, main, a, step);
    match step {
      case FinishCommand(out) => PerformedRefines(known, main, a.view, a.current.value.0, out);
      case TakeCommand(rosDown) =>
        assert a.queue == [a.queue[0]] + a.queue[1..];
      case _ =>
    }
  }

  lemma {:induction false} InvariantHolds(known: set<string>, main: string, run: seq<App>)
    requires IsRun(known, main, run)
    ensures Invariant(Last(run))
  {
    hide Enabled, Apply;
    if |run| > 1 {
      hide Invariant;
      InvariantHolds(known, main, run[..|run| - 1]);
      assert Next(known, main, run[|run| - 2], run[|run| - 2 + 1]);
      var a := run[|run| - 2];
      var step :| Enabled(a, step) && Last(run) == Apply(known, main, a, step);
      InvariantKept(known, main, a, step);
    }
  }

  // ----- Theorems -----

  /** Between commands, however they ended, the status says IDLE exactly without an active session,
      PAUSED exactly when the active session is paused, and names the active session. */
  lemma StatusMatchesManager(known: set<string>, main: string, run: seq<App>)
    requires IsRun(known, main, run)
    ensures var v := Last(run).view;
      && (v.status.tool == IDLE <==> v.active.None?)
      && (v.status.tool == PAUSED <==> v.active.Some? && v.active.value.paused)
      && v.status.sessionId == if v.active.Some? then Some(v.active.value.id) else None
  {
    InvariantHolds(known, main, run);
  }

  /** A requested shutdown is never lost, its cleanup runs at most once, and nothing is active after it. */
  lemma ShutdownIsKept(known: set<string>, main: string, run: seq<App>)
    requires IsRun(known, main, run)
    ensures Last(run).shutdownRequested ==> ShutdownUnderway(Last(run))
    ensures Last(run).cleanups <= 1
    ensures Last(run).stopEvent ==> Last(run).view.active.None? && Last(run).view.status.tool == IDLE
  {
    InvariantHolds(known, main, run);
  }

  /** The command being dispatched is a start that passed its tests. */
  predicate Starting(a: App) {
    a.current.Some? && a.current.value.0.Start? && a.current.value.1
  }

  lemma NoStartBegins(known: set<string>, main: string, a: App, step: Step)
    requires Enabled(a, step) && a.shutdownRequested && !Starting(a)
    ensures var b := Apply(known, main, a, step);
      b.shutdownRequested && !Starting(b) && b.view.nextId == a.view.nextId
  {
  }

  /** After a shutdown request no further session is ever created, unless its start was already under way. */
  lemma {:induction false} NoSessionAfterShutdownRequest(known: set<string>, main: string, run: seq<App>, i: nat)
    requires IsRun(known, main, run) && i < |run| && run[i].shutdownRequested && !Starting(run[i])
    ensures Last(run).view.nextId == run[i].view.nextId && Last(run).shutdownRequested && !Starting(Last(run))
  {
    hide Enabled, Apply, Starting;
    if i < |run| - 1 {
      NoSessionAfterShutdownRequest(known, main, run[..|run| - 1], i);
      assert Next(known, main, run[|run| - 2], run[|run| - 2 + 1]);
      var a := run[|run| - 2];
      var step :| Enabled(a, step) && Last(run) == Apply(known, main, a, step);
      NoStartBegins(known, main, a, step);
    }
  }

  predicate IsActive(v: View, id: nat) {
    v.active.Some? && v.active.value.id == id
  }

  /** How the session plane may evolve: ids only grow, and a session that becomes active is a new one. */
  ghost predicate Evolves(v: View, w: View) {
    && v.nextId <= w.nextId
    && (w.active.Some? ==>
      w.active.value.id < w.nextId
      && (w.active.value.id >= v.nextId
          || (v.active.Some? && w.active.value.id == v.active.value.id
              && w.active.value.pipeline == v.active.value.pipeline)))
  }

  lemma PerformedEvolves(known: set<string>, main: string, v: View, c: Command, out: Outcome)
    requires Refines(v)
    ensures Evolves(v, Handled(Performed(known, main, v, c, out)))
  {
  }

  lemma EvolvesStep(known: set<string>, main: string, a: App, step: Step)
    requires Enabled(a, step) && Refines(a.view)
    ensures Evolves(a.view, Apply(known, main, a, step).view)
  {
    hide Performed, Handled;
    if step.FinishCommand? {
      PerformedEvolves(known, main, a.view, a.current.value.0, step.out);
    }
  }

  /** Over any stretch of a run, ids only grow, and the active session at the end is either the one at the
      beginning or one started in between. */
  lemma {:induction false} SessionsEvolve(known: set<string>, main: string, run: seq<App>, i: nat)
    requires IsRun(known, main, run) && i < |run|
    ensures Evolves(run[i].view, Last(run).view)
  {
    hide Enabled, Apply;
    if i == |run| - 1 {
      InvariantHolds(known, main, run);
    } else {
      var before := run[..|run| - 1];
      SessionsEvolve(known, main, before, i);
      InvariantHolds(known, main, before);
      assert Next(known, main, run[|run| - 2], run[|run| - 2 + 1]);
      var a := run[|run| - 2];
      var step :| Enabled(a, step) && Last(run) == Apply(known, main, a, step);
      EvolvesStep(known, main, a, step);
    }
  }

  /** The command being dispatched, whatever its first tests said. */
  predicate Dispatching(a: App, c: Command) {
    a.current.Some? && a.current.value.0 == c
  }

  lemma CompleteStep(known: set<string>, main: string, a: App, step: Step, id: nat, recent: Recent)
    requires Enabled(a, step) && Dispatching(a, Complete(id, recent))
    ensures var b := Apply(known, main, a, step);
      a.view.active.Some? && a.view.active.value.id != id ==> IsActive(b.view, a.view.active.value.id)
    ensures step.FinishCommand? && a.current.value.1 && IsActive(a.view, id) ==>
      Apply(known, main, a, step).view.active.None?
  {
  }

  /** A complete command of an earlier session never stops a newer one: when the active session at the
      dispatch is not the one that was active at `i`, it is newer and stays active. */
  lemma StaleCompleteIgnored(known: set<string>, main: string, run: seq<App>, i: nat, j: nat, recent: Recent)
    requires IsRun(known, main, run) && i <= j < |run| - 1 && run[i].view.active.Some?
    requires Dispatching(run[j], Complete(run[i].view.active.value.id, recent))
    ensures var earlier, now := run[i].view.active.value.id, run[j].view.active;
      now.Some? && now.value.id != earlier ==> earlier < now.value.id && IsActive(run[j + 1].view, now.value.id)
  {
    hide Enabled, Apply;
    var upto := run[..j + 1];
    assert Last(upto) == run[j] && upto[i] == run[i];
    SessionsEvolve(known, main, upto, i);
    var start := run[..i + 1];
    assert Last(start) == run[i];
    InvariantHolds(known, main, start);
    assert Next(known, main, run[j], run[j + 1]);
    var step :| Enabled(run[j], step) && run[j + 1] == Apply(known, main, run[j], step);
    CompleteStep(known, main, run[j], step, run[i].view.active.value.id, recent);
  }

  /** A session that has ended, or never became active, stays ended: its complete command, dispatched at
      any later time, changes nothing at all. */
  lemma RetiredSessionStays(known: set<string>, main: string, run: seq<App>, i: nat, id: nat,
                            recent: Recent, out: Outcome)
    requires IsRun(known, main, run) && i < |run| && id < run[i].view.nextId && !IsActive(run[i].view, id)
    ensures !IsActive(Last(run).view, id)
    ensures Handled(Performed(known, main, Last(run).view, Complete(id, recent), out)) == Last(run).view
  {
    SessionsEvolve(known, main, run, i);
  }

  /** The same session in the same pause state, and the same view apart from the error text. */
  predicate SameSession(v: View, w: View) {
    && v.nextId == w.nextId && w.status == WithError(v.status, w.status.lastError)
    && (v.active.Some? <==> w.active.Some?)
    && (v.active.Some? ==> w.active.value == v.active.value.(completing := w.active.value.completing))
  }

  lemma UnknownStep(known: set<string>, main: string, a: App, step: Step, name: Option<string>)
    requires Enabled(a, step) && Dispatching(a, Start(name)) && Target(name, main) !in known
    ensures SameSession(a.view, Apply(known, main, a, step).view)
  {
  }

  /** While a start of an unknown pipeline is dispatched, by name or by an unknown default, session, pause
      state and view stay as they are; only the error text is set. The status goes on matching. */
  lemma UnknownPipelineKeepsSession(known: set<string>, main: string, run: seq<App>, j: nat, name: Option<string>)
    requires IsRun(known, main, run) && j < |run| - 1
    requires Dispatching(run[j], Start(name)) && Target(name, main) !in known
    ensures SameSession(run[j].view, run[j + 1].view) && Refines(run[j + 1].view)
  {
    hide Enabled, Apply;
    assert Next(known, main, run[j], run[j + 1]);
    var step :| Enabled(run[j], step) && run[j + 1] == Apply(known, main, run[j], step);
    UnknownStep(known, main, run[j], step, name);
    var upto := run[..j + 2];
    assert Last(upto) == run[j + 1];
    InvariantHolds(known, main, upto);
  }

  /** A shutdown is marked before it is queued: one that is queued or being dispatched has been marked. */
  lemma ShutdownMarkedFirst(known: set<string>, main: string, run: seq<App>)
    requires IsRun(known, main, run)
    ensures Shutdown in Last(run).queue || Dispatching(Last(run), Shutdown) ==> Last(run).shutdownRequested
  {
    InvariantHolds(known, main, run);
  }

  /** The control thread on its own: take and finish commands with the given outcomes. */
  function Serve(known: set<string>, main: string, a: App, outs: seq<(bool, Outcome)>): App
    requires a.current.None?
    decreases |outs|
  {
    if outs == [] || a.controlStop || a.queue == [] then a
    else Serve(known, main, Finished(known, main, Taken(a, outs[0].0), outs[0].1), outs[1..])
  }

  /** A queued shutdown is reached after the commands before it, whatever they do and however they fail. */
  lemma {:induction false} QueuedShutdownIsServed(known: set<string>, main: string, a: App,
                                                 outs: seq<(bool, Outcome)>, n: nat)
    requires a.current.None? && (a.stopEvent <==> a.controlStop)
    requires n < |a.queue| && a.queue[n] == Shutdown && n < |outs|
    ensures Serve(known, main, a, outs).stopEvent
    decreases n
  {
    if !a.controlStop {
      var b := Finished(known, main, Taken(a, outs[0].0), outs[0].1);
      if n > 0 && !b.controlStop {
        assert b.queue[n - 1] == a.queue[n];
        QueuedShutdownIsServed(known, main, b, outs[1..], n - 1);
      }
    }
  }

  // ----- What each command does -----

  /** Step `j` of the run takes the next command from the queue. */
  ghost predicate Takes(known: set<string>, main: string, run: seq<App>, j: nat, rosDown: bool) {
    && IsRun(known, main, run) && j < |run| - 1
    && Enabled(run[j], TakeCommand(rosDown)) && run[j + 1] == Apply(known, main, run[j], TakeCommand(rosDown))
  }

  /** Step `j` of the run finishes the command `c`, which passed its first tests. */
  ghost predicate Finishes(known: set<string>, main: string, run: seq<App>, j: nat, c: Command, out: Outcome) {
    && IsRun(known, main, run) && j < |run| - 1 && run[j].current == Some((c, true))
    && run[j + 1] == Apply(known, main, run[j], FinishCommand(out))
  }

  lemma InvariantAt(known: set<string>, main: string, run: seq<App>, j: nat)
    requires IsRun(known, main, run) && j < |run|
    ensures Invariant(run[j])
  {
    assert Last(run[..j + 1]) == run[j];
    InvariantHolds(known, main, run[..j + 1]);
  }

  /** Commands are taken in the order of the queue and all of them act, except a start after a shutdown request
      or with ROS down; the latter queues a shutdown instead. */
  lemma CommandsAreTaken(known: set<string>, main: string, run: seq<App>, j: nat, rosDown: bool)
    requires Takes(known, main, run, j, rosDown)
    ensures var a, b, c := run[j], run[j + 1], run[j].queue[0];
      && b.current == Some((c, !(c.Start? && (a.shutdownRequested || rosDown)))) && b.view == a.view
      && (if c.Start? && rosDown && !a.shutdownRequested
          then b.shutdownRequested && b.queue == a.queue[1..] + [Shutdown]
          else b.shutdownRequested == a.shutdownRequested && b.queue == a.queue[1..])
  {
    InvariantAt(known, main, run, j);
  }

  /** What ending the active session leaves: nothing active and an idle view that says how it ended, FAILED
      with the error when its own stop raised. */
  ghost predicate Ended(v: View, w: View, recent: Recent, out: StopOutcome) {
    && w.active.None? && w.status.tool == IDLE && w.status.sessionId.None? && w.status.pipeline.None?
    && w.nextId == v.nextId
    && w.status.recent == Some(if out.raises then RecentFailed else recent)
    && w.status.lastError == if out.raises then Some(out.error.GetOr("")) else
                             if out.error.Some? then out.error else v.status.lastError
  }

  /** After a stop or a shutdown nothing is active and the view is idle, also when the session's own stop raises;
      without a session nothing changes. A shutdown sets the stop event. */
  lemma StopTakesEffect(known: set<string>, main: string, run: seq<App>, j: nat, c: Command, out: Outcome)
    requires Finishes(known, main, run, j, c, out) && (c.Stop? || c.Shutdown?)
    ensures var v, w := run[j].view, run[j + 1].view;
      if v.active.Some? then Ended(v, w, RecentStopped, out.stop) else w == v
    ensures run[j + 1].view.active.None? && run[j + 1].view.status.tool == IDLE
    ensures run[j + 1].stopEvent == c.Shutdown? && run[j + 1].controlStop == c.Shutdown?
  {
    InvariantAt(known, main, run, j);
  }

  /** A complete ends the session it names and publishes the status it carries, COMPLETED or FAILED; any other
      complete changes nothing. */
  lemma CompleteTakesEffect(known: set<string>, main: string, run: seq<App>, j: nat, id: nat, recent: Recent,
                            out: Outcome)
    requires Finishes(known, main, run, j, Complete(id, recent), out)
    ensures var v, w := run[j].view, run[j + 1].view;
      if IsActive(v, id) then Ended(v, w, recent, out.stop) else w == v
  {
  }

  /** A start of a known pipeline first stops the active session. If that raises nothing is active; otherwise a
      start that succeeds leaves exactly that pipeline running under a new id, with no error, and one that fails
      leaves nothing active and its message as the last error. */
  lemma StartTakesEffect(known: set<string>, main: string, run: seq<App>, j: nat, name: Option<string>, out: Outcome)
    requires Finishes(known, main, run, j, Start(name), out)
    requires (if name == None || name == Some("") then main else name.value) in known
    ensures var v, w := run[j].view, run[j + 1].view;
      var target := if name == None || name == Some("") then main else name.value;
      if v.active.Some? && out.stop.raises then
        Ended(v, w, RecentStopped, out.stop)
      else
        && w.nextId == v.nextId + 1
        && match out.start
           case StartOk =>
             && w.active == Some(Active(v.nextId, target, false, false))
             && w.status == Status(RUNNING, if v.active.Some? then Some(RecentStopped) else v.status.recent,
                                   Some(v.nextId), Some(target), None)
           case StartFails(_, message) =>
             w.active.None? && w.status == Status(IDLE, Some(RecentFailed), None, None, Some(message))
           case StartRaises(message) =>
             && w.active.None? && w.status.tool == IDLE && w.status.sessionId.None?
             && w.status.lastError == Some(message)
  {
    InvariantAt(known, main, run, j);
  }

  /** A pause of a running session that is not completing pauses it, a resume of a paused one runs it again,
      in the session and in the view alike; at any other moment they change nothing. */
  lemma PauseAndResumeTakeEffect(known: set<string>, main: string, run: seq<App>, j: nat, c: Command, out: Outcome)
    requires Finishes(known, main, run, j, c, out) && (c.Pause? || c.Resume?)
    ensures var v, w := run[j].view, run[j + 1].view;
      if v.active.Some? && v.active.value.paused == c.Resume? && !v.active.value.completing then
        && w.active == Some(Active(v.active.value.id, v.active.value.pipeline, c.Pause?, false))
        && w.status == v.status.(tool := if c.Pause? then PAUSED else RUNNING) && w.nextId == v.nextId
      else w == v
  {
  }

  /** A command that raises leaves its message as the last error: an unknown command, and a start of an unknown
      pipeline. */
  lemma RefusalIsLastError(known: set<string>, main: string, run: seq<App>, j: nat, c: Command, out: Outcome)
    requires Finishes(known, main, run, j, c, out)
    requires c.Unknown? || (c.Start? && Target(c.name, main) !in known)
    ensures run[j + 1].view.status.lastError ==
      Some(if c.Unknown? then "unknown control command" else "unknown pipeline")
    ensures run[j + 1].view == run[j].view.(status := run[j + 1].view.status)
  {
  }

  // ----- The application object -----

  class AppRuntime {
    const known: set<string>
    const pipelineName: string
    const status: StatusManager
    var active: Option<Active>
    var nextId: nat
    var commandQueue: seq<Command>
    var shutdownRequested: bool
    var stopEvent: bool
    var controlStop: bool
    ghost var marking: nat
    ghost var cleanups: nat

    ghost function Plane(): View
      reads this, status
    {
      View(active, status.snapshot, nextId)
    }

    /** The state between two commands. */
    ghost function Idle(): App
      reads this, status
    {
      App(commandQueue, None, Plane(), shutdownRequested, stopEvent, controlStop, marking, cleanups)
    }

    constructor (known: set<string>, pipelineName: string)
      ensures Idle() == Initial() && this.known == known && this.pipelineName == pipelineName && fresh(status)
    {
      this.known, this.pipelineName := known, pipelineName;
      status := new StatusManager();
      active, nextId, commandQueue := None, 0, [];
      shutdownRequested, stopEvent, controlStop := false, false, false;
      marking, cleanups := 0, 0;
    }

    /** `_submit_command`; a shutdown is marked before it is queued. */
    method SubmitCommand(c: Command)
      modifies this`commandQueue, this`shutdownRequested
      ensures commandQueue == old(commandQueue) + [c]
      ensures shutdownRequested == (old(shutdownRequested) || c.Shutdown?)
    {
      if c.Shutdown? {
        shutdownRequested := true;
      }
      commandQueue := commandQueue + [c];
    }

    method StopSession(recent: Recent, out: StopOutcome) returns (raised: Option<string>)
      modifies this`active, status
      ensures Effect(Plane(), raised) == ManagerStop(old(Plane()), recent, out)
    {
      if active.None? {
        return None;
      }
      if out.error.Some? {
        status.SetLastError(out.error);
      }
      status.MarkIdle(if out.raises then RecentFailed else recent);
      active := None;
      raised := if out.raises then Some(out.error.GetOr("")) else None;
    }

    method StartSession(name: string, out: Outcome) returns (raised: Option<string>)
      modifies this`active, this`nextId, status
      ensures Effect(Plane(), raised) == ManagerStart(known, old(Plane()), name, out)
    {
      if name !in known {
        return Some("unknown pipeline");
      }
      raised := StopSession(RecentStopped, out.stop);
      if raised.Some? {
        return;
      }
      var id := nextId;
      nextId := nextId + 1;
      match out.start {
        case StartOk =>
          status.MarkRunning(id, name);
          active := Some(Active(id, name, false, false));
        case StartFails(published, message) =>
          if published {
            status.MarkRunning(id, name);
          }
          status.SetLastError(Some(message));
          status.MarkIdle(RecentFailed);
          raised := Some(message);
        case StartRaises(message) =>
          raised := Some(message);
      }
    }

    method PauseSession()
      modifies this`active, status
      ensures Plane() == ManagerPause(old(Plane()))
    {
      if active.None? || active.value.paused || active.value.completing {
        return;
      }
      active := Some(active.value.(paused := true));
      status.MarkPaused();
    }

    method ResumeSession()
      modifies this`active, status
      ensures Plane() == ManagerResume(old(Plane()))
    {
      if active.None? || !active.value.paused || active.value.completing {
        return;
      }
      active := Some(active.value.(paused := false));
      status.MarkResumed();
    }

    /** What `_dispatch_command` does with a command that passed its first tests. */
    method Perform(c: Command, out: Outcome) returns (raised: Option<string>)
      modifies this`active, this`nextId, status
      ensures Effect(Plane(), raised) == Performed(known, pipelineName, old(Plane()), c, out)
    {
      raised := None;
      match c {
        case Start(name) =>
          status.SetLastError(None);
          raised := StartSession(if name.Some? && name.value != "" then name.value else pipelineName, out);
        case Stop => raised := StopSession(RecentStopped, out.stop);
        case Pause => PauseSession();
        case Resume => ResumeSession();
        case Complete(id, recent) =>
          if active.Some? && active.value.id == id {
            raised := StopSession(recent, out.stop);
          }
        case Shutdown => raised := StopSession(RecentStopped, out.stop);
        case Unknown => raised := Some("unknown control command");
      }
    }

    /** One turn of `_control_loop`: a timeout when nothing is queued, otherwise one dispatch. */
    method ControlTurn(rosDown: bool, out: Outcome)
      modifies this, status
      ensures Idle() == Serve(known, pipelineName, old(Idle()), [(rosDown, out)])
    {
      if controlStop || commandQueue == [] {
        return;
      }
      ghost var before := Idle();
      assert Serve(known, pipelineName, before, [(rosDown, out)]) ==
        Serve(known, pipelineName, Finished(known, pipelineName, Taken(before, rosDown), out), []);
      var c := commandQueue[0];
      commandQueue := commandQueue[1..];
      if stopEvent {
        return;
      }
      if c.Start? {
        if shutdownRequested {
          return;
        }
        if rosDown {
          SubmitCommand(Shutdown);
          return;
        }
      }
      var raised := Perform(c, out);
      if c.Shutdown? {
        stopEvent, controlStop := true, true;
        cleanups := cleanups + 1;
      }
      if raised.Some? {
        status.SetLastError(raised);
      }
    }
  }
}
