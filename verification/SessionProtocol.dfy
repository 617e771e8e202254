/** Every interleaving of one session's threads over the critical sections of `Session`. */
module SessionProtocol {
  import opened Options
  import opened Session

  // The threads are the sample workers, the duration monitor, the control thread and whoever notices a full
  // disk. Command callbacks that the source makes outside the lock are steps of their own. The log is what an
  // outside observer of the session sees; `LogOk` says which logs are allowed, from the log alone.

  datatype Reason = DurationReached | SamplesReached

  /** Where a sample worker stands in its loop; `Kept(n)` has just raised the saved count to n. */
  datatype Worker = Looping | Running | Kept(count: nat) | Sending(reason: Reason) | Finishing | Exited

  datatype Monitor = Watching | Due | MonitorSending | Done

  datatype Event =
    | Admit(w: nat)
    | Release(w: nat)
    | Granted(reason: Reason, elapsed: real, saved: nat)
    | FailureRecorded
    | SentCompleted(reason: Reason)
    | SentFailed

  /** `storage`: a storage limit is configured, so the session has a tracker to check. */
  datatype Limits = Limits(maxSaved: Option<nat>, maxDuration: Option<real>, storage: bool)

  /** `total` is measured independently of the session: it grows with the clock exactly while the
      session is active, not paused and not completed by request. `abandoned` marks a failed setup. */
  datatype System = System(
    session: State, workers: map<nat, Worker>, monitor: Monitor,
    clock: real, total: real, granted: bool, abandoned: bool, log: seq<Event>)

  datatype Step =
    | Tick(dt: real)
    | StartSession | FailSetup | PauseSession | ResumeSession | StopSession | CancelSession
    | CheckFails(reason: string)
    | AdmitSample(w: nat) | ExitLoop(w: nat) | SaveSample(w: nat) | EndSample(w: nat)
    | CheckLimit(w: nat) | SendCompletion(w: nat) | ReleaseSample(w: nat)
    | MonitorLooks | MonitorAsks | MonitorSends

  predicate Unpaused(s: System) {
    s.session.active && !s.session.paused && !s.granted
  }

  predicate At(s: System, w: nat, pc: Worker) {
    w in s.workers && s.workers[w] == pc
  }

  ghost predicate Enabled(c: Limits, s: System, step: Step) {
    match step
    case Tick(dt) => dt >= 0.0
    case StartSession => !s.session.active && !Halted(s.session)
    case FailSetup => true
    case PauseSession => true
    case ResumeSession => true
    case StopSession => true
    case CancelSession => true
    case CheckFails(_) => c.storage
    case AdmitSample(w) => At(s, w, Looping)
    case ExitLoop(w) => At(s, w, Looping)
    case SaveSample(w) => At(s, w, Running)
    case EndSample(w) => At(s, w, Running)
    case CheckLimit(w) => w in s.workers && s.workers[w].Kept?
    case SendCompletion(w) => w in s.workers && s.workers[w].Sending?
    case ReleaseSample(w) => At(s, w, Finishing)
    case MonitorLooks => s.monitor == Watching && c.maxDuration.Some?
    case MonitorAsks => s.monitor == Due
    case MonitorSends => s.monitor == MonitorSending
  }

  function FailureEvents(s: State): seq<Event> {
    if SendsFailure(s) then [SentFailed] else []
  }

  /** `_request_completion` up to the end of its critical section. */
  function Ask(s: System, reason: Reason): System {
    if Halted(s.session) then s
    else s.(session := Requested(s.session, s.clock), granted := true,
            log := s.log + [Granted(reason, ElapsedAt(s.session, s.clock), s.session.saved)])
  }

  function LimitReached(c: Limits, s: System): bool {
    c.maxSaved.Some? && s.session.saved >= c.maxSaved.value
  }

  function Look(c: Limits, s: System): Monitor
    requires c.maxDuration.Some?
  {
    if s.session.cancel then Due
    else if s.session.completion then Done
    else if s.session.paused then Watching
    else if c.maxDuration.value - ElapsedAt(s.session, s.clock) <= 0.0 then Due
    else Watching
  }

  ghost function Apply(c: Limits, s: System, step: Step): System
    requires Enabled(c, s, step)
  {
    var ss := s.session;
    match step
    case Tick(dt) => s.(clock := s.clock + dt, total := if Unpaused(s) then s.total + dt else s.total)
    case StartSession => s.(session := Activated(ss, s.clock))
    case FailSetup => s.(session := SetupFailed(ss), abandoned := true)
    case PauseSession => s.(session := Paused(ss, s.clock))
    case ResumeSession => s.(session := Resumed(ss, s.clock))
    case StopSession => s.(session := Stopped(ss, s.clock))
    case CancelSession => s.(session := ss.(cancel := true))
    case CheckFails(reason) =>
      if RecordsFailure(ss) then
        s.(session := StorageFailed(ss, reason),
           log := s.log + [FailureRecorded] + FailureEvents(ss.(failure := Some(reason))))
      else s
    case AdmitSample(w) =>
      if Halted(ss) then s.(workers := s.workers[w := Exited])
      else s.(session := Admitted(ss), workers := s.workers[w := Running], log := s.log + [Admit(w)])
    case ExitLoop(w) => s.(workers := s.workers[w := Exited])
    case SaveSample(w) => s.(session := ss.(saved := ss.saved + 1), workers := s.workers[w := Kept(ss.saved + 1)])
    case EndSample(w) => s.(workers := s.workers[w := Finishing])
    case CheckLimit(w) =>
      if LimitReached(c, s) && !Halted(ss) then
        Ask(s, SamplesReached).(workers := s.workers[w := Sending(SamplesReached)])
      else s.(workers := s.workers[w := Finishing])
    case SendCompletion(w) =>
      s.(workers := s.workers[w := Finishing], log := s.log + [SentCompleted(s.workers[w].reason)])
    case ReleaseSample(w) =>
      s.(session := Released(ss), workers := s.workers[w := Looping],
         log := s.log + [Release(w)] + FailureEvents(ss.(inflight := ss.inflight - 1)))
    case MonitorLooks => s.(monitor := Look(c, s))
    case MonitorAsks =>
      if Halted(ss) then s.(monitor := Done) else Ask(s, DurationReached).(monitor := MonitorSending)
    case MonitorSends => s.(monitor := Done, log := s.log + [SentCompleted(DurationReached)])
  }

  ghost predicate Next(c: Limits, s: System, t: System) {
    exists step :: Enabled(c, s, step) && t == Apply(c, s, step)
  }

  /** k sample workers, all at the head of their loop. */
  function Pool(k: nat): (r: map<nat, Worker>)
    ensures |r| == k && forall w :: w in r ==> w < k && r[w] == Looping
  {
    if k == 0 then map[] else Pool(k - 1)[k - 1 := Looping]
  }

  function Initial(k: nat): System {
    System(FRESH, Pool(k), Watching, 0.0, 0.0, false, false, [])
  }

  ghost predicate IsRun(c: Limits, k: nat, run: seq<System>) {
    && |run| > 0 && run[0] == Initial(k)
    && forall i :: 0 <= i < |run| - 1 ==> Next(c, run[i], run[i + 1])
  }

  function Last(run: seq<System>): System
    requires |run| > 0
  {
    run[|run| - 1]
  }

  // ----- What the log may say -----

  ghost function InFlight(log: seq<Event>): int {
    if log == [] then 0
    else
      var rest := InFlight(log[..|log| - 1]);
      match log[|log| - 1]
      case Admit(_) => rest + 1
      case Release(_) => rest - 1
      case _ => rest
  }

  ghost predicate SomeGranted(log: seq<Event>) {
    exists e :: e in log && e.Granted?
  }

  ghost predicate GrantedFor(log: seq<Event>, r: Reason) {
    exists e :: e in log && e.Granted? && e.reason == r
  }

  ghost predicate SomeCompleted(log: seq<Event>) {
    exists e :: e in log && e.SentCompleted?
  }

  /** Which event may follow which history. */
  ghost predicate Allowed(c: Limits, before: seq<Event>, e: Event) {
    match e
    case Admit(_) => !SomeGranted(before) && FailureRecorded !in before
    case Release(_) => InFlight(before) > 0
    case Granted(DurationReached, elapsed, _) =>
      && !SomeGranted(before) && FailureRecorded !in before
      && c.maxDuration.Some? && elapsed >= c.maxDuration.value
    case Granted(SamplesReached, _, saved) =>
      && !SomeGranted(before) && FailureRecorded !in before
      && c.maxSaved.Some? && saved >= c.maxSaved.value
    case FailureRecorded => FailureRecorded !in before
    case SentCompleted(r) => GrantedFor(before, r) && !SomeCompleted(before)
    case SentFailed => FailureRecorded in before && SentFailed !in before && InFlight(before) == 0
  }

  ghost predicate LogOk(c: Limits, log: seq<Event>) {
    forall i {:trigger log[..i]} :: 0 <= i < |log| ==> Allowed(c, log[..i], log[i])
  }

  lemma LogOkAppend(c: Limits, log: seq<Event>, e: Event)
    requires LogOk(c, log) && Allowed(c, log, e)
    ensures LogOk(c, log + [e])
  {
    var longer := log + [e];
    forall i {:trigger longer[..i]} | 0 <= i < |longer| ensures Allowed(c, longer[..i], longer[i]) {
      assert longer[..i] == if i < |log| then log[..i] else log;
    }
  }

  lemma Appended(log: seq<Event>, e: Event)
    ensures InFlight(log + [e]) == InFlight(log) + (if e.Admit? then 1 else if e.Release? then -1 else 0)
    ensures SomeGranted(log + [e]) <==> SomeGranted(log) || e.Granted?
    ensures SomeCompleted(log + [e]) <==> SomeCompleted(log) || e.SentCompleted?
    ensures forall x :: x in log + [e] <==> x in log || x == e
  {
    assert (log + [e])[..|log|] == log;
  }

  // ----- Counting workers -----

  ghost function Those(workers: map<nat, Worker>, f: Worker -> bool): set<nat> {
    set w | w in workers && f(workers[w])
  }

  ghost function Count(workers: map<nat, Worker>, f: Worker -> bool): nat {
    |Those(workers, f)|
  }

  lemma CountMove(workers: map<nat, Worker>, w: nat, pc: Worker, f: Worker -> bool)
    requires w in workers
    ensures Count(workers[w := pc], f) ==
      Count(workers, f) - (if f(workers[w]) then 1 else 0) + (if f(pc) then 1 else 0)
  {
    var moved := workers[w := pc];
    assert Those(workers, f) == Those(workers, f) - {w} + if f(workers[w]) then {w} else {};
    assert Those(moved, f) == Those(workers, f) - {w} + if f(pc) then {w} else {};
  }

  predicate IsBusy(pc: Worker) {
    pc.Running? || pc.Kept? || pc.Sending? || pc.Finishing?
  }

  predicate IsSending(pc: Worker) {
    pc.Sending?
  }

  predicate IsRunning(pc: Worker) {
    pc.Running?
  }

  function Crossed(m: nat): Worker -> bool {
    (pc: Worker) => pc.Kept? && pc.count >= m
  }

  /** A worker that runs a sample has not just crossed the limit. */
  lemma RunningOrCrossed(workers: map<nat, Worker>, m: nat)
    ensures Count(workers, IsRunning) + Count(workers, Crossed(m)) <= |workers|
  {
    var a, b := Those(workers, IsRunning), Those(workers, Crossed(m));
    assert a !! b && a + b <= workers.Keys;
    SubsetSize(a + b, workers.Keys);
    assert |a + b| == |a| + |b|;
  }

  lemma SubsetSize(a: set<nat>, b: set<nat>)
    requires a <= b
    ensures |a| <= |b|
  {
    assert b == a + (b - a);
  }

  // ----- Invariants -----

  ghost predicate FlagsOk(s: System) {
    var ss := s.session;
    && (ss.failure.Some? || s.granted || s.abandoned ==> ss.completion)
    && (ss.failureSent ==> ss.failure.Some? && ss.inflight == 0)
    && (ss.failure.Some? && ss.inflight == 0 && !ss.cancel ==> ss.failureSent)
    && (!ss.active ==> !ss.paused)
    && (s.abandoned ==> !ss.active && ss.started.None?)
  }

  ghost predicate InflightExact(s: System) {
    s.session.inflight == Count(s.workers, IsBusy)
  }

  /** The log tells what the session has done. */
  ghost predicate LogAgrees(s: System) {
    && (SomeGranted(s.log) <==> s.granted)
    && (FailureRecorded in s.log <==> s.session.failure.Some?)
    && (SentFailed in s.log <==> s.session.failureSent)
    && InFlight(s.log) == s.session.inflight
  }

  /** A grant is either still on its way to the control queue or has arrived there. */
  ghost predicate OneSender(s: System) {
    Count(s.workers, IsSending) + (if s.monitor == MonitorSending then 1 else 0)
      + (if SomeCompleted(s.log) then 1 else 0) == (if s.granted then 1 else 0)
  }

  /** A request on its way to the control queue was granted for its own reason. */
  ghost predicate ReasonsKept(s: System) {
    && (s.monitor == MonitorSending ==> GrantedFor(s.log, DurationReached))
    && forall w :: w in s.workers && s.workers[w].Sending? ==> GrantedFor(s.log, s.workers[w].reason)
  }

  ghost predicate KeptBelow(s: System) {
    forall w :: w in s.workers && s.workers[w].Kept? ==> s.workers[w].count <= s.session.saved
  }

  ghost predicate SavedBound(c: Limits, s: System) {
    c.maxSaved.Some? ==>
      var m := c.maxSaved.value;
      if Halted(s.session) then s.session.saved + Count(s.workers, IsRunning) <= m - 1 + |s.workers|
      else s.session.saved <= m - 1 + Count(s.workers, Crossed(m))
  }

  ghost predicate TimeExact(s: System) {
    !s.abandoned ==>
      && ElapsedAt(s.session, s.clock) == s.total
      && (s.session.started.Some? <==> Unpaused(s))
      && (s.session.started.Some? ==> s.session.started.value <= s.clock)
  }

  ghost predicate DueIsDue(c: Limits, s: System) {
    s.monitor == Due && !Halted(s.session) ==> c.maxDuration.Some? && s.total >= c.maxDuration.value
  }

  lemma KeepsFlags(c: Limits, s: System, step: Step)
    requires Enabled(c, s, step) && FlagsOk(s) && InflightExact(s)
    ensures FlagsOk(Apply(c, s, step))
  {
    if step.ReleaseSample? {
      assert step.w in Those(s.workers, IsBusy);
    }
  }

  lemma KeepsInflight(c: Limits, s: System, step: Step)
    requires Enabled(c, s, step) && InflightExact(s)
    ensures InflightExact(Apply(c, s, step))
  {
    var t := Apply(c, s, step);
    match step {
      case AdmitSample(w) => CountMove(s.workers, w, t.workers[w], IsBusy);
      case ExitLoop(w) => CountMove(s.workers, w, t.workers[w], IsBusy);
      case SaveSample(w) => CountMove(s.workers, w, t.workers[w], IsBusy);
      case EndSample(w) => CountMove(s.workers, w, t.workers[w], IsBusy);
      case CheckLimit(w) => CountMove(s.workers, w, t.workers[w], IsBusy);
      case SendCompletion(w) => CountMove(s.workers, w, t.workers[w], IsBusy);
      case ReleaseSample(w) => CountMove(s.workers, w, t.workers[w], IsBusy);
      case _ =>
    }
  }

  /** What a step appends to the log. */
  ghost function NewEvents(c: Limits, s: System, step: Step): seq<Event>
    requires Enabled(c, s, step)
  {
    var ss := s.session;
    match step
    case CheckFails(reason) =>
      if RecordsFailure(ss) then [FailureRecorded] + FailureEvents(ss.(failure := Some(reason))) else []
    case AdmitSample(w) => if Halted(ss) then [] else [Admit(w)]
    case CheckLimit(w) =>
      if LimitReached(c, s) && !Halted(ss) then [Granted(SamplesReached, ElapsedAt(ss, s.clock), ss.saved)] else []
    case SendCompletion(w) => [SentCompleted(s.workers[w].reason)]
    case ReleaseSample(w) => [Release(w)] + FailureEvents(ss.(inflight := ss.inflight - 1))
    case MonitorAsks => if Halted(ss) then [] else [Granted(DurationReached, ElapsedAt(ss, s.clock), ss.saved)]
    case MonitorSends => [SentCompleted(DurationReached)]
    case _ => []
  }

  lemma LogGrows(c: Limits, s: System, step: Step)
    requires Enabled(c, s, step)
    ensures Apply(c, s, step).log == s.log + NewEvents(c, s, step)
    ensures |NewEvents(c, s, step)| <= 2
  {
  }

  lemma AppendedTwo(log: seq<Event>, es: seq<Event>)
    requires |es| <= 2
    ensures |es| == 0 ==> log + es == log
    ensures |es| == 1 ==> log + es == log + [es[0]]
    ensures |es| == 2 ==> log + es == (log + [es[0]]) + [es[1]]
  {
  }

  function Delta(e: Event): int {
    if e.Admit? then 1 else if e.Release? then -1 else 0
  }

  lemma AppendedAll(log: seq<Event>, es: seq<Event>)
    requires |es| <= 2
    ensures InFlight(log + es) ==
      InFlight(log) + (if |es| >= 1 then Delta(es[0]) else 0) + (if |es| == 2 then Delta(es[1]) else 0)
    ensures SomeGranted(log + es) <==>
      SomeGranted(log) || (|es| >= 1 && es[0].Granted?) || (|es| == 2 && es[1].Granted?)
    ensures SomeCompleted(log + es) <==>
      SomeCompleted(log) || (|es| >= 1 && es[0].SentCompleted?) || (|es| == 2 && es[1].SentCompleted?)
    ensures forall x :: x in log + es <==> x in log || (|es| >= 1 && x == es[0]) || (|es| == 2 && x == es[1])
  {
    AppendedTwo(log, es);
    if |es| >= 1 {
      Appended(log, es[0]);
      if |es| == 2 {
        Appended(log + [es[0]], es[1]);
      }
    }
  }

  lemma KeepsLogView(c: Limits, s: System, step: Step)
    requires Enabled(c, s, step) && LogAgrees(s)
    ensures LogAgrees(Apply(c, s, step))
  {
    hide InFlight, SomeGranted, SomeCompleted;
    LogGrows(c, s, step);
    AppendedAll(s.log, NewEvents(c, s, step));
  }

  lemma KeepsSender(c: Limits, s: System, step: Step)
    requires Enabled(c, s, step) && OneSender(s) && FlagsOk(s)
    ensures OneSender(Apply(c, s, step))
  {
    hide InFlight, SomeGranted, SomeCompleted;
    var t := Apply(c, s, step);
    LogGrows(c, s, step);
    AppendedAll(s.log, NewEvents(c, s, step));
    if step.AdmitSample? || step.ExitLoop? || step.SaveSample? || step.EndSample? || step.CheckLimit?
      || step.SendCompletion? || step.ReleaseSample?
    {
      CountMove(s.workers, step.w, t.workers[step.w], IsSending);
    }
  }

  lemma GrantStays(log: seq<Event>, es: seq<Event>, r: Reason)
    ensures GrantedFor(log, r) || GrantedFor(es, r) ==> GrantedFor(log + es, r)
  {
    if GrantedFor(log, r) {
      var e :| e in log && e.Granted? && e.reason == r;
      assert e in log + es;
    } else if GrantedFor(es, r) {
      var e :| e in es && e.Granted? && e.reason == r;
      assert e in log + es;
    }
  }

  lemma KeepsReasons(c: Limits, s: System, step: Step)
    requires Enabled(c, s, step) && ReasonsKept(s)
    ensures ReasonsKept(Apply(c, s, step))
  {
    var t, es := Apply(c, s, step), NewEvents(c, s, step);
    LogGrows(c, s, step);
    GrantStays(s.log, es, DurationReached);
    GrantStays(s.log, es, SamplesReached);
    NewGrant(c, s, step);
    hide GrantedFor, NewEvents;
  }

  lemma NewGrant(c: Limits, s: System, step: Step)
    requires Enabled(c, s, step)
    ensures step.MonitorAsks? && !Halted(s.session) ==> GrantedFor(NewEvents(c, s, step), DurationReached)
    ensures step.CheckLimit? && LimitReached(c, s) && !Halted(s.session) ==>
      GrantedFor(NewEvents(c, s, step), SamplesReached)
  {
    if step.MonitorAsks? || step.CheckLimit? {
      if NewEvents(c, s, step) != [] {
        assert NewEvents(c, s, step)[0] in NewEvents(c, s, step);
      }
    }
  }

  lemma KeepsLogOk(c: Limits, s: System, step: Step)
    requires Enabled(c, s, step) && LogOk(c, s.log) && LogAgrees(s) && FlagsOk(s) && InflightExact(s)
    requires OneSender(s) && DueIsDue(c, s) && TimeExact(s) && ReasonsKept(s)
    ensures LogOk(c, Apply(c, s, step).log)
  {
    var es := NewEvents(c, s, step);
    LogGrows(c, s, step);
    AppendedTwo(s.log, es);
    if |es| >= 1 {
      FirstAllowed(c, s, step);
      LogOkAppend(c, s.log, es[0]);
      Appended(s.log, es[0]);
      if |es| == 2 {
        assert es[1] == SentFailed;
        LogOkAppend(c, s.log + [es[0]], es[1]);
      }
    }
  }

  lemma FirstAllowed(c: Limits, s: System, step: Step)
    requires Enabled(c, s, step) && LogAgrees(s) && FlagsOk(s) && InflightExact(s)
    requires OneSender(s) && DueIsDue(c, s) && TimeExact(s) && ReasonsKept(s)
    requires |NewEvents(c, s, step)| >= 1
    ensures Allowed(c, s.log, NewEvents(c, s, step)[0])
  {
    match step {
      case ReleaseSample(w) => assert w in Those(s.workers, IsBusy);
      case SendCompletion(w) => assert w in Those(s.workers, IsSending);
      case _ =>
    }
  }

  lemma KeepsKept(c: Limits, s: System, step: Step)
    requires Enabled(c, s, step) && KeptBelow(s)
    ensures KeptBelow(Apply(c, s, step))
  {
    var t := Apply(c, s, step);
    forall w | w in t.workers && t.workers[w].Kept? ensures t.workers[w].count <= t.session.saved {
      assert w in s.workers && (s.workers[w].Kept? ==> s.workers[w].count <= s.session.saved);
    }
  }

  lemma KeepsBound(c: Limits, s: System, step: Step)
    requires Enabled(c, s, step) && SavedBound(c, s) && KeptBelow(s)
    ensures SavedBound(c, Apply(c, s, step))
  {
    var t := Apply(c, s, step);
    if c.maxSaved.Some? {
      var m := c.maxSaved.value;
      RunningOrCrossed(s.workers, m);
      if step.AdmitSample? || step.ExitLoop? || step.SaveSample? || step.EndSample? || step.CheckLimit?
        || step.SendCompletion? || step.ReleaseSample?
      {
        CountMove(s.workers, step.w, t.workers[step.w], IsRunning);
        CountMove(s.workers, step.w, t.workers[step.w], Crossed(m));
        RunningOrCrossed(t.workers, m);
        assert |t.workers| == |s.workers| by {
          assert t.workers.Keys == s.workers.Keys;
          assert |t.workers| == |t.workers.Keys| && |s.workers| == |s.workers.Keys|;
        }
      }
    }
  }

  lemma KeepsTime(c: Limits, s: System, step: Step)
    requires Enabled(c, s, step) && TimeExact(s) && FlagsOk(s)
    ensures TimeExact(Apply(c, s, step))
  {
  }

  lemma KeepsDue(c: Limits, s: System, step: Step)
    requires Enabled(c, s, step) && DueIsDue(c, s) && TimeExact(s) && FlagsOk(s)
    ensures DueIsDue(c, Apply(c, s, step))
  {
  }

  ghost predicate Invariant(c: Limits, s: System) {
    && FlagsOk(s) && InflightExact(s) && LogAgrees(s) && OneSender(s) && LogOk(c, s.log)
    && KeptBelow(s) && SavedBound(c, s) && TimeExact(s) && DueIsDue(c, s) && ReasonsKept(s)
  }

  lemma InvariantKept(c: Limits, s: System, step: Step)
    requires Enabled(c, s, step) && Invariant(c, s)
    ensures Invariant(c, Apply(c, s, step))
    ensures Apply(c, s, step).workers.Keys == s.workers.Keys
  {
    hide FlagsOk, InflightExact, LogAgrees, OneSender, LogOk, KeptBelow, SavedBound, TimeExact, DueIsDue, ReasonsKept;
    KeepsFlags(c, s, step);
    KeepsInflight(c, s, step);
    KeepsLogView(c, s, step);
    KeepsSender(c, s, step);
    KeepsReasons(c, s, step);
    KeepsLogOk(c, s, step);
    KeepsKept(c, s, step);
    KeepsBound(c, s, step);
    KeepsTime(c, s, step);
    KeepsDue(c, s, step);
  }

  lemma InitialInvariant(c: Limits, k: nat)
    requires c.maxSaved.Some? ==> c.maxSaved.value > 0
    ensures Invariant(c, Initial(k))
  {
    assert Those(Pool(k), IsBusy) == {};
    assert Those(Pool(k), IsSending) == {};
  }

  /** Stop limits come from a parsed configuration, which rejects limits that are not positive. */
  ghost predicate Configured(c: Limits) {
    && (c.maxSaved.Some? ==> c.maxSaved.value > 0)
    && (c.maxDuration.Some? ==> c.maxDuration.value > 0.0)
  }

  lemma {:induction false} InvariantHolds(c: Limits, k: nat, run: seq<System>)
    requires IsRun(c, k, run) && Configured(c)
    ensures Invariant(c, Last(run)) && Last(run).workers.Keys == Pool(k).Keys
  {
    hide Invariant, Enabled, Apply;
    if |run| == 1 {
      InitialInvariant(c, k);
    } else {
      InvariantHolds(c, k, run[..|run| - 1]);
      assert Next(c, run[|run| - 2], run[|run| - 2 + 1]);
      var s := run[|run| - 2];
      var step :| Enabled(c, s, step) && Last(run) == Apply(c, s, step);
      InvariantKept(c, s, step);
    }
  }

  // ----- Theorems -----

  /** What an observer may see: no sample starts after a grant or a storage failure, at most one
      COMPLETED and one FAILED command, FAILED only with nothing in flight, and no grant after a failure. */
  lemma SessionObeysProtocol(c: Limits, k: nat, run: seq<System>)
    requires IsRun(c, k, run) && Configured(c)
    ensures LogOk(c, Last(run).log)
  {
    InvariantHolds(c, k, run);
  }

  /** A COMPLETED never reports a limit that was not reached: at the earlier grant it goes back to, the
      active time or the saved count stood at the configured limit of the very reason it carries. */
  lemma ReportedLimitWasReached(c: Limits, k: nat, run: seq<System>, j: nat) returns (g: nat)
    requires IsRun(c, k, run) && Configured(c) && j < |Last(run).log| && Last(run).log[j].SentCompleted?
    ensures g < j && Last(run).log[g].Granted? && Last(run).log[g].reason == Last(run).log[j].reason
    ensures match Last(run).log[j].reason
      case DurationReached => c.maxDuration.Some? && Last(run).log[g].elapsed >= c.maxDuration.value
      case SamplesReached => c.maxSaved.Some? && Last(run).log[g].saved >= c.maxSaved.value
  {
    SessionObeysProtocol(c, k, run);
    var log := Last(run).log;
    assert Allowed(c, log[..j], log[j]);
    var e :| e in log[..j] && e.Granted? && e.reason == log[j].reason;
    g :| 0 <= g < j && log[..j][g] == e;
    assert Allowed(c, log[..g], log[g]);
  }

  /** With k workers the saved count passes the limit by at most k - 1. */
  lemma SavedOvershootBounded(c: Limits, k: nat, run: seq<System>)
    requires IsRun(c, k, run) && Configured(c) && c.maxSaved.Some? && k >= 1
    ensures Last(run).session.saved <= c.maxSaved.value + k - 1
  {
    InvariantHolds(c, k, run);
    var s := Last(run);
    RunningOrCrossed(s.workers, c.maxSaved.value);
    assert |s.workers| == |s.workers.Keys| == |Pool(k).Keys| == |Pool(k)|;
  }

  /** Whenever the lock is free, a recorded storage failure with nothing in flight has been reported. */
  lemma StorageFailureIsReported(c: Limits, k: nat, run: seq<System>)
    requires IsRun(c, k, run) && Configured(c)
    requires Last(run).session.failure.Some? && Last(run).session.inflight == 0 && !Last(run).session.cancel
    ensures SentFailed in Last(run).log
  {
    InvariantHolds(c, k, run);
  }

  /** The active time is the clock time spent active, unpaused and not yet completed by request. */
  lemma ActiveTimeIsUnpausedTime(c: Limits, k: nat, run: seq<System>)
    requires IsRun(c, k, run) && Configured(c) && !Last(run).abandoned
    ensures ElapsedAt(Last(run).session, Last(run).clock) == Last(run).total
  {
    InvariantHolds(c, k, run);
  }

  lemma ClosedStaysClosed(c: Limits, s: System, step: Step)
    requires Enabled(c, s, step) && s.session.completion && s.session.started.None?
    ensures var t := Apply(c, s, step).session;
      t.completion && t.started.None? && t.elapsed == s.session.elapsed
  {
    hide Max, FailureEvents, LimitReached, Look;
    match step {
      case ReleaseSample(w) => assert Released(s.session).elapsed == s.session.elapsed;
      case CheckFails(reason) => assert StorageFailed(s.session, reason).elapsed == s.session.elapsed;
      case StopSession => assert Stopped(s.session, s.clock).elapsed == s.session.elapsed;
      case PauseSession => assert Paused(s.session, s.clock) == s.session;
      case ResumeSession => assert Resumed(s.session, s.clock) == s.session;
      case _ =>
    }
  }

  /** Once completion has been granted or the session stopped, the active time never changes again. */
  lemma {:induction false} ActiveTimeFrozen(c: Limits, k: nat, run: seq<System>, i: nat)
    requires IsRun(c, k, run) && i < |run|
    requires run[i].session.completion && run[i].session.started.None?
    ensures Last(run).session.completion && Last(run).session.started.None?
    ensures ElapsedAt(Last(run).session, Last(run).clock) == ElapsedAt(run[i].session, run[i].clock)
  {
    hide Enabled, Apply;
    if i < |run| - 1 {
      var before := run[..|run| - 1];
      ActiveTimeFrozen(c, k, before, i);
      assert Next(c, run[|run| - 2], run[|run| - 2 + 1]);
      var s := run[|run| - 2];
      var step :| Enabled(c, s, step) && Last(run) == Apply(c, s, step);
      ClosedStaysClosed(c, s, step);
    }
  }

  /** A granted request and a stop both close the open interval, so they start the frozen period. */
  lemma GrantAndStopFreeze(c: Limits, k: nat, run: seq<System>)
    requires IsRun(c, k, run) && Configured(c)
    requires Last(run).granted || (Last(run).session.completion && !Last(run).session.active)
    ensures Last(run).session.completion && Last(run).session.started.None?
  {
    InvariantHolds(c, k, run);
  }

  /** A COMPLETED that goes out after a storage failure was granted before that failure. */
  lemma CompletedAfterFailureWasGrantedFirst(c: Limits, log: seq<Event>, i: nat, j: nat) returns (g: nat)
    requires LogOk(c, log) && i < j < |log| && log[i] == FailureRecorded && log[j].SentCompleted?
    ensures g < i && log[g].Granted? && log[g].reason == log[j].reason
  {
    assert Allowed(c, log[..j], log[j]);
    var e :| e in log[..j] && e.Granted? && e.reason == log[j].reason;
    g :| 0 <= g < j && log[..j][g] == e;
    assert Allowed(c, log[..g], log[g]);
    assert log[i] in log[..j] && g != i;
    forall h | i < h <= |log| ensures FailureRecorded in log[..h] {
      assert log[..h][i] == FailureRecorded;
    }
  }

  // ----- Witness runs -----

  ghost predicate Reachable(c: Limits, k: nat, s: System) {
    exists run :: IsRun(c, k, run) && Last(run) == s
  }

  lemma Take(c: Limits, k: nat, s: System, step: Step) returns (t: System)
    requires Reachable(c, k, s) && Enabled(c, s, step)
    ensures Reachable(c, k, t) && t == Apply(c, s, step)
  {
    t := Apply(c, s, step);
    var run :| IsRun(c, k, run) && Last(run) == s;
    assert Next(c, s, t);
    assert IsRun(c, k, run + [t]) && Last(run + [t]) == t;
  }

  lemma Begin(c: Limits, k: nat) returns (s: System)
    ensures Reachable(c, k, s) && s == Apply(c, Initial(k), StartSession)
  {
    assert IsRun(c, k, [Initial(k)]) && Last([Initial(k)]) == Initial(k);
    s := Take(c, k, Initial(k), StartSession);
  }

  // ----- COMPLETED after a storage failure

  /** The states a state can evolve into. */
  ghost predicate LeadsTo(c: Limits, s: System, t: System) {
    exists path :: IsPath(c, path) && path[0] == s && Last(path) == t
  }

  ghost predicate IsPath(c: Limits, path: seq<System>) {
    |path| > 0 && forall i :: 0 <= i < |path| - 1 ==> Next(c, path[i], path[i + 1])
  }

  lemma LeadsToSelf(c: Limits, s: System)
    ensures LeadsTo(c, s, s)
  {
    assert IsPath(c, [s]) && Last([s]) == s;
  }

  lemma LeadsToNext(c: Limits, s: System, t: System, step: Step)
    requires LeadsTo(c, s, t) && Enabled(c, t, step)
    ensures LeadsTo(c, s, Apply(c, t, step))
  {
    var path :| IsPath(c, path) && path[0] == s && Last(path) == t;
    var u := Apply(c, t, step);
    assert Next(c, t, u);
    assert IsPath(c, path + [u]) && (path + [u])[0] == s && Last(path + [u]) == u;
  }

  /** Some continuation sends a COMPLETED. */
  ghost predicate CanComplete(c: Limits, s: System) {
    exists t :: LeadsTo(c, s, t) && |t.log| >= |s.log| && SomeCompleted(t.log[|s.log|..])
  }

  lemma {:induction false} ReachableHolds(c: Limits, k: nat, s: System)
    requires Configured(c) && Reachable(c, k, s)
    ensures Invariant(c, s)
  {
    hide Invariant;
    var run :| IsRun(c, k, run) && Last(run) == s;
    InvariantHolds(c, k, run);
  }

  /** Along a path from a state with a recorded failure nothing is granted any more, the log only grows,
      and at most one COMPLETED is ever in it. */
  lemma {:induction false} NoGrantAlong(c: Limits, s: System, path: seq<System>)
    requires IsPath(c, path) && path[0] == s && Invariant(c, s) && s.session.completion
    ensures Invariant(c, Last(path)) && Last(path).granted == s.granted && Last(path).session.completion
    ensures s.log <= Last(path).log
  {
    hide Invariant, Enabled, Apply;
    if |path| > 1 {
      var before := path[..|path| - 1];
      NoGrantAlong(c, s, before);
      assert Next(c, path[|path| - 2], path[|path| - 2 + 1]);
      var u := path[|path| - 2];
      var step :| Enabled(c, u, step) && Last(path) == Apply(c, u, step);
      InvariantKept(c, u, step);
      ClosedGrantsNothing(c, u, step);
      LogGrows(c, u, step);
    }
  }

  lemma ClosedGrantsNothing(c: Limits, s: System, step: Step)
    requires Enabled(c, s, step) && s.session.completion
    ensures Apply(c, s, step).granted == s.granted && Apply(c, s, step).session.completion
  {
  }

  lemma SplitCompleted(log: seq<Event>, k: nat)
    requires k <= |log|
    ensures SomeCompleted(log) <==> SomeCompleted(log[..k]) || SomeCompleted(log[k..])
  {
    assert log == log[..k] + log[k..];
  }

  /** A log allows no second COMPLETED. */
  lemma NotCompletedAgain(c: Limits, log: seq<Event>, k: nat, i: nat)
    requires LogOk(c, log) && k <= i < |log| && SomeCompleted(log[..k])
    ensures !log[i].SentCompleted?
  {
    assert Allowed(c, log[..i], log[i]);
    SplitCompleted(log[..i], k);
    assert log[..i][..k] == log[..k];
  }

  lemma OneCompleted(c: Limits, log: seq<Event>, k: nat)
    requires LogOk(c, log) && k <= |log| && SomeCompleted(log[..k])
    ensures !SomeCompleted(log[k..])
  {
    forall i | k <= i < |log| ensures !log[i].SentCompleted? {
      NotCompletedAgain(c, log, k, i);
    }
  }

  lemma PendingSends(c: Limits, s: System) returns (t: System)
    requires OneSender(s) && s.granted && !SomeCompleted(s.log)
    ensures LeadsTo(c, s, t) && |t.log| == |s.log| + 1 && t.log[|s.log|].SentCompleted?
  {
    LeadsToSelf(c, s);
    if s.monitor == MonitorSending {
      LeadsToNext(c, s, s, MonitorSends);
      t := Apply(c, s, MonitorSends);
    } else {
      var w :| w in Those(s.workers, IsSending);
      LeadsToNext(c, s, s, SendCompletion(w));
      t := Apply(c, s, SendCompletion(w));
    }
  }

  /** Once the session refuses new samples, a COMPLETED can still come exactly when one was granted
      whose command is not out yet. */
  lemma CompletedStillComesIff(c: Limits, k: nat, s: System)
    requires Configured(c) && Reachable(c, k, s) && s.session.completion
    ensures CanComplete(c, s) <==> s.granted && !SomeCompleted(s.log)
  {
    hide Enabled, Apply, Next, LogOk;
    ReachableHolds(c, k, s);
    if s.granted && !SomeCompleted(s.log) {
      var t := PendingSends(c, s);
      assert t.log[|s.log|] in t.log[|s.log|..];
    }
    if CanComplete(c, s) {
      var t :| LeadsTo(c, s, t) && |t.log| >= |s.log| && SomeCompleted(t.log[|s.log|..]);
      var path :| IsPath(c, path) && path[0] == s && Last(path) == t;
      NoGrantAlong(c, s, path);
      SplitCompleted(t.log, |s.log|);
      assert t.log[..|s.log|] == s.log;
      if SomeCompleted(s.log) {
        OneCompleted(c, t.log, |s.log|);
      }
    }
  }

  /** When a storage failure is recorded, a COMPLETED can come after it exactly when a completion had
      been granted whose command was not out yet: the callback is made outside the lock. */
  lemma CompletedAfterFailureIff(c: Limits, k: nat, s: System, reason: string)
    requires Configured(c) && c.storage && Reachable(c, k, s) && RecordsFailure(s.session)
    ensures CanComplete(c, Apply(c, s, CheckFails(reason))) <==> s.granted && !SomeCompleted(s.log)
  {
    hide Reachable, CanComplete;
    var t := Take(c, k, s, CheckFails(reason));
    AppendedAll(s.log, NewEvents(c, s, CheckFails(reason)));
    LogGrows(c, s, CheckFails(reason));
    CompletedStillComesIff(c, k, t);
  }

  lemma NoBusyNoSender(workers: map<nat, Worker>)
    requires Count(workers, IsBusy) == 0
    ensures Count(workers, IsSending) == 0
  {
    assert Those(workers, IsSending) <= Those(workers, IsBusy);
  }

  /** Once the FAILED command is out, a COMPLETED can follow it exactly when the duration monitor stands
      between its grant and its callback; a granted worker is in flight, so FAILED waits for it. */
  lemma CompletedAfterFailedIff(c: Limits, k: nat, s: System)
    requires Configured(c) && Reachable(c, k, s) && SentFailed in s.log
    ensures CanComplete(c, s) <==> s.monitor == MonitorSending
  {
    hide CanComplete, Enabled, Apply, LogOk;
    ReachableHolds(c, k, s);
    NoBusyNoSender(s.workers);
    CompletedStillComesIff(c, k, s);
  }

  /** The duration monitor's request has just been granted. */
  lemma GrantByDuration(c: Limits, k: nat) returns (s: System)
    requires c.maxDuration.Some? && c.maxDuration.value > 0.0
    ensures Reachable(c, k, s) && s.granted && !SomeCompleted(s.log) && s.monitor == MonitorSending
    ensures RecordsFailure(s.session) && s.session.inflight == 0 && !s.session.failureSent
  {
    hide Reachable;
    s := Begin(c, k);
    s := Take(c, k, s, Tick(c.maxDuration.value));
    s := Take(c, k, s, MonitorLooks);
    s := Take(c, k, s, MonitorAsks);
  }

  lemma CompleteAfterFailed(c: Limits, k: nat) returns (s: System)
    requires Configured(c) && c.storage && c.maxDuration.Some?
    ensures Reachable(c, k, s) && SentFailed in s.log && CanComplete(c, s)
  {
    hide Reachable, CanComplete;
    var granted := GrantByDuration(c, k);
    s := Take(c, k, granted, CheckFails("storage_limit_reached"));
    assert SentFailed in s.log;
    CompletedAfterFailedIff(c, k, s);
  }

  lemma FailureNeedsLimit(c: Limits, s: System, step: Step)
    requires Enabled(c, s, step) && !c.storage && s.session.failure.None?
    ensures Apply(c, s, step).session.failure.None?
  {
    hide Max, ElapsedAt, FailureEvents, LimitReached, Look, StorageFailed, RecordsFailure, At, Unpaused;
    match step
    case CheckFails(_) => assert false;
    case _ =>
  }

  lemma {:induction false} NoFailureWithoutLimit(c: Limits, k: nat, run: seq<System>)
    requires IsRun(c, k, run) && !c.storage
    ensures Last(run).session.failure.None?
  {
    hide Enabled, Apply;
    if |run| > 1 {
      NoFailureWithoutLimit(c, k, run[..|run| - 1]);
      assert Next(c, run[|run| - 2], run[|run| - 2 + 1]);
      var s := run[|run| - 2];
      var step :| Enabled(c, s, step) && Last(run) == Apply(c, s, step);
      FailureNeedsLimit(c, s, step);
    }
  }

  /** A FAILED in the log of a reachable state means that a storage limit is configured. */
  lemma FailedNeedsLimit(c: Limits, k: nat, s: System)
    requires Configured(c) && Reachable(c, k, s) && SentFailed in s.log
    ensures c.storage
  {
    ReachableHolds(c, k, s);
    var run :| IsRun(c, k, run) && Last(run) == s;
    hide Invariant, IsRun;
    SentMeansRecorded(c, s);
    if !c.storage {
      NoFailureWithoutLimit(c, k, run);
    }
  }

  lemma SentMeansRecorded(c: Limits, s: System)
    requires Invariant(c, s) && SentFailed in s.log
    ensures s.session.failure.Some?
  {
  }

  lemma DurationNeedsLimit(c: Limits, s: System)
    requires Invariant(c, s) && s.monitor == MonitorSending
    ensures c.maxDuration.Some?
  {
    var e :| e in s.log && e.Granted? && e.reason == DurationReached;
    var g :| 0 <= g < |s.log| && s.log[g] == e;
    assert Allowed(c, s.log[..g], s.log[g]);
  }

  /** Some run of k workers sends FAILED and can still send COMPLETED after it exactly when both a storage
      limit and a duration limit are configured, for any number of workers. */
  lemma CompletedCanFollowFailed(c: Limits, k: nat)
    requires Configured(c)
    ensures (exists s :: Reachable(c, k, s) && SentFailed in s.log && CanComplete(c, s))
            <==> c.storage && c.maxDuration.Some?
  {
    hide Reachable, CanComplete, Invariant;
    if c.storage && c.maxDuration.Some? {
      var s := CompleteAfterFailed(c, k);
    }
    forall s | Reachable(c, k, s) && SentFailed in s.log && CanComplete(c, s)
      ensures c.storage && c.maxDuration.Some?
    {
      FailedNeedsLimit(c, k, s);
      CompletedAfterFailedIff(c, k, s);
      ReachableHolds(c, k, s);
      DurationNeedsLimit(c, s);
    }
  }

  // ----- The active time after completion

  /** Nothing that can still happen changes the active time. */
  ghost predicate TimeFrozen(c: Limits, s: System) {
    forall t :: LeadsTo(c, s, t) ==> ElapsedAt(t.session, t.clock) == ElapsedAt(s.session, s.clock)
  }

  lemma {:induction false} ClosedAlong(c: Limits, path: seq<System>)
    requires IsPath(c, path) && path[0].session.completion && path[0].session.started.None?
    ensures var t := Last(path).session;
      t.completion && t.started.None? && t.elapsed == path[0].session.elapsed
  {
    hide Enabled, Apply;
    if |path| > 1 {
      ClosedAlong(c, path[..|path| - 1]);
      assert Next(c, path[|path| - 2], path[|path| - 2 + 1]);
      var u := path[|path| - 2];
      var step :| Enabled(c, u, step) && Last(path) == Apply(c, u, step);
      ClosedStaysClosed(c, u, step);
    }
  }

  /** Once a session refuses new samples its active time is final exactly when a completion was granted,
      the session was paused, or it was stopped; a storage failure alone leaves the clock running. */
  lemma TimeFrozenIff(c: Limits, k: nat, s: System)
    requires Configured(c) && Reachable(c, k, s) && s.session.completion
    ensures TimeFrozen(c, s) <==> s.granted || s.session.paused || !s.session.active
  {
    ReachableHolds(c, k, s);
    assert s.session.started.Some? <==> Unpaused(s);
    if Unpaused(s) {
      var step := Tick(1.0);
      LeadsToSelf(c, s);
      LeadsToNext(c, s, s, step);
      assert ElapsedAt(Apply(c, s, step).session, s.clock + 1.0) == ElapsedAt(s.session, s.clock) + 1.0;
    } else {
      hide Enabled, Apply, Invariant;
      forall t | LeadsTo(c, s, t) ensures ElapsedAt(t.session, t.clock) == ElapsedAt(s.session, s.clock) {
        var path :| IsPath(c, path) && path[0] == s && Last(path) == t;
        ClosedAlong(c, path);
      }
    }
  }

  lemma RunOnAfterFailed(c: Limits, k: nat) returns (s: System)
    requires Configured(c) && c.storage
    ensures Reachable(c, k, s) && SentFailed in s.log && !TimeFrozen(c, s)
  {
    hide Reachable, TimeFrozen;
    s := Begin(c, k);
    s := Take(c, k, s, CheckFails("storage_limit_reached"));
    assert SentFailed in s.log;
    TimeFrozenIff(c, k, s);
  }

  /** Some run has sent FAILED while the active time still grows exactly when a storage limit is configured;
      without one FAILED is never sent. */
  lemma TimeRunsOnAfterFailed(c: Limits, k: nat)
    requires Configured(c)
    ensures (exists s :: Reachable(c, k, s) && SentFailed in s.log && !TimeFrozen(c, s)) <==> c.storage
    ensures (exists s :: Reachable(c, k, s) && SentFailed in s.log) <==> c.storage
  {
    hide Reachable, TimeFrozen;
    if c.storage {
      var s := RunOnAfterFailed(c, k);
    }
    forall s | Reachable(c, k, s) && SentFailed in s.log ensures c.storage {
      FailedNeedsLimit(c, k, s);
    }
  }

  // ----- Frames

  /** `accepting` is what the other flags say. */
  ghost predicate AcceptingExact(s: System) {
    s.session.accepting <==> s.session.active && !s.session.paused && !s.session.completion
  }

  lemma KeepsAccepting(c: Limits, s: System, step: Step)
    requires Enabled(c, s, step) && AcceptingExact(s) && FlagsOk(s)
    ensures AcceptingExact(Apply(c, s, step))
  {
  }

  lemma {:induction false} AcceptingHolds(c: Limits, k: nat, run: seq<System>)
    requires IsRun(c, k, run) && Configured(c)
    ensures AcceptingExact(Last(run))
  {
    hide Enabled, Apply, Invariant;
    if |run| > 1 {
      var before := run[..|run| - 1];
      AcceptingHolds(c, k, before);
      InvariantHolds(c, k, before);
      assert Next(c, run[|run| - 2], run[|run| - 2 + 1]);
      var s := run[|run| - 2];
      var step :| Enabled(c, s, step) && Last(run) == Apply(c, s, step);
      InvariantFlags(c, s);
      KeepsAccepting(c, s, step);
    }
  }

  lemma InvariantFlags(c: Limits, s: System)
    requires Invariant(c, s)
    ensures FlagsOk(s)
  {
  }

  /** Frames are taken exactly while the session runs: active, unpaused and ended by nothing. */
  lemma FramesTakenWhileRunning(c: Limits, k: nat, run: seq<System>)
    requires IsRun(c, k, run) && Configured(c)
    ensures var s := Last(run).session;
      AcceptsFrames(s) <==> s.active && !s.paused && !Halted(s)
  {
    AcceptingHolds(c, k, run);
  }

  lemma HaltedStays(c: Limits, s: System, step: Step)
    requires Enabled(c, s, step) && Halted(s.session)
    ensures Halted(Apply(c, s, step).session)
  {
  }

  /** After a grant, a storage failure or a stop no frame is ever taken again. */
  lemma {:induction false} NoFrameAfterEnd(c: Limits, k: nat, run: seq<System>, i: nat)
    requires IsRun(c, k, run) && Configured(c) && i < |run|
    requires Halted(run[i].session) || run[i].granted || run[i].session.failure.Some?
    ensures Halted(Last(run).session) && !AcceptsFrames(Last(run).session)
  {
    hide Enabled, Apply, Invariant;
    if i == |run| - 1 {
      InvariantHolds(c, k, run);
      InvariantFlags(c, Last(run));
    } else {
      NoFrameAfterEnd(c, k, run[..|run| - 1], i);
      assert Next(c, run[|run| - 2], run[|run| - 2 + 1]);
      var s := run[|run| - 2];
      var step :| Enabled(c, s, step) && Last(run) == Apply(c, s, step);
      HaltedStays(c, s, step);
    }
  }

  // ----- The overshoot is reached

  /** Running, with nothing recorded that would stop it. */
  ghost predicate Open(c: Limits, k: nat, s: System) {
    Reachable(c, k, s) && !Halted(s.session) && s.session.failure.None? && s.workers.Keys == Pool(k).Keys
  }

  lemma SaveOne(c: Limits, k: nat, s: System) returns (t: System)
    requires Open(c, k, s) && 0 in s.workers && (forall w :: w in s.workers ==> s.workers[w] == Looping)
    requires c.maxSaved.Some? && s.session.saved + 1 < c.maxSaved.value
    ensures Open(c, k, t) && t.workers == s.workers && t.session.saved == s.session.saved + 1
  {
    hide Reachable;
    t := Take(c, k, s, AdmitSample(0));
    t := Take(c, k, t, SaveSample(0));
    t := Take(c, k, t, CheckLimit(0));
    t := Take(c, k, t, ReleaseSample(0));
  }

  lemma {:induction false} SaveMany(c: Limits, k: nat, s: System, n: nat) returns (t: System)
    requires Open(c, k, s) && 0 in s.workers && (forall w :: w in s.workers ==> s.workers[w] == Looping)
    requires c.maxSaved.Some? && s.session.saved + n < c.maxSaved.value
    ensures Open(c, k, t) && t.workers == s.workers && t.session.saved == s.session.saved + n
    decreases n
  {
    if n == 0 {
      t := s;
    } else {
      t := SaveOne(c, k, s);
      t := SaveMany(c, k, t, n - 1);
    }
  }

  ghost function Admissions(n: nat): seq<Event> {
    seq(n, w requires 0 <= w => Admit(w))
  }

  ghost function Releases(n: nat): seq<Event> {
    seq(n, w requires 0 <= w => Release(w))
  }

  lemma {:induction false} AdmitMany(c: Limits, k: nat, s: System, j: nat) returns (t: System)
    requires Open(c, k, s) && (forall w: nat :: w in s.workers <==> w < k) && j <= k
    requires forall w :: w in s.workers ==> s.workers[w] == Looping
    ensures Open(c, k, t) && t.session == s.session.(inflight := s.session.inflight + j)
    ensures t.workers.Keys == s.workers.Keys && t.log == s.log + Admissions(j)
    ensures forall w :: w in t.workers ==> t.workers[w] == if w < j then Running else Looping
  {
    if j == 0 {
      t := s;
    } else {
      t := AdmitMany(c, k, s, j - 1);
      t := Take(c, k, t, AdmitSample(j - 1));
      assert Admissions(j) == Admissions(j - 1) + [Admit(j - 1)];
    }
  }

  lemma {:induction false} SaveByAll(c: Limits, k: nat, s: System, j: nat) returns (t: System)
    requires Open(c, k, s) && (forall w: nat :: w in s.workers <==> w < k) && j <= k
    requires forall w :: w in s.workers ==> s.workers[w] == Running
    ensures Open(c, k, t) && t.session.saved == s.session.saved + j && t.workers.Keys == s.workers.Keys
    ensures forall w :: w in t.workers && w >= j ==> t.workers[w] == Running
  {
    if j == 0 {
      t := s;
    } else {
      t := SaveByAll(c, k, s, j - 1);
      t := Take(c, k, t, SaveSample(j - 1));
    }
  }

  lemma {:induction false} PoolKeys(k: nat)
    ensures forall w: nat :: w in Pool(k) <==> w < k
  {
    if k > 0 {
      PoolKeys(k - 1);
      assert Pool(k) == Pool(k - 1)[k - 1 := Looping];
    }
  }

  /** The bound is exact: every saved count up to the limit plus k - 1 is reached by some run of k workers,
      whatever the other limits. */
  lemma SavedOvershootReached(c: Limits, k: nat, n: nat) returns (s: System)
    requires Configured(c) && c.maxSaved.Some? && k >= 1 && n <= c.maxSaved.value + k - 1
    ensures Reachable(c, k, s) && s.session.saved == n
  {
    hide Reachable;
    var m := c.maxSaved.value;
    PoolKeys(k);
    s := Begin(c, k);
    if n < m {
      s := SaveMany(c, k, s, n);
    } else {
      s := SaveMany(c, k, s, m - 1);
      s := AdmitMany(c, k, s, k);
      s := SaveByAll(c, k, s, n - (m - 1));
    }
  }

  // ----- What each move does, told by the log and the independent clock -----

  /** While the session is active, only a grant or a storage failure has ended it. */
  ghost predicate EndHasCause(s: System) {
    s.session.active && s.session.completion ==> s.granted || s.session.failure.Some?
  }

  lemma KeepsCause(c: Limits, s: System, step: Step)
    requires Enabled(c, s, step) && EndHasCause(s)
    ensures EndHasCause(Apply(c, s, step))
  {
    hide Max, ElapsedAt, FailureEvents, LimitReached, Look;
  }

  lemma {:induction false} CauseHolds(c: Limits, k: nat, run: seq<System>)
    requires IsRun(c, k, run)
    ensures EndHasCause(Last(run))
  {
    hide Enabled, Apply;
    if |run| > 1 {
      CauseHolds(c, k, run[..|run| - 1]);
      assert Next(c, run[|run| - 2], run[|run| - 2 + 1]);
      var s := run[|run| - 2];
      var step :| Enabled(c, s, step) && Last(run) == Apply(c, s, step);
      KeepsCause(c, s, step);
    }
  }

  /** Nothing in the log has ended the session. */
  ghost predicate Unended(log: seq<Event>) {
    !SomeGranted(log) && FailureRecorded !in log
  }

  lemma CompletionIsLogged(c: Limits, k: nat, s: System)
    requires Configured(c) && Reachable(c, k, s) && s.session.active
    ensures s.session.completion <==> !Unended(s.log)
    ensures s.session.failure.Some? <==> FailureRecorded in s.log
    ensures s.session.inflight == InFlight(s.log) && (s.session.failureSent ==> s.session.failure.Some?)
    ensures !s.abandoned && (s.session.started.Some? <==> Unpaused(s)) && s.granted == SomeGranted(s.log)
    ensures ElapsedAt(s.session, s.clock) == s.total && (s.session.started.Some? ==> s.session.started.value <= s.clock)
  {
    ReachableHolds(c, k, s);
    var run :| IsRun(c, k, run) && Last(run) == s;
    CauseHolds(c, k, run);
  }

  /** A storage check that fails is always recorded by an active session that has recorded none, whatever is in
      flight, and ends it; FAILED goes out at once exactly when nothing is in flight. A session that is not active,
      cancelled, or has a failure already ignores it. */
  lemma FailureIsRecorded(c: Limits, k: nat, s: System, reason: string)
    requires Configured(c) && c.storage && Reachable(c, k, s)
    ensures var t := Apply(c, s, CheckFails(reason));
      if s.session.active && !s.session.cancel && FailureRecorded !in s.log then
        && t.session.failure == Some(reason) && t.session.completion
        && t.log == s.log + [FailureRecorded] + if InFlight(s.log) == 0 then [SentFailed] else []
      else t == s
  {
    ReachableHolds(c, k, s);
    hide InFlight;
  }

  /** Every number of samples in flight is drained before FAILED: for every 1 <= n <= k some run of k workers
      admits n samples, records the failure with all of them in flight, and sends FAILED after the n-th release. */
  lemma DrainReached(c: Limits, k: nat, n: nat, reason: string) returns (s: System)
    requires Configured(c) && c.storage && 1 <= n <= k
    ensures Reachable(c, k, s) && s.session.failure == Some(reason)
    ensures s.log == Admissions(n) + [FailureRecorded] + Releases(n) + [SentFailed]
  {
    hide Reachable, Max, ElapsedAt, LimitReached, Look;
    PoolKeys(k);
    s := Begin(c, k);
    s := AdmitMany(c, k, s, n);
    s := Take(c, k, s, CheckFails(reason));
    s := DrainMany(c, k, s, n, n - 1);
    s := DrainLast(c, k, s, n);
  }

  lemma DrainLast(c: Limits, k: nat, s: System, n: nat) returns (t: System)
    requires Reachable(c, k, s) && n >= 1 && n - 1 in s.workers && s.workers[n - 1] == Running
    requires s.session.failure.Some? && s.session.inflight == 1 && !s.session.failureSent && !s.session.cancel
    ensures Reachable(c, k, t) && t.log == s.log + [Release(n - 1)] + [SentFailed]
    ensures t.session.failure == s.session.failure
    ensures Releases(n) == Releases(n - 1) + [Release(n - 1)]
  {
    hide Reachable;
    t := Take(c, k, s, EndSample(n - 1));
    t := Take(c, k, t, ReleaseSample(n - 1));
  }

  /** The first `j` of the `n` workers running a sample end and release it. */
  lemma {:induction false} DrainMany(c: Limits, k: nat, s: System, n: nat, j: nat) returns (t: System)
    requires Reachable(c, k, s) && j < n && (forall w: nat :: w < n ==> w in s.workers && s.workers[w] == Running)
    requires s.session.failure.Some? && s.session.inflight == n && !s.session.failureSent && !s.session.cancel
    ensures Reachable(c, k, t) && t.log == s.log + Releases(j)
    ensures t.session == s.session.(inflight := n - j)
    ensures forall w: nat :: j <= w < n ==> w in t.workers && t.workers[w] == Running
    decreases j
  {
    hide Reachable;
    if j == 0 {
      t := s;
    } else {
      t := DrainMany(c, k, s, n, j - 1);
      t := Take(c, k, t, EndSample(j - 1));
      t := Take(c, k, t, ReleaseSample(j - 1));
      assert Releases(j) == Releases(j - 1) + [Release(j - 1)];
    }
  }

  /** A worker's sample is admitted exactly while the log shows neither a grant nor a failure. */
  lemma AdmittedWhileUnended(c: Limits, k: nat, s: System, w: nat)
    requires Configured(c) && Reachable(c, k, s) && At(s, w, Looping) && s.session.active && !s.session.cancel
    ensures var t := Apply(c, s, AdmitSample(w));
      if Unended(s.log) then t.log == s.log + [Admit(w)] && At(t, w, Running) else t.log == s.log && At(t, w, Exited)
  {
    CompletionIsLogged(c, k, s);
  }

  /** Pausing a session that runs, and resuming one that is paused, takes effect unless the session has ended;
      at any other moment it changes nothing. The active time is not moved by either. */
  lemma PauseAndResume(c: Limits, k: nat, s: System)
    requires Configured(c) && Reachable(c, k, s) && s.session.active && !s.session.cancel
    ensures var t := Apply(c, s, PauseSession);
      if s.session.paused || !Unended(s.log) then t == s else
      (t.session.paused && !AcceptsFrames(t.session) && t.session.started.None? && t.session.elapsed == s.total)
    ensures var t := Apply(c, s, ResumeSession);
      if !s.session.paused || !Unended(s.log) then t == s else
      (!t.session.paused && AcceptsFrames(t.session) && t.session.started == Some(s.clock)
       && t.session.elapsed == s.total)
  {
    CompletionIsLogged(c, k, s);
    hide SomeGranted, Reachable;
  }

  /** A stop ends a session whatever it was doing, and its active time stays at what it was. */
  lemma StopEnds(c: Limits, k: nat, s: System)
    requires Configured(c) && Reachable(c, k, s)
    ensures var t := Apply(c, s, StopSession);
      && !t.session.active && t.session.completion && !AcceptsFrames(t.session) && TimeFrozen(c, t)
      && ElapsedAt(t.session, t.clock) == ElapsedAt(s.session, s.clock)
  {
    hide Reachable, TimeFrozen;
    var t := Take(c, k, s, StopSession);
    TimeFrozenIff(c, k, t);
  }

  /** The monitor asks exactly when the active time has reached the limit: looking at a running session it becomes
      due if and only if the limit has passed, and a due monitor's request is granted and sent. */
  lemma DurationIsEnforced(c: Limits, k: nat, s: System)
    requires Configured(c) && Reachable(c, k, s) && c.maxDuration.Some? && s.monitor == Watching
    requires s.session.active && !s.session.cancel && Unended(s.log)
    ensures var looked := Apply(c, s, MonitorLooks);
      if s.session.paused || s.total < c.maxDuration.value then looked == s
      else
        && Enabled(c, looked, MonitorAsks)
        && var asked := Apply(c, looked, MonitorAsks);
           && asked.log == s.log + [Granted(DurationReached, s.total, s.session.saved)]
           && Enabled(c, asked, MonitorSends)
           && asked.session.completion && !AcceptsFrames(asked.session)
           && Apply(c, asked, MonitorSends).log == asked.log + [SentCompleted(DurationReached)]
  {
    CompletionIsLogged(c, k, s);
    hide SomeGranted, Reachable;
  }

  /** A worker that has saved a sample completes the session exactly when the saved count has reached the limit. */
  lemma SavedLimitIsEnforced(c: Limits, k: nat, s: System, w: nat)
    requires Configured(c) && Reachable(c, k, s) && w in s.workers && s.workers[w].Kept?
    requires s.session.active && !s.session.cancel && Unended(s.log)
    ensures var checked := Apply(c, s, CheckLimit(w));
      if c.maxSaved.None? || s.session.saved < c.maxSaved.value then
        checked == s.(workers := s.workers[w := Finishing])
      else
        && checked.log == s.log + [Granted(SamplesReached, s.total, s.session.saved)]
        && checked.session.completion && !AcceptsFrames(checked.session) && Enabled(c, checked, SendCompletion(w))
        && Apply(c, checked, SendCompletion(w)).log == checked.log + [SentCompleted(SamplesReached)]
  {
    CompletionIsLogged(c, k, s);
    hide SomeGranted, Reachable;
  }
}
