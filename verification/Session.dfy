/** The state of one collection session (session.py, SessionRuntime): run, pause and completion
    flags, active time, in-flight samples and the storage failure. Each function is one critical
    section of `_state_lock`; the class performs them on its fields. */
module Session {
  import opened Options

  datatype State = State(
    active: bool, paused: bool, accepting: bool, completion: bool, cancel: bool,
    elapsed: real, started: Option<real>,
    inflight: int, failure: Option<string>, failureSent: bool, saved: nat)

  const FRESH := State(false, false, false, false, false, 0.0, None, 0, None, false, 0)

  function Max(a: real, b: real): real {
    if a >= b then a else b
  }

  /** `_current_active_elapsed_sec_locked` */
  function ElapsedAt(s: State, now: real): real {
    if s.started.Some? then s.elapsed + Max(0.0, now - s.started.value) else s.elapsed
  }

  /** Adds the open interval to the active time and closes it. */
  function Folded(s: State, now: real): State {
    s.(elapsed := ElapsedAt(s, now), started := None)
  }

  function Activated(s: State, now: real): State {
    s.(active := true, accepting := true, started := Some(now))
  }

  predicate CanPause(s: State) {
    s.active && !s.cancel && !s.paused && !s.completion
  }

  function Paused(s: State, now: real): State {
    if CanPause(s) then Folded(s, now).(paused := true, accepting := false) else s
  }

  predicate CanResume(s: State) {
    s.active && !s.cancel && s.paused && !s.completion
  }

  function Resumed(s: State, now: real): State {
    if CanResume(s) then s.(paused := false, accepting := true, started := Some(now)) else s
  }

  function Stopped(s: State, now: real): State {
    Folded(s, now).(accepting := false, paused := false, completion := true, active := false)
  }

  function SetupFailed(s: State): State {
    s.(active := false, accepting := false, paused := false, completion := true, started := None)
  }

  predicate AcceptsFrames(s: State) {
    s.active && !s.cancel && s.accepting && !s.paused && !s.completion
  }

  predicate Halted(s: State) {
    s.completion || s.cancel
  }

  /** `_request_completion`: whether the request is granted, and the state afterwards. */
  function Requested(s: State, now: real): State {
    if Halted(s) then s else Folded(s, now).(completion := true, accepting := false)
  }

  /** `_finish_storage_stop_locked`: whether the FAILED command goes out now. */
  predicate SendsFailure(s: State) {
    s.failure.Some? && s.inflight == 0 && !s.failureSent && !s.cancel
  }

  function FailureFlushed(s: State): State {
    if SendsFailure(s) then s.(failureSent := true) else s
  }

  predicate RecordsFailure(s: State) {
    s.active && !s.cancel && s.failure.None?
  }

  /** `_check_storage` once the tracker has raised `reason`. */
  function StorageFailed(s: State, reason: string): State {
    if RecordsFailure(s) then
      FailureFlushed(s.(failure := Some(reason), completion := true, accepting := false))
    else s
  }

  function Admitted(s: State): State {
    if Halted(s) then s else s.(inflight := s.inflight + 1)
  }

  function Released(s: State): State {
    FailureFlushed(s.(inflight := s.inflight - 1))
  }

  /** A `complete` command, as handed to the control queue. */
  datatype Command = Completed(reason: string) | Failed(reason: string)

  class SessionRuntime {
    var active: bool
    var paused: bool
    var accepting: bool
    var completion: bool
    var cancel: bool
    var elapsed: real
    var started: Option<real>
    var inflight: int
    var failure: Option<string>
    var failureSent: bool
    var saved: nat
    /** What the command callback has received. */
    var commands: seq<Command>

    ghost function View(): State
      reads this
    {
      State(active, paused, accepting, completion, cancel, elapsed, started, inflight, failure, failureSent, saved)
    }

    constructor ()
      ensures View() == FRESH && commands == []
    {
      active, paused, accepting, completion, cancel := false, false, false, false, false;
      elapsed, started, inflight, failure, failureSent, saved := 0.0, None, 0, None, false, 0;
      commands := [];
    }

    method Fold(now: real)
      modifies this`elapsed, this`started
      ensures View() == Folded(old(View()), now)
    {
      if started.Some? {
        elapsed := elapsed + Max(0.0, now - started.value);
        started := None;
      }
    }

    method Start(now: real)
      modifies this
      ensures View() == Activated(old(View()), now) && commands == old(commands)
      ensures active && accepting && started == Some(now)
    {
      active := true;
      accepting := true;
      started := Some(now);
    }

    method FailSetup()
      modifies this
      ensures View() == SetupFailed(old(View())) && commands == old(commands)
      ensures !active && !accepting && !paused && completion && started == None
    {
      active, accepting, paused, completion := false, false, false, true;
      started := None;
    }

    method Pause(now: real)
      modifies this
      ensures View() == Paused(old(View()), now) && commands == old(commands)
      ensures if old(active && !cancel && !paused && !completion)
        then paused && !accepting && started == None && elapsed == ElapsedAt(old(View()), now)
        else View() == old(View())
    {
      if !active || cancel || paused || completion {
        return;
      }
      paused := true;
      accepting := false;
      Fold(now);
    }

    method Resume(now: real)
      modifies this
      ensures View() == Resumed(old(View()), now) && commands == old(commands)
      ensures if old(active && !cancel && paused && !completion)
        then !paused && accepting && started == Some(now) && elapsed == old(elapsed)
        else View() == old(View())
    {
      if !active || cancel || !paused || completion {
        return;
      }
      paused := false;
      accepting := true;
      started := Some(now);
    }

    method Stop(now: real)
      modifies this
      ensures View() == Stopped(old(View()), now) && commands == old(commands)
      ensures !active && !accepting && !paused && completion && started == None
      ensures elapsed == ElapsedAt(old(View()), now)
    {
      accepting, paused, completion, active := false, false, true, false;
      Fold(now);
    }

    /** `cancel_event.set()`, the first act of releasing the runtime resources. */
    method Cancel()
      modifies this`cancel
      ensures View() == old(View()).(cancel := true)
    {
      cancel := true;
    }

    /** `metrics.sample_saved()` */
    method SampleSaved()
      modifies this`saved
      ensures View() == old(View()).(saved := old(saved) + 1)
    {
      saved := saved + 1;
    }

    method AcceptFrame() returns (accepted: bool)
      ensures accepted == AcceptsFrames(View())
    {
      accepted := !(!active || cancel || !accepting || paused || completion);
    }

    /** The critical section of `_request_completion`; a granted caller then sends COMPLETED. */
    method RequestCompletion(now: real) returns (granted: bool)
      modifies this
      ensures View() == Requested(old(View()), now) && commands == old(commands)
      ensures granted == old(!completion && !cancel)
      ensures granted ==> completion && !accepting && started == None && elapsed == ElapsedAt(old(View()), now)
      ensures !granted ==> View() == old(View())
    {
      if completion || cancel {
        return false;
      }
      completion := true;
      accepting := false;
      Fold(now);
      granted := true;
    }

    method FinishStorageStop()
      modifies this`failureSent, this`commands
      ensures View() == FailureFlushed(old(View()))
      ensures commands == old(commands) +
        (if SendsFailure(old(View())) then [Failed(failure.value)] else [])
      ensures failureSent == (old(failureSent) || old(failure.Some? && inflight == 0 && !cancel))
    {
      if failure.None? || inflight != 0 || failureSent || cancel {
        return;
      }
      failureSent := true;
      commands := commands + [Failed(failure.value)];
    }

    method CheckStorage(reason: string)
      modifies this
      ensures View() == StorageFailed(old(View()), reason)
      ensures commands == old(commands) +
        (if old(active && !cancel && failure.None? && inflight == 0 && !failureSent) then [Failed(reason)] else [])
      ensures old(active && !cancel && failure.None?) ==> failure == Some(reason) && completion && !accepting
      ensures old(active && !cancel && failure.None?) ==> inflight == old(inflight) && started == old(started)
      ensures !old(active && !cancel && failure.None?) ==> View() == old(View())
    {
      if !active || cancel || failure.Some? {
        return;
      }
      failure := Some(reason);
      completion := true;
      accepting := false;
      FinishStorageStop();
    }

    /** The admission section of `_sample_loop`. */
    method AdmitSample() returns (admitted: bool)
      modifies this`inflight
      ensures View() == Admitted(old(View())) && admitted == old(!completion && !cancel)
      ensures inflight == old(inflight) + if admitted then 1 else 0
    {
      if completion || cancel {
        return false;
      }
      inflight := inflight + 1;
      admitted := true;
    }

    /** The `finally` section of `_sample_loop`. */
    method ReleaseSample()
      modifies this
      ensures View() == Released(old(View())) && inflight == old(inflight) - 1
      ensures commands == old(commands) +
        (if SendsFailure(old(View()).(inflight := old(inflight) - 1)) then [Failed(failure.value)] else [])
    {
      inflight := inflight - 1;
      FinishStorageStop();
    }
  }
}
