/** The frame-rate gate: guard and marker nodes (nodes/common.py) over the session's gate table
    (session.py), joined to the DAG scheduler. With one sample worker the samples of a session run
    one after another; each is a complete run of the scheduler of any pipeline the parser accepts. */
module FpsGate {
  import opened Options
  import opened Graphs
  import opened PipelineConfig
  import opened DagExecutor

  /** `mark_fps_gate_timestamp_ns`: the mark never moves back. */
  function Marked(last: Option<int>, ts: int): Option<int> {
    if last.None? || ts > last.value then Some(ts) else last
  }

  /** A gate after marks arriving in some order, as several workers make them. */
  function MarkedAll(marks: seq<int>): Option<int> {
    if marks == [] then None else Marked(MarkedAll(marks[..|marks| - 1]), marks[|marks| - 1])
  }

  /** Whatever order marks arrive in, the gate holds the latest timestamp. */
  lemma {:induction false} GateHoldsLatest(marks: seq<int>)
    ensures marks != [] ==> MarkedAll(marks).Some? && MarkedAll(marks).value in marks
    ensures forall ts :: ts in marks ==> ts <= MarkedAll(marks).value
  {
    if marks != [] {
      var rest := marks[..|marks| - 1];
      GateHoldsLatest(rest);
      assert marks == rest + [marks[|marks| - 1]];
    }
  }

  function MinIntervalNs(maxFps: real): real
    requires maxFps > 0.0
  {
    1_000_000_000.0 / maxFps
  }

  /** What the guard node returns. */
  function GuardResult(last: Option<int>, ts: int, maxFps: real): NodeResult
    requires maxFps > 0.0
  {
    if last.None? then ResultOk
    else if (ts - last.value) as real < MinIntervalNs(maxFps) then SkipSample
    else ResultOk
  }

  class GateTable {
    var last: map<string, int>

    function Get(gate: string): Option<int>
      reads this
    {
      if gate in last then Some(last[gate]) else None
    }

    constructor ()
      ensures last == map[]
    {
      last := map[];
    }

    method Mark(gate: string, ts: int)
      modifies this
      ensures Get(gate) == Marked(old(Get(gate)), ts)
      ensures Get(gate) == Some(if gate in old(last) && ts <= old(last)[gate] then old(last)[gate] else ts)
      ensures forall g :: g != gate ==> Get(g) == old(Get(g))
    {
      if gate !in last || ts > last[gate] {
        last := last[gate := ts];
      }
    }

    method RunGuard(gate: string, ts: int, maxFps: real) returns (r: NodeResult)
      requires maxFps > 0.0
      ensures r == GuardResult(Get(gate), ts, maxFps)
    {
      if gate !in last {
        return ResultOk;
      }
      var elapsed := ts - last[gate];
      if elapsed as real < 1_000_000_000.0 / maxFps {
        return SkipSample;
      }
      r := ResultOk;
    }
  }

  /** Any pipeline the parser accepts, repeated edges included, with one guard for the gate and,
      downstream of it, the gate's only marker. */
  datatype Gate = Gate(p: Pipeline, guard: Id, marker: Id, maxFps: real)

  ghost predicate ValidGate(g: Gate) {
    && Accepted(g.p) && g.maxFps > 0.0
    && g.guard in g.p.nodes && g.marker in g.p.nodes && ReachesProperly(g.p.succ, g.guard, g.marker)
  }

  /** One sample: the timestamp of its main frame and the scheduler run it caused. */
  datatype Sample = Sample(ts: int, run: seq<Exec>)

  ghost predicate MarkerRan(g: Gate, s: Sample)
    requires |s.run| > 0
  {
    Submitted(g.marker) in Last(s.run).log
  }

  /** What the guard may have reported at a position of the log: it read the gate before this sample's mark or,
      when a repeated edge runs it again once the marker is submitted, possibly after it. */
  ghost predicate GuardReport(g: Gate, last: Option<int>, ts: int, before: seq<Event>, o: NodeResult)
    requires g.maxFps > 0.0
  {
    || o == GuardResult(last, ts, g.maxFps)
    || (Submitted(g.marker) in before && o == GuardResult(Marked(last, ts), ts, g.maxFps))
  }

  ghost predicate GuardReportAt(g: Gate, last: Option<int>, ts: int, e: Event, before: seq<Event>)
    requires g.maxFps > 0.0
  {
    e.Finished? && e.node == g.guard ==> GuardReport(g, last, ts, before, e.status)
  }

  /** The run is complete, and every report of the guard is one the gate table could have caused. */
  ghost predicate SampleRun(g: Gate, last: Option<int>, s: Sample)
    requires g.maxFps > 0.0
  {
    && IsRun(g.p, s.run) && Terminal(Last(s.run))
    && forall k {:trigger Last(s.run).log[..k]} :: 0 <= k < |Last(s.run).log| ==>
      GuardReportAt(g, last, s.ts, Last(s.run).log[k], Last(s.run).log[..k])
  }

  /** The gate after a list of samples, and the timestamps at which the marker ran. A marker that a
      repeated edge runs again marks the same timestamp again, which leaves the gate as it is. */
  ghost function GateAfter(g: Gate, samples: seq<Sample>): Option<int>
    requires forall s :: s in samples ==> |s.run| > 0
  {
    if samples == [] then None
    else
      var before := GateAfter(g, samples[..|samples| - 1]);
      var s := samples[|samples| - 1];
      if MarkerRan(g, s) then Marked(before, s.ts) else before
  }

  ghost function Marks(g: Gate, samples: seq<Sample>): seq<int>
    requires forall s :: s in samples ==> |s.run| > 0
  {
    if samples == [] then []
    else
      var before := Marks(g, samples[..|samples| - 1]);
      var s := samples[|samples| - 1];
      if MarkerRan(g, s) then before + [s.ts] else before
  }

  /** A session of one worker: every sample ran on the gate its predecessors left. */
  ghost predicate Session(g: Gate, samples: seq<Sample>)
    requires g.maxFps > 0.0
  {
    && (forall s :: s in samples ==> |s.run| > 0)
    && forall i :: 0 <= i < |samples| ==> SampleRun(g, GateAfter(g, samples[..i]), samples[i])
  }

  /** The marker runs only in samples the guard let through. */
  lemma MarkerNeedsGuard(g: Gate, last: Option<int>, s: Sample)
    requires ValidGate(g) && |s.run| > 0 && SampleRun(g, last, s) && MarkerRan(g, s)
    ensures GuardResult(last, s.ts, g.maxFps) == ResultOk
  {
    StartIsOnlySource(g.p, g.p.start);
    BooksHold(g.p, s.run);
    SubmittedMeansAncestorsDone(g.p, Last(s.run).log, g.guard, g.marker);
    var log := Last(s.run).log;
    var k :| 0 <= k < |log| && log[k] == Finished(g.guard, ResultOk);
    assert GuardReportAt(g, last, s.ts, log[k], log[..k]);
    hide MinIntervalNs, SampleRun, MarkerRan, ValidGate;
    OkBeforeTheMark(g, last, s.ts, log[..k]);
  }

  /** A guard that reads its own sample's mark skips, so an OK was read before it. */
  lemma OkBeforeTheMark(g: Gate, last: Option<int>, ts: int, before: seq<Event>)
    requires g.maxFps > 0.0 && GuardReport(g, last, ts, before, ResultOk)
    ensures GuardResult(last, ts, g.maxFps) == ResultOk
  {
    IntervalPositive(g.maxFps);
    hide MinIntervalNs;
  }

  ghost predicate Spaced(marks: seq<int>, interval: real) {
    forall i :: 0 <= i < |marks| - 1 ==> (marks[i + 1] - marks[i]) as real >= interval
  }

  /** Consecutive marks keep the minimum interval and the gate holds the last of them. */
  lemma {:induction false} MarksSpaced(g: Gate, samples: seq<Sample>)
    requires ValidGate(g) && Session(g, samples)
    ensures Spaced(Marks(g, samples), MinIntervalNs(g.maxFps))
    ensures var m := Marks(g, samples);
      GateAfter(g, samples) == if m == [] then None else Some(m[|m| - 1])
  {
    if samples != [] {
      var before, s := samples[..|samples| - 1], samples[|samples| - 1];
      hide ValidGate, SampleRun, MinIntervalNs, MarkerRan, Session, Spaced, GuardResult, Marked;
      SessionPrefix(g, samples);
      MarksSpaced(g, before);
      if MarkerRan(g, s) {
        MarkerNeedsGuard(g, GateAfter(g, before), s);
        MarkFollows(Marks(g, before), s.ts, g.maxFps);
      }
    }
  }

  /** A timestamp the guard lets through extends the marks and becomes the gate's value. */
  lemma MarkFollows(marks: seq<int>, ts: int, maxFps: real)
    requires maxFps > 0.0 && MinIntervalNs(maxFps) > 0.0 && Spaced(marks, MinIntervalNs(maxFps))
    requires GuardResult(if marks == [] then None else Some(marks[|marks| - 1]), ts, maxFps) == ResultOk
    ensures Spaced(marks + [ts], MinIntervalNs(maxFps))
    ensures Marked(if marks == [] then None else Some(marks[|marks| - 1]), ts) == Some(ts)
  {
    hide MinIntervalNs;
  }

  lemma SessionPrefix(g: Gate, samples: seq<Sample>)
    requires ValidGate(g) && Session(g, samples) && samples != []
    ensures var before, s := samples[..|samples| - 1], samples[|samples| - 1];
      Session(g, before) && |s.run| > 0 && SampleRun(g, GateAfter(g, before), s)
    ensures g.maxFps > 0.0 && MinIntervalNs(g.maxFps) > 0.0
    ensures forall s :: s in samples ==> |s.run| > 0
  {
    hide GateAfter, SampleRun;
    var before, s := samples[..|samples| - 1], samples[|samples| - 1];
    assert forall i :: 0 <= i < |before| ==> samples[..i] == before[..i];
    assert s in samples && forall x :: x in before ==> x in samples;
    IntervalPositive(g.maxFps);
  }

  lemma IntervalPositive(maxFps: real)
    requires maxFps > 0.0
    ensures MinIntervalNs(maxFps) > 0.0
  {
  }

  lemma {:induction false} SpacedSum(marks: seq<int>, interval: real, i: nat, j: nat)
    requires Spaced(marks, interval) && i <= j < |marks|
    ensures (marks[j] - marks[i]) as real >= (j - i) as real * interval
    decreases j - i
  {
    if i < j {
      SpacedSum(marks, interval, i, j - 1);
      assert marks[j] == marks[j - 1 + 1];
      assert (marks[j] - marks[j - 1]) as real >= interval;
      assert (j - i) as real * interval == (j - 1 - i) as real * interval + interval;
      assert (marks[j] - marks[i]) as real == (marks[j] - marks[j - 1]) as real + (marks[j - 1] - marks[i]) as real;
    }
  }

  lemma ScalePositive(n: int, x: real)
    requires n >= 1 && x > 0.0
    ensures n as real * x > 0.0
  {
  }

  lemma SpacedMarks(marks: seq<int>, interval: real, i: nat, j: nat)
    requires Spaced(marks, interval) && interval > 0.0 && i < j < |marks|
    ensures marks[i] < marks[j] && (marks[j] - marks[i]) as real >= (j - i) as real * interval
  {
    SpacedSum(marks, interval, i, j);
    ScalePositive(j - i, interval);
  }

  /** Whatever order frames arrive in, N marks span at least N - 1 intervals of 10^9 / maxFps and
      strictly increase. */
  lemma RateBound(g: Gate, samples: seq<Sample>, interval: real, i: nat, j: nat)
    requires ValidGate(g) && Session(g, samples) && i < j < |Marks(g, samples)|
    requires interval == 1_000_000_000.0 / g.maxFps
    ensures Marks(g, samples)[i] < Marks(g, samples)[j]
    ensures (Marks(g, samples)[j] - Marks(g, samples)[i]) as real >= (j - i) as real * interval
  {
    IntervalIs(g.maxFps);
    hide Marks, MinIntervalNs, Spaced, GateAfter, SampleRun;
    MarksSpaced(g, samples);
    IntervalPositive(g.maxFps);
    hide ValidGate;
    SpacedMarks(Marks(g, samples), interval, i, j);
  }

  lemma IntervalIs(maxFps: real)
    requires maxFps > 0.0
    ensures MinIntervalNs(maxFps) == 1_000_000_000.0 / maxFps
  {
  }

  /** The next sample of a session comes less than 10^9 / maxFps after the last mark. */
  ghost predicate TooClose(g: Gate, samples: seq<Sample>, ts: int)
    requires g.maxFps > 0.0 && forall s :: s in samples ==> |s.run| > 0
  {
    var m := Marks(g, samples);
    m != [] && (ts - m[|m| - 1]) as real < 1_000_000_000.0 / g.maxFps
  }

  /** The gate is exact in both directions: in a sample too close to the last mark the guard skips and the marker
      does not run; in any other the guard reports OK, at least until the sample's own marker is submitted. */
  lemma GuardDecides(g: Gate, samples: seq<Sample>, s: Sample, k: nat)
    requires ValidGate(g) && Session(g, samples + [s]) && k < |Last(s.run).log| && Last(s.run).log[k].Finished?
    requires Last(s.run).log[k].node == g.guard
    ensures g.maxFps > 0.0 && |s.run| > 0 && forall x :: x in samples ==> |x.run| > 0
    ensures TooClose(g, samples, s.ts) ==> Last(s.run).log[k].status == SkipSample && !MarkerRan(g, s)
    ensures !TooClose(g, samples, s.ts) ==>
      Last(s.run).log[k].status == ResultOk || Submitted(g.marker) in Last(s.run).log[..k]
  {
    var all := samples + [s];
    assert all[..|all| - 1] == samples && all[|all| - 1] == s;
    SessionPrefix(g, all);
    MarksSpaced(g, samples);
    IntervalIs(g.maxFps);
    var log, last := Last(s.run).log, GateAfter(g, samples);
    assert GuardReportAt(g, last, s.ts, log[k], log[..k]);
    hide MinIntervalNs, SampleRun, ValidGate, GateAfter, Marks, Session, Spaced;
    assert Submitted(g.marker) in log[..k] ==> Submitted(g.marker) in log;
    if TooClose(g, samples, s.ts) {
      if MarkerRan(g, s) {
        MarkerNeedsGuard(g, last, s);
        assert false;
      }
    }
  }
}
