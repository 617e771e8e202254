/** Every interleaving over one storage tracker, at the granularity of its lock. */
module StorageProtocol {
  import opened Options
  import opened Storage

  // Tracked writers, refreshes, outside changes and reconciling scans interleave. The disk maps a path to the size
  // of its regular file; a scan reads each path at some moment between its snapshot and its commit.

  /** A thread inside `writing(path)`: begun, and later also refreshed but not yet ended. */
  datatype Writer = Writer(path: Path, refreshed: bool)

  /** A reconcile between its critical sections. `before` is the disk when it took its snapshot. */
  datatype Scan = Scan(snap: Snapshot, seen: map<Path, Option<nat>>, before: map<Path, nat>)

  datatype System = System(
    tracker: Tracker, disk: map<Path, nat>, writers: map<nat, Writer>, scans: map<nat, Scan>, reconciled: bool)

  datatype Step =
    | Begin(w: nat, path: Path)
    | WriteFile(w: nat, content: Option<nat>)
    | RefreshWriter(w: nat, fault: Option<string>)
    | End(w: nat)
    | ChangeOutside(path: Path, content: Option<nat>)
    | RefreshOther(path: Path, fault: Option<string>)
    | StartScan(c: nat)
    | ReadFile(c: nat, path: Path)
    | CommitScan(c: nat)
    | FailScan(c: nat, message: string)

  function Put(disk: map<Path, nat>, p: Path, content: Option<nat>): map<Path, nat> {
    if content.None? then disk - {p} else disk[p := content.value]
  }

  function StatOf(disk: map<Path, nat>, p: Path, fault: Option<string>): Stat {
    if fault.Some? then StatFailed(fault.value) else if p in disk then Regular(disk[p]) else NotFound
  }

  function Read(disk: map<Path, nat>, p: Path): Option<nat> {
    if p in disk then Some(disk[p]) else None
  }

  /** The dictionary a finished scan returns. */
  function ScanResult(seen: map<Path, Option<nat>>): map<Path, nat> {
    map p | p in seen && seen[p].Some? :: seen[p].value
  }

  /** `tracked` are the paths that only writers inside `writing` ever change. */
  ghost predicate Enabled(tracked: iset<Path>, s: System, step: Step) {
    match step
    case Begin(w, _) => w !in s.writers
    case WriteFile(w, _) => w in s.writers && !s.writers[w].refreshed
    case RefreshWriter(w, _) => w in s.writers && !s.writers[w].refreshed
    case End(w) => w in s.writers && s.writers[w].refreshed && Get(s.tracker.writing, s.writers[w].path) > 0
    case ChangeOutside(p, _) => p !in tracked
    case RefreshOther(_, _) => true
    case StartScan(c) => c !in s.scans
    case ReadFile(c, _) => c in s.scans
    case CommitScan(c) => c in s.scans && s.tracker.sizes.Keys + s.scans[c].before.Keys <= s.scans[c].seen.Keys
    case FailScan(c, _) => c in s.scans
  }

  ghost function Apply(tracked: iset<Path>, s: System, step: Step): System
    requires Enabled(tracked, s, step)
  {
    match step
    case Begin(w, p) => s.(tracker := Begun(s.tracker, p), writers := s.writers[w := Writer(p, false)])
    case WriteFile(w, content) => s.(disk := Put(s.disk, s.writers[w].path, content))
    case RefreshWriter(w, fault) =>
      var p := s.writers[w].path;
      s.(tracker := Refreshed(s.tracker, p, StatOf(s.disk, p, fault)), writers := s.writers[w := Writer(p, true)])
    case End(w) => s.(tracker := Ended(s.tracker, s.writers[w].path), writers := s.writers - {w})
    case ChangeOutside(p, content) => s.(disk := Put(s.disk, p, content))
    case RefreshOther(p, fault) => s.(tracker := Refreshed(s.tracker, p, StatOf(s.disk, p, fault)))
    case StartScan(c) => s.(scans := s.scans[c := Scan(SnapshotOf(s.tracker), map[], s.disk)])
    case ReadFile(c, p) =>
      var scan := s.scans[c];
      s.(scans := s.scans[c := scan.(seen := scan.seen[p := Read(s.disk, p)])])
    case CommitScan(c) =>
      s.(tracker := Committed(s.tracker, s.scans[c].snap, ScanResult(s.scans[c].seen)),
         scans := s.scans - {c}, reconciled := true)
    case FailScan(c, message) => s.(tracker := FailedWith(s.tracker, message), scans := s.scans - {c})
  }

  ghost predicate Next(tracked: iset<Path>, s: System, t: System) {
    exists step :: Enabled(tracked, s, step) && t == Apply(tracked, s, step)
  }

  function Initial(disk: map<Path, nat>): System {
    System(Tracker(map[], map[], map[], 0, 0, None), disk, map[], map[], false)
  }

  ghost predicate IsRun(tracked: iset<Path>, run: seq<System>) {
    && |run| > 0 && run[0] == Initial(run[0].disk)
    && forall i :: 0 <= i < |run| - 1 ==> Next(tracked, run[i], run[i + 1])
  }

  function Last(run: seq<System>): System
    requires |run| > 0
  {
    run[|run| - 1]
  }

  // ----- Invariants -----

  ghost function Pending(s: System, p: Path): set<nat> {
    set w | w in s.writers && s.writers[w].path == p
  }

  /** No writer of `p` is between its begin and its refresh. */
  ghost predicate Quiet(s: System, p: Path) {
    forall w :: w in s.writers && s.writers[w].path == p ==> s.writers[w].refreshed
  }

  ghost predicate Accurate(s: System, p: Path) {
    Get(s.tracker.sizes, p) == Get(s.disk, p)
  }

  /** A path is known once a commit has happened or it has been refreshed. */
  ghost predicate Known(s: System, p: Path) {
    s.reconciled || p in s.tracker.versions
  }

  /** The pending-writer counts are exact. */
  ghost predicate CountsExact(s: System) {
    forall p :: CountExact(s, p)
  }

  ghost predicate VersionsBounded(s: System) {
    && (forall p :: Get(s.tracker.versions, p) <= s.tracker.revision)
    && (forall c :: c in s.scans ==> s.scans[c].snap.revision <= s.tracker.revision)
  }

  /** A writer past its refresh has left its mark in the versions, above every snapshot it follows. */
  ghost predicate RefreshesMarked(s: System) {
    && (forall w :: w in s.writers && s.writers[w].refreshed ==> s.writers[w].path in s.tracker.versions)
    && (forall w, c :: w in s.writers && s.writers[w].refreshed && c in s.scans ==>
      s.writers[w].path in s.scans[c].snap.writing ||
      Get(s.tracker.versions, s.writers[w].path) > s.scans[c].snap.revision)
  }

  /** A path that was being written at a snapshot has a version, or is still being written. */
  ghost predicate SnapshotsAnswered(s: System) {
    forall c, p :: c in s.scans && p in s.scans[c].snap.writing ==> p in s.tracker.versions || !Quiet(s, p)
  }

  /** A tracked path that commit would not skip has not changed since the snapshot. */
  ghost predicate Untouched(s: System, scan: Scan, p: Path) {
    !Skipped(s.tracker, scan.snap, p) ==>
      && Read(s.disk, p) == Read(scan.before, p)
      && (p in scan.seen ==> scan.seen[p] == Read(scan.before, p))
  }

  ghost predicate ScansFresh(tracked: iset<Path>, s: System) {
    forall c, p :: c in s.scans && p in tracked ==> Untouched(s, s.scans[c], p)
  }

  ghost predicate SizesAccurate(tracked: iset<Path>, s: System) {
    s.tracker.error.None? ==> forall p :: p in tracked && Quiet(s, p) && Known(s, p) ==> Accurate(s, p)
  }

  ghost predicate Invariant(tracked: iset<Path>, s: System) {
    && s.tracker.size == Sum(s.tracker.sizes)
    && CountsExact(s) && VersionsBounded(s) && RefreshesMarked(s) && SnapshotsAnswered(s)
    && ScansFresh(tracked, s) && SizesAccurate(tracked, s)
  }

  lemma KeepsSum(tracked: iset<Path>, s: System, step: Step)
    requires Enabled(tracked, s, step) && s.tracker.size == Sum(s.tracker.sizes)
    ensures var t := Apply(tracked, s, step).tracker; t.size == Sum(t.sizes)
  {
    if step.RefreshWriter? {
      var p := s.writers[step.w].path;
      SumUpdate(s.tracker.sizes, p, SizeSeen(s.tracker, p, StatOf(s.disk, p, step.fault)));
    } else if step.RefreshOther? {
      SumUpdate(s.tracker.sizes, step.path, SizeSeen(s.tracker, step.path, StatOf(s.disk, step.path, step.fault)));
    }
  }

  ghost predicate CountExact(s: System, p: Path) {
    Get(s.tracker.writing, p) == |Pending(s, p)| && (p in s.tracker.writing ==> s.tracker.writing[p] > 0)
  }

  lemma CountKept(tracked: iset<Path>, s: System, step: Step, p: Path)
    requires Enabled(tracked, s, step) && CountExact(s, p)
    ensures CountExact(Apply(tracked, s, step), p)
  {
    var t := Apply(tracked, s, step);
    match step {
      case Begin(w, q) => CountBegun(s, w, q, p);
      case End(w) => CountEnded(s, w, p);
      case _ =>
        assert t.tracker.writing == s.tracker.writing;
        assert Pending(t, p) == Pending(s, p);
    }
  }

  lemma CountBegun(s: System, w: nat, q: Path, p: Path)
    requires w !in s.writers && CountExact(s, p)
    ensures CountExact(s.(tracker := Begun(s.tracker, q), writers := s.writers[w := Writer(q, false)]), p)
  {
    var t := s.(tracker := Begun(s.tracker, q), writers := s.writers[w := Writer(q, false)]);
    assert Pending(t, p) == Pending(s, p) + if p == q then {w} else {};
  }

  lemma CountEnded(s: System, w: nat, p: Path)
    requires w in s.writers && Get(s.tracker.writing, s.writers[w].path) > 0 && CountExact(s, p)
    ensures CountExact(s.(tracker := Ended(s.tracker, s.writers[w].path), writers := s.writers - {w}), p)
  {
    var t := s.(tracker := Ended(s.tracker, s.writers[w].path), writers := s.writers - {w});
    assert Pending(t, p) == Pending(s, p) - {w};
    assert w in Pending(s, s.writers[w].path);
  }

  lemma KeepsCounts(tracked: iset<Path>, s: System, step: Step)
    requires Enabled(tracked, s, step) && CountsExact(s)
    ensures CountsExact(Apply(tracked, s, step))
  {
    hide Apply;
    forall p ensures CountExact(Apply(tracked, s, step), p) {
      assert CountExact(s, p);
      CountKept(tracked, s, step, p);
    }
  }

  lemma KeepsVersions(tracked: iset<Path>, s: System, step: Step)
    requires Enabled(tracked, s, step) && VersionsBounded(s)
    ensures VersionsBounded(Apply(tracked, s, step))
  {
    var t := Apply(tracked, s, step);
    forall p ensures Get(t.tracker.versions, p) <= t.tracker.revision {
      assert Get(s.tracker.versions, p) <= s.tracker.revision;
    }
  }

  /** A path with a pending writer is in the pending-writer table. */
  lemma PendingIsListed(s: System, w: nat)
    requires CountsExact(s) && w in s.writers
    ensures s.writers[w].path in s.tracker.writing
  {
    var p := s.writers[w].path;
    assert w in Pending(s, p);
    assert CountExact(s, p);
  }

  lemma ListedIsPending(s: System, p: Path) returns (w: nat)
    requires CountsExact(s) && p in s.tracker.writing
    ensures w in s.writers && s.writers[w].path == p
  {
    assert CountExact(s, p);
    assert Pending(s, p) != {};
    w :| w in Pending(s, p);
  }

  lemma KeepsMarks(tracked: iset<Path>, s: System, step: Step)
    requires Enabled(tracked, s, step) && VersionsBounded(s) && RefreshesMarked(s) && CountsExact(s)
    ensures RefreshesMarked(Apply(tracked, s, step))
  {
    var t := Apply(tracked, s, step);
    forall w, c | w in t.writers && t.writers[w].refreshed && c in t.scans
      ensures t.writers[w].path in t.scans[c].snap.writing ||
        Get(t.tracker.versions, t.writers[w].path) > t.scans[c].snap.revision
    {
      if step.StartScan? && c == step.c {
        PendingIsListed(s, w);
      } else {
        assert c in s.scans && s.scans[c].snap == t.scans[c].snap;
        assert s.scans[c].snap.revision <= s.tracker.revision;
      }
    }
  }

  lemma KeepsAnswered(tracked: iset<Path>, s: System, step: Step)
    requires Enabled(tracked, s, step) && RefreshesMarked(s) && SnapshotsAnswered(s) && CountsExact(s)
    ensures SnapshotsAnswered(Apply(tracked, s, step))
  {
    var t := Apply(tracked, s, step);
    forall c, p | c in t.scans && p in t.scans[c].snap.writing && p !in t.tracker.versions
      ensures !Quiet(t, p)
    {
      var w: nat;
      if step.StartScan? && c == step.c {
        w := ListedIsPending(s, p);
      } else {
        assert c in s.scans && s.scans[c].snap == t.scans[c].snap;
        assert !Quiet(s, p);
        w :| w in s.writers && s.writers[w].path == p && !s.writers[w].refreshed;
      }
      assert w in t.writers && t.writers[w] == s.writers[w];
    }
  }

  lemma UntouchedKept(tracked: iset<Path>, s: System, step: Step, c: nat, p: Path)
    requires Enabled(tracked, s, step) && VersionsBounded(s) && RefreshesMarked(s) && CountsExact(s)
    requires c in s.scans && p in tracked && Untouched(s, s.scans[c], p)
    requires c in Apply(tracked, s, step).scans
    ensures Untouched(Apply(tracked, s, step), Apply(tracked, s, step).scans[c], p)
  {
    if step.WriteFile? {
      PendingIsListed(s, step.w);
    } else if step.End? && s.writers[step.w].path == p {
      assert p in s.scans[c].snap.writing || Get(s.tracker.versions, p) > s.scans[c].snap.revision;
    }
  }

  lemma KeepsFresh(tracked: iset<Path>, s: System, step: Step)
    requires Enabled(tracked, s, step) && VersionsBounded(s) && RefreshesMarked(s) && CountsExact(s)
    requires ScansFresh(tracked, s)
    ensures ScansFresh(tracked, Apply(tracked, s, step))
  {
    hide VersionsBounded, RefreshesMarked, CountsExact, Untouched;
    var t := Apply(tracked, s, step);
    forall c, p | c in t.scans && p in tracked ensures Untouched(t, t.scans[c], p) {
      if step.StartScan? && c == step.c {
        NewScanUntouched(t, p, t.scans[c]);
      } else {
        assert c in s.scans;
        UntouchedKept(tracked, s, step, c, p);
      }
    }
  }

  lemma NewScanUntouched(t: System, p: Path, scan: Scan)
    requires scan.before == t.disk && scan.seen == map[]
    ensures Untouched(t, scan, p)
  {
  }

  /** Commit leaves every quiet tracked path accurate, known before or not. */
  lemma CommitAccurate(tracked: iset<Path>, s: System, c: nat, p: Path)
    requires Invariant(tracked, s) && Enabled(tracked, s, CommitScan(c)) && s.tracker.error.None?
    requires p in tracked && Quiet(s, p)
    ensures Get(CommittedSizes(s.tracker, s.scans[c].snap, ScanResult(s.scans[c].seen)), p) == Get(s.disk, p)
  {
    var scan := s.scans[c];
    assert Untouched(s, scan, p);
    if Skipped(s.tracker, scan.snap, p) {
      if p in s.tracker.writing {
        var w := ListedIsPending(s, p);
        assert s.writers[w].refreshed;
      }
      assert Known(s, p) && Accurate(s, p);
    }
  }

  lemma QuietBefore(tracked: iset<Path>, s: System, step: Step, p: Path)
    requires Enabled(tracked, s, step) && Quiet(Apply(tracked, s, step), p)
    requires !(step.RefreshWriter? && s.writers[step.w].path == p)
    ensures Quiet(s, p)
  {
    var t := Apply(tracked, s, step);
    forall w | w in s.writers && s.writers[w].path == p ensures s.writers[w].refreshed {
      if w in t.writers {
        assert t.writers[w] == s.writers[w];
      }
    }
  }

  lemma KeepsAccurate(tracked: iset<Path>, s: System, step: Step)
    requires Enabled(tracked, s, step) && Invariant(tracked, s)
    ensures SizesAccurate(tracked, Apply(tracked, s, step))
  {
    var t := Apply(tracked, s, step);
    if t.tracker.error.None? {
      forall p | p in tracked && Quiet(t, p) && Known(t, p) ensures Accurate(t, p) {
        AccurateKept(tracked, s, step, p);
      }
    }
  }

  lemma AccurateKept(tracked: iset<Path>, s: System, step: Step, p: Path)
    requires Enabled(tracked, s, step) && Invariant(tracked, s) && p in tracked
    requires Apply(tracked, s, step).tracker.error.None?
    requires Quiet(Apply(tracked, s, step), p) && Known(Apply(tracked, s, step), p)
    ensures Accurate(Apply(tracked, s, step), p)
  {
    hide CountsExact, RefreshesMarked, SnapshotsAnswered, VersionsBounded, ScansFresh;
    if step.RefreshWriter? && s.writers[step.w].path == p {
    } else {
      QuietBefore(tracked, s, step, p);
      match step {
        case CommitScan(c) => CommitAccurate(tracked, s, c, p);
        case WriteFile(w, _) => assert s.writers[w].path != p;
        case RefreshOther(q, _) => assert p != q ==> Known(s, p);
        case _ => assert Known(s, p) && Accurate(s, p);
      }
    }
  }

  lemma InvariantKept(tracked: iset<Path>, s: System, step: Step)
    requires Enabled(tracked, s, step) && Invariant(tracked, s)
    ensures Invariant(tracked, Apply(tracked, s, step))
  {
    hide Apply, Enabled;
    KeepsSum(tracked, s, step);
    KeepsCounts(tracked, s, step);
    KeepsVersions(tracked, s, step);
    KeepsMarks(tracked, s, step);
    KeepsAnswered(tracked, s, step);
    KeepsFresh(tracked, s, step);
    KeepsAccurate(tracked, s, step);
  }

  lemma InitialInvariant(tracked: iset<Path>, disk: map<Path, nat>)
    ensures Invariant(tracked, Initial(disk))
  {
    forall p ensures Pending(Initial(disk), p) == {} {}
  }

  lemma {:induction false} InvariantHolds(tracked: iset<Path>, run: seq<System>)
    requires IsRun(tracked, run)
    ensures Invariant(tracked, Last(run))
  {
    hide Invariant, Enabled, Apply;
    if |run| == 1 {
      InitialInvariant(tracked, run[0].disk);
    } else {
      InvariantHolds(tracked, run[..|run| - 1]);
      assert Next(tracked, run[|run| - 2], run[|run| - 2 + 1]);
      var s := run[|run| - 2];
      var step :| Enabled(tracked, s, step) && Last(run) == Apply(tracked, s, step);
      InvariantKept(tracked, s, step);
    }
  }

  // ----- Theorems -----

  /** The cached total is the sum of the cached sizes in every reachable state, errors included. */
  lemma TotalIsSum(tracked: iset<Path>, run: seq<System>)
    requires IsRun(tracked, run)
    ensures Last(run).tracker.size == Sum(Last(run).tracker.sizes)
  {
    InvariantHolds(tracked, run);
  }

  /** No reconcile ever leaves a stale size behind: a tracked path that no writer is changing is exact. */
  lemma NoStaleSize(tracked: iset<Path>, run: seq<System>, p: Path)
    requires IsRun(tracked, run) && Last(run).tracker.error.None?
    requires p in tracked && Quiet(Last(run), p)
    requires Last(run).reconciled || p in Last(run).tracker.versions
    ensures Get(Last(run).tracker.sizes, p) == Get(Last(run).disk, p)
  {
    InvariantHolds(tracked, run);
    assert Known(Last(run), p);
    assert Accurate(Last(run), p);
  }

  /** Leaving `writing` can always take one off its path's count: a writer past its refresh is never kept
      from ending. */
  lemma EndNeverBlocked(tracked: iset<Path>, run: seq<System>, w: nat)
    requires IsRun(tracked, run) && w in Last(run).writers && Last(run).writers[w].refreshed
    ensures Get(Last(run).tracker.writing, Last(run).writers[w].path) > 0
    ensures Enabled(tracked, Last(run), End(w))
  {
    InvariantHolds(tracked, run);
    var s := Last(run);
    assert CountExact(s, s.writers[w].path);
    assert w in Pending(s, s.writers[w].path);
  }

  /** When every file is tracked and no write is in progress, the reported size is the real disk use;
      after an error no size is reported. */
  lemma ReportedSizeIsDiskUse(tracked: iset<Path>, run: seq<System>)
    requires IsRun(tracked, run) && Last(run).reconciled
    requires forall p :: p in tracked && Quiet(Last(run), p)
    ensures ReportedSize(Last(run).tracker) ==
      if Last(run).tracker.error.Some? then None else Some(Sum(Last(run).disk))
  {
    var s := Last(run);
    TotalIsSum(tracked, run);
    if s.tracker.error.None? {
      forall p ensures Get(s.tracker.sizes, p) == Get(s.disk, p) {
        NoStaleSize(tracked, run, p);
      }
      SumAgrees(s.tracker.sizes, s.disk);
    }
  }

  /** When every file is tracked and no write is in progress, the verdict is about the real disk use. */
  lemma VerdictIsAboutDisk(tracked: iset<Path>, run: seq<System>, limitBytes: real)
    requires IsRun(tracked, run) && Last(run).reconciled
    requires forall p :: p in tracked && Quiet(Last(run), p)
    ensures VerdictOf(Last(run).tracker, limitBytes) ==
      if Last(run).tracker.error.Some? then CheckFailed(Last(run).tracker.error.value)
      else if Sum(Last(run).disk) as real >= limitBytes then LimitReached else WithinLimit
  {
    ReportedSizeIsDiskUse(tracked, run);
  }

  // ----- What a reconcile picks up -----

  /** A run together with the step taken from each of its states. */
  ghost predicate IsTrace(tracked: iset<Path>, run: seq<System>, steps: seq<Step>) {
    && |run| == |steps| + 1 && run[0] == Initial(run[0].disk)
    && forall i :: 0 <= i < |steps| ==>
      Enabled(tracked, run[i], steps[i]) && run[i + 1] == Apply(tracked, run[i], steps[i])
  }

  lemma TraceInvariant(tracked: iset<Path>, run: seq<System>, steps: seq<Step>, i: nat)
    requires IsTrace(tracked, run, steps) && i < |run|
    ensures Invariant(tracked, run[i])
  {
    hide Enabled, Apply, Invariant;
    var before := run[..i + 1];
    forall m | 0 <= m < |before| - 1 ensures Next(tracked, before[m], before[m + 1]) {
      assert Enabled(tracked, run[m], steps[m]);
    }
    InvariantHolds(tracked, before);
  }

  predicate EndsScan(step: Step, c: nat) {
    (step.CommitScan? || step.FailScan?) && step.c == c
  }

  ghost predicate Refreshes(s: System, step: Step, p: Path) {
    match step
    case RefreshWriter(w, _) => w in s.writers && s.writers[w].path == p
    case RefreshOther(q, _) => q == p
    case _ => false
  }

  /** The size scan `c` last read for `p` among the steps after `i` and before `j`, 0 when it found no file. */
  ghost function SizeRead(run: seq<System>, steps: seq<Step>, c: nat, p: Path, i: nat, j: nat): nat
    requires i <= j <= |steps| < |run|
  {
    if j <= i + 1 then 0
    else if steps[j - 1] == ReadFile(c, p) then Get(run[j - 1].disk, p)
    else SizeRead(run, steps, c, p, i, j - 1)
  }

  /** Between snapshot and commit nothing has touched the version of `p`, and the scan holds what it last read. */
  ghost predicate Scanning(before: Tracker, s: System, c: nat, p: Path, size: nat) {
    && c in s.scans && s.scans[c].snap.revision == before.revision && s.scans[c].snap.writing == before.writing.Keys
    && Get(s.tracker.versions, p) == Get(before.versions, p)
    && Get(ScanResult(s.scans[c].seen), p) == size
  }

  lemma ScanningStep(tracked: iset<Path>, before: Tracker, s: System, step: Step, c: nat, p: Path, size: nat)
    requires Enabled(tracked, s, step) && Scanning(before, s, c, p, size)
    requires !EndsScan(step, c) && !Refreshes(s, step, p)
    ensures Scanning(before, Apply(tracked, s, step), c, p,
                     if step == ReadFile(c, p) then Get(s.disk, p) else size)
  {
  }

  lemma {:induction false} ScanningHolds(tracked: iset<Path>, run: seq<System>, steps: seq<Step>, c: nat, p: Path,
                                         i: nat, j: nat)
    requires IsTrace(tracked, run, steps) && i < j <= |steps| && steps[i] == StartScan(c)
    requires forall m :: i < m < j ==> !EndsScan(steps[m], c) && !Refreshes(run[m], steps[m], p)
    ensures Scanning(run[i].tracker, run[j], c, p, SizeRead(run, steps, c, p, i, j))
    decreases j
  {
    hide Scanning;
    if j == i + 1 {
      assert Enabled(tracked, run[i], steps[i]);
      ScanningStarts(run[i], c, p);
    } else {
      ScanningHolds(tracked, run, steps, c, p, i, j - 1);
      var size := SizeRead(run, steps, c, p, i, j - 1);
      hide Apply, Enabled, Refreshes;
      ScanningStep(tracked, run[i].tracker, run[j - 1], steps[j - 1], c, p, size);
      assert run[j - 1 + 1] == Apply(tracked, run[j - 1], steps[j - 1]);
    }
  }

  lemma ScanningStarts(s: System, c: nat, p: Path)
    ensures Scanning(s.tracker, s.(scans := s.scans[c := Scan(SnapshotOf(s.tracker), map[], s.disk)]), c, p, 0)
  {
  }

  /** A reconcile believes its scan: a path, tracked or not, that nobody was writing at the snapshot or at the
      commit, and that was not refreshed in between, is left with the size the scan read for it. */
  lemma ReconcileTakesScan(tracked: iset<Path>, run: seq<System>, steps: seq<Step>, c: nat, p: Path, i: nat, j: nat)
    requires IsTrace(tracked, run, steps) && i < j < |steps|
    requires steps[i] == StartScan(c) && steps[j] == CommitScan(c)
    requires forall m :: i < m < j ==> !EndsScan(steps[m], c) && !Refreshes(run[m], steps[m], p)
    requires Pending(run[i], p) == {} == Pending(run[j], p)
    ensures Get(run[j + 1].tracker.sizes, p) == SizeRead(run, steps, c, p, i, j)
  {
    TraceInvariant(tracked, run, steps, i);
    TraceInvariant(tracked, run, steps, j);
    ScanningHolds(tracked, run, steps, c, p, i, j);
    assert Enabled(tracked, run[j], steps[j]);
    NobodyWriting(run[i], p);
    NobodyWriting(run[j], p);
    assert Get(run[i].tracker.versions, p) <= run[i].tracker.revision;
    hide CountsExact, RefreshesMarked, SnapshotsAnswered, ScansFresh, SizesAccurate, Pending;
    CommitTakes(run[j].tracker, run[j].scans[c].snap, ScanResult(run[j].scans[c].seen), p);
  }

  lemma NobodyWriting(s: System, p: Path)
    requires CountsExact(s) && Pending(s, p) == {}
    ensures p !in s.tracker.writing
  {
    assert CountExact(s, p);
  }

  lemma CommitTakes(t: Tracker, snap: Snapshot, scanned: map<Path, nat>, p: Path)
    requires p !in snap.writing && p !in t.writing && Get(t.versions, p) <= snap.revision
    ensures Get(CommittedSizes(t, snap, scanned), p) == Get(scanned, p)
  {
  }

  lemma {:induction false} SizeReadKept(run: seq<System>, steps: seq<Step>, c: nat, p: Path, i: nat, r: nat, j: nat)
    requires i < r < j <= |steps| < |run| && steps[r] == ReadFile(c, p)
    requires forall m :: r < m < j ==> Get(run[m].disk, p) == Get(run[r].disk, p)
    ensures SizeRead(run, steps, c, p, i, j) == Get(run[r].disk, p)
    decreases j
  {
    if j > r + 1 && steps[j - 1] != ReadFile(c, p) {
      SizeReadKept(run, steps, c, p, i, r, j - 1);
    }
  }

  /** So an outside change is picked up: whatever the cached size was, a path that was read at `r` and did not
      change on the disk until the commit is exact after it. */
  lemma OutsideChangePickedUp(tracked: iset<Path>, run: seq<System>, steps: seq<Step>, c: nat, p: Path,
                              i: nat, r: nat, j: nat)
    requires IsTrace(tracked, run, steps) && i < r < j < |steps|
    requires steps[i] == StartScan(c) && steps[r] == ReadFile(c, p) && steps[j] == CommitScan(c)
    requires forall m :: i < m < j ==> !EndsScan(steps[m], c) && !Refreshes(run[m], steps[m], p)
    requires Pending(run[i], p) == {} == Pending(run[j], p)
    requires forall m :: r < m <= j ==> Get(run[m].disk, p) == Get(run[r].disk, p)
    ensures Get(run[j + 1].tracker.sizes, p) == Get(run[j + 1].disk, p)
  {
    ReconcileTakesScan(tracked, run, steps, c, p, i, j);
    SizeReadKept(run, steps, c, p, i, r, j);
    assert Enabled(tracked, run[j], steps[j]);
    assert run[j + 1].disk == run[j].disk;
  }

  /** A refresh takes what the disk holds for its path, and keeps the cached size when its stat fails; every other
      path keeps its size, and the total moves by the difference. */
  lemma RefreshReadsDisk(tracked: iset<Path>, run: seq<System>, steps: seq<Step>, i: nat, p: Path, q: Path)
    requires IsTrace(tracked, run, steps) && i < |steps| && Refreshes(run[i], steps[i], p)
    ensures var s, t := run[i], run[i + 1];
      && Get(t.tracker.sizes, p) == (if steps[i].fault.Some? then Get(s.tracker.sizes, p) else Get(s.disk, p))
      && (q != p ==> Get(t.tracker.sizes, q) == Get(s.tracker.sizes, q))
      && t.tracker.size == s.tracker.size + Get(t.tracker.sizes, p) - Get(s.tracker.sizes, p)
  {
    assert Enabled(tracked, run[i], steps[i]) && run[i + 1] == Apply(tracked, run[i], steps[i]);
  }

  // ----- Faults -----

  /** The message of the last fault, of a scan or of a stat. */
  function LastFault(steps: seq<Step>): Option<string> {
    if steps == [] then None
    else
      match steps[|steps| - 1]
      case RefreshWriter(_, Some(message)) => Some(message)
      case RefreshOther(_, Some(message)) => Some(message)
      case FailScan(_, message) => Some(message)
      case _ => LastFault(steps[..|steps| - 1])
  }

  lemma FaultStep(tracked: iset<Path>, s: System, steps: seq<Step>, step: Step)
    requires Enabled(tracked, s, step) && s.tracker.error == LastFault(steps)
    ensures Apply(tracked, s, step).tracker.error == LastFault(steps + [step])
  {
    assert (steps + [step])[..|steps|] == steps;
  }

  lemma {:induction false} ErrorIsLastFault(tracked: iset<Path>, run: seq<System>, steps: seq<Step>)
    requires IsTrace(tracked, run, steps)
    ensures Last(run).tracker.error == LastFault(steps)
  {
    if steps != [] {
      var n := |steps| - 1;
      ErrorIsLastFault(tracked, run[..n + 1], steps[..n]);
      assert Enabled(tracked, run[n], steps[n]) && run[n + 1] == Apply(tracked, run[n], steps[n]);
      FaultStep(tracked, run[n], steps[..n], steps[n]);
      assert steps == steps[..n] + [steps[n]];
    }
  }

  /** Once a scan or a stat has failed, every later check fails with the message of the last failure and no size
      is shown; without one no check ever fails. */
  lemma FaultsAreReported(tracked: iset<Path>, run: seq<System>, steps: seq<Step>, limitBytes: real)
    requires IsTrace(tracked, run, steps)
    ensures match LastFault(steps)
      case Some(message) =>
        VerdictOf(Last(run).tracker, limitBytes) == CheckFailed(message) && ReportedSize(Last(run).tracker) == None
      case None => !VerdictOf(Last(run).tracker, limitBytes).CheckFailed? && ReportedSize(Last(run).tracker).Some?
  {
    ErrorIsLastFault(tracked, run, steps);
  }
}
