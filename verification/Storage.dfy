/** The storage tracker (storage.py, StorageTracker): cached file sizes kept by tracked writes and
    by an optimistic snapshot / scan / commit. Each method of the class is one critical section
    of `_lock`; the functions on `Tracker` say what each section does. */
module Storage {
  import opened Options

  type Path = string

  datatype Tracker = Tracker(
    sizes: map<Path, nat>, versions: map<Path, nat>, writing: map<Path, nat>,
    revision: nat, size: int, error: Option<string>)

  /** The outcome of lstat: absent and non-regular files count as 0. */
  datatype Stat = Regular(size: nat) | NotRegular | NotFound | StatFailed(message: string)

  /** What reconcile remembers from its first critical section. */
  datatype Snapshot = Snapshot(revision: nat, writing: set<Path>)

  datatype Verdict = WithinLimit | CheckFailed(message: string) | LimitReached

  function Get(m: map<Path, nat>, p: Path): nat {
    if p in m then m[p] else 0
  }

  ghost function Sum(m: map<Path, nat>): nat {
    if m == map[] then 0 else
      var p :| p in m;
      m[p] + Sum(m - {p})
  }

  /** Any key may be taken out of the sum first. */
  lemma {:induction false} SumWithout(m: map<Path, nat>, p: Path)
    requires p in m
    ensures Sum(m) == m[p] + Sum(m - {p})
    decreases |m|
  {
    var q :| q in m && Sum(m) == m[q] + Sum(m - {q});
    if q != p {
      SumWithout(m - {q}, p);
      SumWithout(m - {p}, q);
      assert m - {q} - {p} == m - {p} - {q};
    }
  }

  lemma SumDrop(m: map<Path, nat>, p: Path)
    ensures Sum(m) == Get(m, p) + Sum(m - {p})
  {
    if p in m {
      SumWithout(m, p);
    } else {
      assert m - {p} == m;
    }
  }

  lemma SumUpdate(m: map<Path, nat>, p: Path, n: nat)
    ensures Sum(m[p := n]) == Sum(m) + n - Get(m, p)
  {
    SumDrop(m[p := n], p);
    SumDrop(m, p);
    assert m[p := n] - {p} == m - {p};
  }

  /** Entries of size 0 do not count. */
  lemma {:induction false} SumAgrees(m: map<Path, nat>, n: map<Path, nat>)
    requires forall p :: Get(m, p) == Get(n, p)
    ensures Sum(m) == Sum(n)
    decreases |m| + |n|
  {
    hide Sum;
    if m != map[] || n != map[] {
      var p :| p in m || p in n;
      SumDrop(m, p);
      SumDrop(n, p);
      assert Get(m, p) == Get(n, p);
      forall q ensures Get(m - {p}, q) == Get(n - {p}, q) {
        assert Get(m, q) == Get(n, q);
      }
      SumAgrees(m - {p}, n - {p});
    }
  }

  // ----- The critical sections as functions -----

  function SizeSeen(t: Tracker, p: Path, st: Stat): nat {
    match st
    case Regular(n) => n
    case NotRegular => 0
    case NotFound => 0
    case StatFailed(_) => Get(t.sizes, p)
  }

  function Refreshed(t: Tracker, p: Path, st: Stat): Tracker {
    var n := SizeSeen(t, p, st);
    t.(error := if st.StatFailed? then Some(st.message) else t.error,
       revision := t.revision + 1, versions := t.versions[p := t.revision + 1],
       size := t.size + n - Get(t.sizes, p), sizes := t.sizes[p := n])
  }

  function Begun(t: Tracker, p: Path): Tracker {
    t.(writing := t.writing[p := Get(t.writing, p) + 1])
  }

  function Ended(t: Tracker, p: Path): Tracker
    requires Get(t.writing, p) > 0
  {
    t.(writing := if t.writing[p] == 1 then t.writing - {p} else t.writing[p := t.writing[p] - 1])
  }

  function SnapshotOf(t: Tracker): Snapshot {
    Snapshot(t.revision, t.writing.Keys)
  }

  /** Paths whose scanned size is discarded at commit. */
  predicate Skipped(t: Tracker, snap: Snapshot, p: Path) {
    p in snap.writing || p in t.writing || Get(t.versions, p) > snap.revision
  }

  /** The size table once the loop of commit has dealt with the paths in `d`. */
  ghost function SizesAfter(t: Tracker, snap: Snapshot, scanned: map<Path, nat>, d: set<Path>): map<Path, nat> {
    map p | p in t.sizes.Keys + d && (p in t.sizes || !Skipped(t, snap, p)) ::
      if p in d && !Skipped(t, snap, p) then Get(scanned, p) else t.sizes[p]
  }

  ghost function CommittedSizes(t: Tracker, snap: Snapshot, scanned: map<Path, nat>): map<Path, nat> {
    SizesAfter(t, snap, scanned, t.sizes.Keys + scanned.Keys)
  }

  lemma SizesAfterNone(t: Tracker, snap: Snapshot, scanned: map<Path, nat>)
    ensures SizesAfter(t, snap, scanned, {}) == t.sizes
  {
  }

  lemma SizesAfterOne(t: Tracker, snap: Snapshot, scanned: map<Path, nat>, d: set<Path>, p: Path)
    requires p in t.sizes.Keys + scanned.Keys
    ensures SizesAfter(t, snap, scanned, d + {p}) ==
      if Skipped(t, snap, p) then SizesAfter(t, snap, scanned, d)
      else SizesAfter(t, snap, scanned, d)[p := Get(scanned, p)]
  {
  }

  /** Every path nobody was or is writing, and that was not refreshed since the snapshot, has the scanned size,
      0 when it was not found; every other path has kept its size. */
  ghost predicate Reconciled(t: Tracker, snap: Snapshot, scanned: map<Path, nat>, sizes: map<Path, nat>) {
    forall p {:trigger Get(sizes, p)} :: Get(sizes, p) ==
      if p !in snap.writing && p !in t.writing && Get(t.versions, p) <= snap.revision then Get(scanned, p)
      else Get(t.sizes, p)
  }

  lemma CommitReconciles(t: Tracker, snap: Snapshot, scanned: map<Path, nat>)
    ensures Reconciled(t, snap, scanned, CommittedSizes(t, snap, scanned))
  {
  }

  ghost function Committed(t: Tracker, snap: Snapshot, scanned: map<Path, nat>): Tracker {
    var sizes := CommittedSizes(t, snap, scanned);
    t.(sizes := sizes, size := Sum(sizes))
  }

  function FailedWith(t: Tracker, message: string): Tracker {
    t.(error := Some(message))
  }

  /** What the status view shows as the storage size. */
  function ReportedSize(t: Tracker): Option<int> {
    if t.error.Some? then None else Some(t.size)
  }

  function VerdictOf(t: Tracker, limitBytes: real): Verdict {
    if t.error.Some? then CheckFailed(t.error.value)
    else if t.size as real >= limitBytes then LimitReached
    else WithinLimit
  }

  class StorageTracker {
    const limitBytes: real
    var sizes: map<Path, nat>
    var versions: map<Path, nat>
    var writing: map<Path, nat>
    var revision: nat
    var size: int
    var error: Option<string>

    ghost function View(): Tracker
      reads this
    {
      Tracker(sizes, versions, writing, revision, size, error)
    }

    constructor (limitGb: real)
      ensures View() == Tracker(map[], map[], map[], 0, 0, None)
      ensures limitBytes == limitGb * 1_000_000_000.0
    {
      limitBytes := limitGb * 1_000_000_000.0;
      sizes, versions, writing := map[], map[], map[];
      revision, size, error := 0, 0, None;
    }

    method SizeBytes() returns (r: Option<int>)
      ensures r == ReportedSize(View())
    {
      if error.Some? {
        return None;
      }
      r := Some(size);
    }

    method Check() returns (v: Verdict)
      ensures v == VerdictOf(View(), limitBytes)
    {
      if error.Some? {
        return CheckFailed(error.value);
      }
      if size as real >= limitBytes {
        return LimitReached;
      }
      v := WithinLimit;
    }

    method Refresh(p: Path, st: Stat)
      modifies this
      ensures View() == Refreshed(old(View()), p, st)
      ensures Get(sizes, p) == (match st
        case Regular(n) => n
        case NotRegular => 0
        case NotFound => 0
        case StatFailed(_) => Get(old(sizes), p))
      ensures error == if st.StatFailed? then Some(st.message) else old(error)
    {
      var n: nat;
      match st {
        case Regular(k) => n := k;
        case NotRegular => n := 0;
        case NotFound => n := 0;
        case StatFailed(message) =>
          error := Some(message);
          n := Get(sizes, p);
      }
      revision := revision + 1;
      versions := versions[p := revision];
      size := size + (n - Get(sizes, p));
      sizes := sizes[p := n];
    }

    method BeginWrite(p: Path)
      modifies this`writing
      ensures View() == Begun(old(View()), p)
    {
      writing := writing[p := Get(writing, p) + 1];
    }

    method EndWrite(p: Path)
      requires Get(writing, p) > 0
      modifies this`writing
      ensures View() == Ended(old(View()), p)
    {
      writing := writing[p := writing[p] - 1];
      if writing[p] == 0 {
        writing := writing - {p};
      }
      assert old(writing)[p] == 1 ==> writing == old(writing) - {p};
    }

    method Fail(message: string)
      modifies this`error
      ensures View() == FailedWith(old(View()), message)
    {
      error := Some(message);
    }

    /** The first critical section of reconcile. */
    method TakeSnapshot() returns (snap: Snapshot)
      ensures snap == SnapshotOf(View())
    {
      snap := Snapshot(revision, writing.Keys);
    }

    /** The loop of reconcile's second critical section, over all known and scanned paths. */
    method CommitPaths(snap: Snapshot, scanned: map<Path, nat>)
      modifies this`sizes
      ensures sizes == CommittedSizes(old(View()), snap, scanned)
      ensures Reconciled(old(View()), snap, scanned, sizes)
    {
      hide SizesAfter;
      ghost var before := View();
      ghost var all := sizes.Keys + scanned.Keys;
      SizesAfterNone(before, snap, scanned);
      var todo := sizes.Keys + scanned.Keys;
      assert all - todo == {};
      while todo != {}
        invariant todo <= all && sizes == SizesAfter(before, snap, scanned, all - todo)
        decreases |todo|
      {
        var p :| p in todo;
        SizesAfterOne(before, snap, scanned, all - todo, p);
        assert all - (todo - {p}) == (all - todo) + {p};
        todo := todo - {p};
        if p in snap.writing || p in writing || Get(versions, p) > snap.revision {
          continue;
        }
        sizes := sizes[p := Get(scanned, p)];
      }
      assert all - {} == all;
      CommitReconciles(before, snap, scanned);
    }

    /** The second critical section of reconcile. */
    method Commit(snap: Snapshot, scanned: map<Path, nat>)
      modifies this
      ensures View() == Committed(old(View()), snap, scanned)
    {
      CommitPaths(snap, scanned);
      size := SumValues(sizes);
    }
  }

  method SumValues(m: map<Path, nat>) returns (total: nat)
    ensures total == Sum(m)
  {
    total := 0;
    var rest := m;
    while rest != map[]
      invariant total + Sum(rest) == Sum(m)
      decreases |rest|
    {
      var p :| p in rest;
      SumWithout(rest, p);
      total := total + rest[p];
      rest := rest - {p};
    }
  }
}
