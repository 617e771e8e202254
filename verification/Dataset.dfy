/** Splitting and merging recorded datasets (tools/lib/dataset.py). A dataset is a set of directories
    holding one file per frame; the operations only hard-link files, never copy or change them. */
module Dataset {
  import opened Graphs

  /** A file, known by what it holds; a hard link is the same file under another path. */
  type File = int
  type Frames = map<Id, File>
  /** Directory name to frame id to file. */
  type Index = map<Id, Frames>

  datatype Error =
    | SymbolicLink(dir: Id)
    | NotOrdinary(dir: Id)
    | DuplicateFrame(dir: Id, frame: Id)
    | NoCameraConfig
    | FrameMismatch(dir: Id)
    | NoFrames
    | BadCount
    | DirectoriesDiffer(part: nat)
    | FrameCollision(part: nat, dir: Id)

  datatype Result<T> = Ok(value: T) | Err(error: Error)

  const CAMERA_CONFIG: Id := "camera_config"
  const DIAGNOSTICS: Id := "diagnostics"
  const BATCH := 64
  const MERGE_WORKERS := 8

  // ----- index

  /** What a directory listing shows. */
  datatype Entry = Entry(stem: Id, file: File, ordinary: bool)
  datatype Directory = Directory(name: Id, symlink: bool, entries: seq<Entry>)

  /** The dictionary a directory's entries make, later entries winning. */
  function FramesOf(entries: seq<Entry>): Frames {
    if entries == [] then map[]
    else FramesOf(entries[..|entries| - 1])[entries[|entries| - 1].stem := entries[|entries| - 1].file]
  }

  lemma {:induction false} FramesOfStems(entries: seq<Entry>)
    ensures forall s :: s in FramesOf(entries) <==> exists e :: e in entries && e.stem == s
  {
    if entries != [] {
      var last := |entries| - 1;
      FramesOfStems(entries[..last]);
      assert forall e :: e in entries <==> e in entries[..last] || e == entries[last];
    }
  }

  lemma StemTaken(entries: seq<Entry>, i: nat)
    requires i < |entries|
    ensures entries[i].stem in FramesOf(entries[..i]) <==> exists j :: 0 <= j < i && entries[j].stem == entries[i].stem
    ensures FramesOf(entries[..i + 1]) == FramesOf(entries[..i])[entries[i].stem := entries[i].file]
  {
    FramesOfStems(entries[..i]);
    assert entries[..i + 1][..i] == entries[..i];
    forall j | 0 <= j < i ensures entries[j] in entries[..i] {
      assert entries[..i][j] == entries[j];
    }
  }

  ghost predicate GoodDirectory(d: Directory) {
    && !d.symlink
    && (forall e :: e in d.entries ==> e.ordinary)
    && forall i, j :: 0 <= i < j < |d.entries| ==> d.entries[i].stem != d.entries[j].stem
  }

  /** `e` names the first thing wrong with a directory. */
  ghost predicate DirectoryFault(d: Directory, e: Error) {
    match e
    case SymbolicLink(name) => name == d.name && d.symlink
    case NotOrdinary(name) =>
      name == d.name && !d.symlink && exists i :: 0 <= i < |d.entries| && !d.entries[i].ordinary && GoodUpTo(d, i)
    case DuplicateFrame(name, stem) =>
      && name == d.name && !d.symlink
      && exists i, j :: 0 <= j < i < |d.entries| && d.entries[j].stem == stem == d.entries[i].stem
                        && d.entries[i].ordinary && GoodUpTo(d, i)
    case _ => false
  }

  ghost predicate GoodUpTo(d: Directory, n: nat)
    requires n <= |d.entries|
  {
    && (forall i :: 0 <= i < n ==> d.entries[i].ordinary)
    && forall i, j :: 0 <= i < j < n ==> d.entries[i].stem != d.entries[j].stem
  }

  /** The directories of a root: names differ, and `diagnostics` does not count. */
  ghost predicate Listed(dirs: seq<Directory>) {
    forall i, j :: 0 <= i < j < |dirs| ==> dirs[i].name != dirs[j].name
  }

  ghost predicate IndexedAs(dirs: seq<Directory>, data: Index) {
    && (forall d :: d in dirs && d.name != DIAGNOSTICS ==> d.name in data && data[d.name] == FramesOf(d.entries))
    && forall name :: name in data ==> exists d :: d in dirs && d.name == name && name != DIAGNOSTICS
  }

  ghost predicate AllGood(dirs: seq<Directory>) {
    forall d :: d in dirs && d.name != DIAGNOSTICS ==> GoodDirectory(d)
  }

  /** A camera_config directory, and the same frames in every directory. */
  ghost predicate Complete(data: Index) {
    CAMERA_CONFIG in data && forall name :: name in data ==> data[name].Keys == data[CAMERA_CONFIG].Keys
  }

  method ReadDirectory(d: Directory) returns (r: Result<Frames>)
    ensures r.Ok? <==> GoodDirectory(d)
    ensures r.Ok? ==> r.value == FramesOf(d.entries)
    ensures r.Err? ==> DirectoryFault(d, r.error)
  {
    if d.symlink {
      return Err(SymbolicLink(d.name));
    }
    var frames: Frames := map[];
    assert FramesOf(d.entries[..0]) == map[];
    hide FramesOf;
    for i := 0 to |d.entries|
      invariant frames == FramesOf(d.entries[..i])
      invariant GoodUpTo(d, i)
    {
      var e := d.entries[i];
      StemTaken(d.entries, i);
      if !e.ordinary {
        return Err(NotOrdinary(d.name));
      }
      if e.stem in frames {
        return Err(DuplicateFrame(d.name, e.stem));
      }
      frames := frames[e.stem := e.file];
    }
    assert d.entries[..|d.entries|] == d.entries;
    r := Ok(frames);
  }

  lemma IndexedUnique(dirs: seq<Directory>, a: Index, b: Index)
    requires IndexedAs(dirs, a) && IndexedAs(dirs, b)
    ensures a == b
  {
    forall name ensures name in a <==> name in b {}
    forall name | name in a ensures a[name] == b[name] {}
  }

  /** The comparison of every directory's frames with camera_config's. */
  method CheckFrames(data: Index, canonical: set<Id>) returns (odd: Result<()>)
    ensures odd.Ok? <==> forall name :: name in data ==> data[name].Keys == canonical
    ensures odd.Err? ==>
      odd.error.FrameMismatch? && odd.error.dir in data && data[odd.error.dir].Keys != canonical
  {
    var rest := data.Keys;
    while rest != {}
      invariant rest <= data.Keys
      invariant forall name :: name in data.Keys - rest ==> data[name].Keys == canonical
      decreases |rest|
    {
      var name :| name in rest;
      if data[name].Keys != canonical {
        return Err(FrameMismatch(name));
      }
      rest := rest - {name};
    }
    odd := Ok(());
  }

  /** `e` names the first counted directory that is not good, otherwise a missing camera_config, otherwise a
      directory whose frames differ from its frames. */
  ghost predicate RootFault(dirs: seq<Directory>, e: Error) {
    if AllGood(dirs) then exists data :: IndexedAs(dirs, data) && FramesFault(data, e)
    else exists i :: 0 <= i < |dirs| && AllGood(dirs[..i]) && dirs[i].name != DIAGNOSTICS && DirectoryFault(dirs[i], e)
  }

  ghost predicate FramesFault(data: Index, e: Error) {
    match e
    case NoCameraConfig => CAMERA_CONFIG !in data
    case FrameMismatch(name) =>
      CAMERA_CONFIG in data && name in data && data[name].Keys != data[CAMERA_CONFIG].Keys
    case _ => false
  }

  /** The index is returned exactly when every counted directory is good and all hold the same frames. */
  method ReadIndex(dirs: seq<Directory>) returns (r: Result<Index>)
    requires Listed(dirs)
    ensures r.Ok? ==> AllGood(dirs) && IndexedAs(dirs, r.value) && Complete(r.value)
    ensures r.Err? ==> !AllGood(dirs) || exists data :: IndexedAs(dirs, data) && !Complete(data)
    ensures r.Err? ==> RootFault(dirs, r.error)
  {
    var result: Index := map[];
    for i := 0 to |dirs|
      invariant IndexedAs(dirs[..i], result) && AllGood(dirs[..i])
    {
      ghost var before := result;
      if dirs[i].name != DIAGNOSTICS {
        var frames := ReadDirectory(dirs[i]);
        if frames.Err? {
          assert dirs[i] in dirs;
          return Err(frames.error);
        }
        result := result[dirs[i].name := frames.value];
      }
      hide IndexedAs, GoodDirectory, Listed;
    }
    assert dirs[..|dirs|] == dirs;
    hide IndexedAs, AllGood, Listed;
    if CAMERA_CONFIG !in result {
      return Err(NoCameraConfig);
    }
    var odd := CheckFrames(result, result[CAMERA_CONFIG].Keys);
    r := if odd.Ok? then Ok(result) else Err(odd.error);
  }

  // ----- split

  function Flatten<T>(parts: seq<seq<T>>): seq<T> {
    if parts == [] then [] else Flatten(parts[..|parts| - 1]) + parts[|parts| - 1]
  }

  lemma FlattenNone<T>()
    ensures Flatten<T>([]) == []
  {
  }

  lemma FlattenSlice<T>(parts: seq<seq<T>>, all: seq<T>, start: nat, mid: nat, end: nat)
    requires start <= mid <= end <= |all| && Flatten(parts) == all[start..mid]
    ensures Flatten(parts + [all[mid..end]]) == all[start..end]
  {
    assert (parts + [all[mid..end]])[..|parts|] == parts;
    assert all[start..mid] + all[mid..end] == all[start..end];
  }

  /** Where part `i` starts. */
  ghost function Start(i: nat, q: nat, rem: nat): nat {
    i * q + if i < rem then i else rem
  }

  lemma StartNext(i: nat, count: nat, q: nat, rem: nat)
    requires i < count && rem < count
    ensures Start(i + 1, q, rem) == Start(i, q, rem) + q + (if i < rem then 1 else 0)
    ensures Start(i + 1, q, rem) <= Start(count, q, rem)
  {
    assert (i + 1) * q == i * q + q;
    ProductGrows(i + 1, count, q);
  }

  lemma ProductGrows(a: nat, b: nat, q: nat)
    requires a <= b
    ensures a * q <= b * q
  {
    assert (b - a) * q >= 0;
  }

  lemma StartEnds(n: nat, count: nat)
    requires count > 0
    ensures Start(0, n / count, n % count) == 0 && Start(count, n / count, n % count) == n
  {
  }

  /** The partition loop of `split`: consecutive parts whose concatenation is the frame list, sizes
      differing by at most one, larger parts first. */
  method Partition(frames: seq<Id>, count: int) returns (r: Result<seq<seq<Id>>>)
    ensures r.Ok? <==> count >= 1 && frames != []
    ensures r.Err? ==> r.error == if count < 1 then BadCount else NoFrames
    ensures r.Ok? ==> |r.value| == count && Flatten(r.value) == frames
    ensures r.Ok? ==> forall i, j :: 0 <= i <= j < count ==> |r.value[j]| <= |r.value[i]| <= |r.value[j]| + 1
  {
    if count < 1 {
      return Err(BadCount);
    }
    if frames == [] {
      return Err(NoFrames);
    }
    var q, rem := |frames| / count, |frames| % count;
    StartEnds(|frames|, count);
    hide Start, Flatten;
    FlattenNone<Id>();
    var plans: seq<seq<Id>> := [];
    var start := 0;
    for i := 0 to count
      invariant 0 <= start == Start(i, q, rem) <= |frames|
      invariant |plans| == i && Flatten(plans) == frames[..start]
      invariant forall j :: 0 <= j < i ==> |plans[j]| == if j < rem then q + 1 else q
    {
      StartNext(i, count, q, rem);
      var end := start + q + if i < rem then 1 else 0;
      FlattenSlice(plans, frames, 0, start, end);
      plans := plans + [frames[start..end]];
      start := end;
    }
    assert frames[..|frames|] == frames;
    r := Ok(plans);
  }

  // ----- linking

  datatype Job = Job(dir: Id, frame: Id, file: File)

  /** Every frame of the list is in every directory. */
  ghost predicate Has(data: Index, frames: seq<Id>) {
    forall name, i :: name in data && 0 <= i < |frames| ==> frames[i] in data[name]
  }

  function Pick(files: Frames, frames: seq<Id>): Frames {
    map f | f in files && f in frames :: files[f]
  }

  /** The dataset cut down to some frames: the same files under the same directories. */
  function Restrict(data: Index, frames: seq<Id>): Index {
    map name | name in data :: Pick(data[name], frames)
  }

  function FrameJobs(data: Index, names: seq<Id>, f: Id): seq<Job>
    requires forall name :: name in names ==> name in data && f in data[name]
  {
    seq(|names|, d requires 0 <= d < |names| => Job(names[d], f, data[names[d]][f]))
  }

  /** The job generator: frame by frame, directory by directory. `names` is the dictionary's order. */
  function Jobs(data: Index, names: seq<Id>, frames: seq<Id>): (jobs: seq<Job>)
    requires Has(data, frames) && Elements(names) <= data.Keys
    ensures |jobs| == |frames| * |names|
  {
    if frames == [] then []
    else
      var last := |frames| - 1;
      assert forall name :: name in names ==> name in Elements(names);
      Jobs(data, names, frames[..last]) + FrameJobs(data, names, frames[last])
  }

  /** Linking a list of jobs one after another; None when a target is there already. */
  function Linked(disk: Index, jobs: seq<Job>): Result<Index> {
    if jobs == [] then Ok(disk)
    else
      var j := jobs[|jobs| - 1];
      match Linked(disk, jobs[..|jobs| - 1])
      case Err(e) => Err(e)
      case Ok(d) =>
        if j.dir in d && j.frame !in d[j.dir] then Ok(d[j.dir := d[j.dir][j.frame := j.file]])
        else Err(DuplicateFrame(j.dir, j.frame))
  }

  lemma {:induction false} LinkedAppend(disk: Index, a: seq<Job>, b: seq<Job>)
    ensures Linked(disk, a + b)
            == match Linked(disk, a) case Err(e) => Err(e) case Ok(d) => Linked(d, b)
  {
    if b == [] {
      assert a + b == a;
    } else {
      assert (a + b)[..|a + b| - 1] == a + b[..|b| - 1];
      LinkedAppend(disk, a, b[..|b| - 1]);
    }
  }

  /** `link_batch`. */
  method LinkBatch(disk: Index, batch: seq<Job>) returns (r: Result<Index>)
    ensures r == Linked(disk, batch)
  {
    r := Ok(disk);
    for i := 0 to |batch|
      invariant r == Linked(disk, batch[..i]) && r.Ok?
    {
      var j := batch[i];
      assert batch[..i + 1][..i] == batch[..i];
      if j.dir !in r.value || j.frame in r.value[j.dir] {
        r := Err(DuplicateFrame(j.dir, j.frame));
        assert Linked(disk, batch[..i + 1]) == r;
        assert batch == batch[..i + 1] + batch[i + 1..];
        LinkedAppend(disk, batch[..i + 1], batch[i + 1..]);
        return;
      }
      r := Ok(r.value[j.dir := r.value[j.dir][j.frame := j.file]]);
    }
    assert batch[..|batch|] == batch;
  }

  /** One round of the loop: up to two batches a worker, each of the next 64 jobs. */
  method TakeRound(jobs: seq<Job>, position: nat, workers: nat) returns (batches: seq<seq<Job>>, next: nat)
    requires position <= |jobs|
    ensures position <= next <= |jobs| && Flatten(batches) == jobs[position..next]
    ensures |batches| <= 2 * workers && forall b :: b in batches ==> 0 < |b| <= 64
    ensures batches == [] <==> position == |jobs| || workers == 0
  {
    batches, next := [], position;
    FlattenNone<Job>();
    hide Flatten;
    for i := 0 to workers * 2
      invariant position <= next <= |jobs| && Flatten(batches) == jobs[position..next]
      invariant |batches| <= i && forall b :: b in batches ==> 0 < |b| <= BATCH
      invariant batches == [] <==> position == |jobs| || i == 0
      invariant position == |jobs| ==> next == position
    {
      var upto := if next + BATCH <= |jobs| then next + BATCH else |jobs|;
      var batch := jobs[next..upto];
      if batch != [] {
        FlattenSlice(batches, jobs, position, next, upto);
        batches := batches + [batch];
      }
      next := upto;
    }
  }

  /** Jobs that can all be linked: into existing directories, onto free targets, no target twice. */
  ghost predicate Linkable(disk: Index, m: multiset<Job>) {
    && (forall j :: j in m ==> m[j] == 1 && j.dir in disk && j.frame !in disk[j.dir])
    && forall j, k :: j in m && k in m && j.dir == k.dir && j.frame == k.frame ==> j == k
  }

  /** `d` is the disk with the jobs' files added and nothing else changed. */
  ghost predicate Filled(disk: Index, m: multiset<Job>, d: Index) {
    && d.Keys == disk.Keys
    && (forall name, f :: name in disk && f in disk[name] ==> f in d[name] && d[name][f] == disk[name][f])
    && (forall j :: j in m && j.dir in d ==> j.frame in d[j.dir] && d[j.dir][j.frame] == j.file)
    && forall name, f :: name in d && f in d[name] ==> f in disk[name] || Job(name, f, d[name][f]) in m
  }

  lemma FilledUnique(disk: Index, m: multiset<Job>, a: Index, b: Index)
    requires Linkable(disk, m) && Filled(disk, m, a) && Filled(disk, m, b)
    ensures a == b
  {
    forall name | name in a ensures a[name] == b[name] {
      forall f ensures f in a[name] <==> f in b[name] {}
      forall f | f in a[name] ensures a[name][f] == b[name][f] {}
    }
  }

  lemma MemberOfSum(m: multiset<Job>, j: Job)
    ensures forall k :: k in m + multiset{j} <==> k in m || k == j
    ensures forall k :: (m + multiset{j})[k] == m[k] + if k == j then 1 else 0
  {
  }

  lemma FreeTarget(disk: Index, m: multiset<Job>, d: Index, j: Job)
    requires Linkable(disk, m) && Filled(disk, m, d)
    ensures j.dir in d && j.frame !in d[j.dir] ==> Linkable(disk, m + multiset{j})
  {
    MemberOfSum(m, j);
    var n := m + multiset{j};
    if j.dir in d && j.frame !in d[j.dir] {
      assert j !in m;
      forall k | k in n ensures n[k] == 1 && k.dir in disk && k.frame !in disk[k.dir] {}
      forall k, l | k in n && l in n && k.dir == l.dir && k.frame == l.frame ensures k == l {}
    }
  }

  lemma FilledNext(disk: Index, m: multiset<Job>, d: Index, j: Job)
    requires Filled(disk, m, d) && j.dir in d && j.frame !in d[j.dir]
    ensures Filled(disk, m + multiset{j}, d[j.dir := d[j.dir][j.frame := j.file]])
  {
    MemberOfSum(m, j);
  }

  /** What linking a list of jobs means, without mention of their order. */
  lemma {:induction false} LinkedMeaning(disk: Index, jobs: seq<Job>)
    ensures Linked(disk, jobs).Ok? <==> Linkable(disk, multiset(jobs))
    ensures Linked(disk, jobs).Ok? ==> Filled(disk, multiset(jobs), Linked(disk, jobs).value)
    ensures Linked(disk, jobs).Err? ==>
      exists j :: j in jobs && Linked(disk, jobs).error == DuplicateFrame(j.dir, j.frame)
  {
    if jobs == [] {
    } else {
      hide Linkable, Filled;
      var rest, j := jobs[..|jobs| - 1], jobs[|jobs| - 1];
      assert jobs == rest + [j];
      LinkedMeaning(disk, rest);
      assert multiset(jobs) == multiset(rest) + multiset{j};
      if Linked(disk, rest).Ok? {
        var d := Linked(disk, rest).value;
        FreeTarget(disk, multiset(rest), d, j);
        if Linkable(disk, multiset(jobs)) {
        }
        if j.dir in d && j.frame !in d[j.dir] {
          FilledNext(disk, multiset(rest), d, j);
        }
      } else if Linkable(disk, multiset(jobs)) {
        LinkableFewer(disk, multiset(rest), j);
      }
    }
  }

  lemma LinkableFewer(disk: Index, m: multiset<Job>, j: Job)
    requires Linkable(disk, m + multiset{j})
    ensures Linkable(disk, m)
  {
    forall k | k in m ensures m[k] == 1 && k.dir in disk && k.frame !in disk[k.dir] {
      assert k in m + multiset{j};
    }
    forall k, l | k in m && l in m && k.dir == l.dir && k.frame == l.frame ensures k == l {
      assert k in m + multiset{j} && l in m + multiset{j};
    }
  }

  /** The order of the jobs does not matter: any interleaving gives the same directories, and a clash
      happens in every order or in none. */
  lemma LinkedAnyOrder(disk: Index, a: seq<Job>, b: seq<Job>)
    requires multiset(a) == multiset(b)
    ensures Linked(disk, a).Ok? <==> Linked(disk, b).Ok?
    ensures Linked(disk, a).Ok? ==> Linked(disk, a) == Linked(disk, b)
  {
    LinkedMeaning(disk, a);
    LinkedMeaning(disk, b);
    hide Linked, Linkable, Filled;
    if Linked(disk, a).Ok? {
      FilledUnique(disk, multiset(a), Linked(disk, a).value, Linked(disk, b).value);
    }
  }

  lemma {:induction false} FlattenUpdated<T>(parts: seq<seq<T>>, i: nat, s: seq<T>)
    requires i < |parts|
    ensures multiset(Flatten(parts[i := s])) + multiset(parts[i]) == multiset(Flatten(parts)) + multiset(s)
  {
    hide Flatten;
    var last := |parts| - 1;
    var next := parts[i := s];
    FlattenLast(parts);
    FlattenLast(next);
    if i == last {
      assert next[..last] == parts[..last] && next[last] == s;
      AddEach(multiset(Flatten(parts[..last])), multiset(s), multiset(parts[i]));
    } else {
      var before := parts[..last];
      FlattenUpdated(before, i, s);
      assert next[..last] == before[i := s] && next[last] == parts[last] && before[i] == parts[i];
      AddToBoth(multiset(Flatten(before[i := s])), multiset(parts[i]),
                multiset(Flatten(before)), multiset(s), multiset(parts[last]));
    }
  }

  lemma AddEach<T>(a: multiset<T>, b: multiset<T>, c: multiset<T>)
    ensures (a + b) + c == (a + c) + b
  {
  }

  lemma FlattenLast<T>(parts: seq<seq<T>>)
    requires parts != []
    ensures multiset(Flatten(parts)) == multiset(Flatten(parts[..|parts| - 1])) + multiset(parts[|parts| - 1])
  {
  }

  lemma AddToBoth<T>(a: multiset<T>, b: multiset<T>, c: multiset<T>, d: multiset<T>, e: multiset<T>)
    requires a + b == c + d
    ensures (a + e) + b == (c + e) + d
  {
    assert (a + e) + b == (a + b) + e;
    assert (c + e) + d == (c + d) + e;
  }

  lemma TakeFromBoth<T>(a: multiset<T>, b: multiset<T>, c: multiset<T>)
    requires a + c == b + c
    ensures a == b
  {
    forall x ensures a[x] == b[x] {
      assert (a + c)[x] == (b + c)[x];
    }
  }

  lemma {:induction false} FlattenEmpty<T>(parts: seq<seq<T>>)
    requires forall i :: 0 <= i < |parts| ==> parts[i] == []
    ensures Flatten(parts) == []
  {
    if parts != [] {
      FlattenEmpty(parts[..|parts| - 1]);
    }
  }

  lemma NextOfBatch(rest: seq<seq<Job>>, i: nat)
    requires i < |rest| && rest[i] != []
    ensures multiset(Flatten(rest)) == multiset{rest[i][0]} + multiset(Flatten(rest[i := rest[i][1..]]))
  {
    var tail := rest[i][1..];
    assert rest[i] == [rest[i][0]] + tail;
    FlattenUpdated(rest, i, tail);
    hide Flatten;
    var one, after := multiset{rest[i][0]}, multiset(Flatten(rest[i := tail]));
    assert multiset(rest[i]) == one + multiset(tail);
    assert after + (one + multiset(tail)) == (one + after) + multiset(tail);
    TakeFromBoth(multiset(Flatten(rest)), one + after, multiset(tail));
  }

  /** The pool's work on a round: at every moment some batch links its next job, whichever it is. The
      outcome is that of linking the batches one after another. */
  method LinkRound(disk: Index, batches: seq<seq<Job>>) returns (r: Result<Index>, count: nat)
    ensures r.Ok? <==> Linked(disk, Flatten(batches)).Ok?
    ensures r.Ok? ==> r == Linked(disk, Flatten(batches)) && count == |Flatten(batches)|
  {
    r, count := Ok(disk), 0;
    var rest := batches;
    ghost var order: seq<Job> := [];
    hide Flatten;
    while exists i :: 0 <= i < |rest| && rest[i] != []
      invariant r.Ok? && r == Linked(disk, order) && count == |order|
      invariant multiset(order) + multiset(Flatten(rest)) == multiset(Flatten(batches))
      decreases |multiset(Flatten(rest))|
    {
      var i :| 0 <= i < |rest| && rest[i] != [];
      var j := rest[i][0];
      NextOfBatch(rest, i);
      rest := rest[i := rest[i][1..]];
      OneMoreLinked(disk, order, j);
      if j.dir !in r.value || j.frame in r.value[j.dir] {
        r := Err(DuplicateFrame(j.dir, j.frame));
        ghost var full := order + [j] + Flatten(rest);
        LinkedStops(disk, order + [j], full);
        LinkedAnyOrder(disk, full, Flatten(batches));
        return;
      }
      r := Ok(r.value[j.dir := r.value[j.dir][j.frame := j.file]]);
      order, count := order + [j], count + 1;
    }
    FlattenEmpty(rest);
    LinkedAnyOrder(disk, order, Flatten(batches));
    assert |multiset(order)| == |order| && |multiset(Flatten(batches))| == |Flatten(batches)|;
  }

  lemma OneMoreLinked(disk: Index, order: seq<Job>, j: Job)
    requires Linked(disk, order).Ok?
    ensures var d := Linked(disk, order).value;
      Linked(disk, order + [j]) ==
      if j.dir in d && j.frame !in d[j.dir] then Ok(d[j.dir := d[j.dir][j.frame := j.file]])
      else Err(DuplicateFrame(j.dir, j.frame))
  {
    assert (order + [j])[..|order|] == order;
  }

  lemma LinkedStops(disk: Index, a: seq<Job>, b: seq<Job>)
    requires a <= b && Linked(disk, a).Err?
    ensures Linked(disk, b) == Linked(disk, a)
  {
    LinkedAppend(disk, a, b[|a|..]);
    assert a + b[|a|..] == b;
  }

  /** The loop of `execute` for one plan: draining the jobs in rounds, each interleaved in any way, has
      the outcome of linking them all in order. */
  method DrainJobs(disk: Index, jobs: seq<Job>, workers: nat) returns (r: Result<Index>, completed: nat)
    requires workers >= 1
    ensures r.Ok? <==> Linked(disk, jobs).Ok?
    ensures r.Ok? ==> r == Linked(disk, jobs) && completed == |jobs|
  {
    r, completed := Ok(disk), 0;
    var position := 0;
    while true
      invariant position <= |jobs| && r == Linked(disk, jobs[..position]) && r.Ok? && completed == position
      decreases |jobs| - position
    {
      var batches, next := TakeRound(jobs, position, workers);
      if batches == [] {
        break;
      }
      var count: nat;
      LinkedAppend(disk, jobs[..position], jobs[position..next]);
      assert jobs[..position] + jobs[position..next] == jobs[..next];
      r, count := LinkRound(r.value, batches);
      if r.Err? {
        LinkedStops(disk, jobs[..next], jobs);
        return;
      }
      completed := completed + count;
      position := next;
    }
    assert jobs[..position] == jobs;
  }

  // ----- what a plan writes

  /** The directories `execute` makes before it links anything. */
  function Emptied(data: Index): Index {
    map name | name in data :: map[]
  }

  /** Part of the way through the jobs of frame `f`: the directories in `done` have it already. */
  ghost function Halfway(data: Index, done: seq<Id>, frames: seq<Id>, f: Id): Index {
    map name | name in data :: if name in done then Pick(data[name], frames + [f]) else Pick(data[name], frames)
  }

  lemma PickAppend(files: Frames, frames: seq<Id>, f: Id)
    requires f in files
    ensures Pick(files, frames + [f]) == Pick(files, frames)[f := files[f]]
  {
  }

  lemma {:induction false} FrameLinked(data: Index, names: seq<Id>, frames: seq<Id>, f: Id, k: nat)
    requires Distinct(names) && f !in frames && k <= |names|
    requires forall name :: name in names ==> name in data && f in data[name]
    ensures Linked(Restrict(data, frames), FrameJobs(data, names, f)[..k]) == Ok(Halfway(data, names[..k], frames, f))
  {
    var jobs := FrameJobs(data, names, f);
    if k == 0 {
      assert Halfway(data, names[..0], frames, f) == Restrict(data, frames);
    } else {
      FrameLinked(data, names, frames, f, k - 1);
      hide Pick, Restrict, Halfway, Linked, Distinct;
      var name := names[k - 1];
      LinkedNext(Restrict(data, frames), jobs, k);
      NewInPrefix(names, k);
      HalfwayNext(data, names[..k - 1], name, frames, f);
    }
  }

  lemma NewInPrefix(names: seq<Id>, k: nat)
    requires Distinct(names) && 0 < k <= |names|
    ensures names[k - 1] !in names[..k - 1] && names[..k] == names[..k - 1] + [names[k - 1]]
  {
  }

  lemma LinkedNext(disk: Index, jobs: seq<Job>, k: nat)
    requires 0 < k <= |jobs| && Linked(disk, jobs[..k - 1]).Ok?
    ensures var j, d := jobs[k - 1], Linked(disk, jobs[..k - 1]).value;
      j.dir in d && j.frame !in d[j.dir] ==>
      Linked(disk, jobs[..k]) == Ok(d[j.dir := d[j.dir][j.frame := j.file]])
  {
    assert jobs[..k][..k - 1] == jobs[..k - 1];
  }

  lemma HalfwayNext(data: Index, done: seq<Id>, name: Id, frames: seq<Id>, f: Id)
    requires name in data && name !in done && f in data[name] && f !in frames
    ensures var h := Halfway(data, done, frames, f);
      && name in h && f !in h[name]
      && Halfway(data, done + [name], frames, f) == h[name := h[name][f := data[name][f]]]
  {
    PickAppend(data[name], frames, f);
  }

  lemma FrameDone(data: Index, names: seq<Id>, frames: seq<Id>, f: Id)
    requires Elements(names) == data.Keys
    ensures Halfway(data, names, frames, f) == Restrict(data, frames + [f])
  {
    forall name | name in data ensures name in names {
      assert name in Elements(names);
    }
  }

  lemma FrameClashes(data: Index, names: seq<Id>, frames: seq<Id>, f: Id)
    requires names != [] && f in frames
    requires forall name :: name in names ==> name in data && f in data[name]
    ensures Linked(Restrict(data, frames), FrameJobs(data, names, f)).Err?
  {
    var jobs := FrameJobs(data, names, f);
    assert jobs[..1][..0] == [];
    assert jobs[0] == Job(names[0], f, data[names[0]][f]);
    LinkedStops(Restrict(data, frames), jobs[..1], jobs);
  }

  /** Linking all jobs of a plan gives exactly the chosen frames of every directory, each (frame,
      directory) pair linked once; a frame chosen twice is a clash. */
  lemma {:induction false} JobsLinked(data: Index, names: seq<Id>, frames: seq<Id>)
    requires Has(data, frames) && Elements(names) == data.Keys && Distinct(names) && names != []
    ensures Distinct(frames) ==> Linked(Emptied(data), Jobs(data, names, frames)) == Ok(Restrict(data, frames))
    ensures !Distinct(frames) ==> Linked(Emptied(data), Jobs(data, names, frames)).Err?
  {
    if frames == [] {
      assert Restrict(data, []) == Emptied(data);
    } else {
      var last := |frames| - 1;
      var rest, f := frames[..last], frames[last];
      JobsLinked(data, names, rest);
      LinkedAppend(Emptied(data), Jobs(data, names, rest), FrameJobs(data, names, f));
      hide Linked, Restrict, Emptied, FrameJobs, Has, Elements;
      assert frames == rest + [f];
      if Distinct(rest) {
        JobsNext(data, names, rest, f);
      }
    }
  }

  lemma JobsNext(data: Index, names: seq<Id>, rest: seq<Id>, f: Id)
    requires Elements(names) == data.Keys && Distinct(names) && names != []
    requires forall name :: name in names ==> name in data && f in data[name]
    requires Distinct(rest)
    ensures var r := Linked(Restrict(data, rest), FrameJobs(data, names, f));
      if Distinct(rest + [f]) then r == Ok(Restrict(data, rest + [f])) else r.Err?
  {
    if f in rest {
      FrameClashes(data, names, rest, f);
      var i :| 0 <= i < |rest| && rest[i] == f;
      assert (rest + [f])[i] == (rest + [f])[|rest|];
    } else {
      FrameLinked(data, names, rest, f, |names|);
      assert FrameJobs(data, names, f)[..|names|] == FrameJobs(data, names, f);
      assert names[..|names|] == names;
      FrameDone(data, names, rest, f);
    }
  }

  /** Some order of a dictionary's keys. */
  method Enumerate(keys: set<Id>) returns (names: seq<Id>)
    ensures Distinct(names) && Elements(names) == keys
  {
    names := [];
    var rest := keys;
    while rest != {}
      invariant Distinct(names) && Elements(names) == keys - rest && rest <= keys
      decreases |rest|
    {
      var name :| name in rest;
      assert name !in Elements(names);
      assert Elements(names + [name]) == Elements(names) + {name};
      names := names + [name];
      rest := rest - {name};
    }
  }

  /** `execute` for one plan: the target holds the chosen frames of every directory and nothing else,
      whatever the number of workers, and every (frame, directory) pair was linked once. */
  method ExecutePlan(data: Index, frames: seq<Id>, workers: nat) returns (r: Result<Index>, completed: nat)
    requires CAMERA_CONFIG in data && Has(data, frames) && workers >= 1
    ensures r.Ok? <==> Distinct(frames)
    ensures r.Ok? ==> r.value == Restrict(data, frames) && completed == |frames| * |data|
  {
    var names := Enumerate(data.Keys);
    assert names != [] by {
      assert CAMERA_CONFIG in Elements(names);
    }
    NamesCount(data, names);
    JobsLinked(data, names, frames);
    hide Linked, Jobs, Restrict;
    r, completed := DrainJobs(Emptied(data), Jobs(data, names, frames), workers);
  }

  lemma NamesCount(data: Index, names: seq<Id>)
    requires Distinct(names) && Elements(names) == data.Keys
    ensures |names| == |data|
  {
    DistinctSize(names);
  }

  // ----- merge

  ghost function MergedFiles(parts: seq<Index>, name: Id): Frames {
    if parts == [] then map[]
    else
      var last := parts[|parts| - 1];
      MergedFiles(parts[..|parts| - 1], name) + if name in last then last[name] else map[]
  }

  ghost function Merged(parts: seq<Index>): Index
    requires parts != []
  {
    map name | name in parts[0] :: MergedFiles(parts, name)
  }

  /** The same directories everywhere, and no frame of a directory in two parts. */
  ghost predicate Mergeable(parts: seq<Index>) {
    && (forall i :: 0 <= i < |parts| ==> parts[i].Keys == parts[0].Keys)
    && forall i, j, name :: 0 <= i < j < |parts| && name in parts[i] && name in parts[j]
                            ==> parts[i][name].Keys !! parts[j][name].Keys
  }

  lemma {:induction false} MergedKeys(parts: seq<Index>, name: Id)
    ensures forall f :: f in MergedFiles(parts, name)
                        <==> exists i :: 0 <= i < |parts| && name in parts[i] && f in parts[i][name]
  {
    if parts != [] {
      MergedKeys(parts[..|parts| - 1], name);
    }
  }

  /** `combined` with the directories outside `rest` updated from `data`. */
  ghost function Updated(combined: Index, data: Index, rest: set<Id>): Index
    requires data.Keys == combined.Keys
  {
    map name | name in combined :: if name in rest then combined[name] else combined[name] + data[name]
  }

  ghost predicate DisjointOutside(combined: Index, data: Index, rest: set<Id>)
    requires data.Keys == combined.Keys
  {
    forall name :: name in data && name !in rest ==> data[name].Keys !! combined[name].Keys
  }

  lemma UpdateOne(combined: Index, data: Index, rest: set<Id>, name: Id)
    requires data.Keys == combined.Keys && name in rest && name in data
    ensures Updated(combined, data, rest)[name] == combined[name]
    ensures Updated(combined, data, rest - {name})
            == Updated(combined, data, rest)[name := combined[name] + data[name]]
    ensures DisjointOutside(combined, data, rest) && data[name].Keys !! combined[name].Keys
            <==> DisjointOutside(combined, data, rest - {name})
  {
  }

  lemma EmptyMeansDisjoint(a: set<Id>, b: set<Id>)
    requires a * b == {}
    ensures a !! b
  {
    forall f | f in a ensures f !in b {
      assert f !in a * b;
    }
  }

  lemma StaysDisjoint(combined: Index, data: Index, rest: set<Id>)
    requires data.Keys == combined.Keys && DisjointOutside(combined, data, {})
    ensures DisjointOutside(combined, data, rest)
  {
  }

  /** One pass over a part's directories, in some order. */
  method MergePart(combined: Index, data: Index, part: nat) returns (r: Result<Index>)
    requires data.Keys == combined.Keys
    ensures r.Ok? <==> DisjointOutside(combined, data, {})
    ensures r.Ok? ==> r.value == Updated(combined, data, {})
    ensures r.Err? ==>
      r.error.FrameCollision? && r.error.part == part && r.error.dir in data
      && data[r.error.dir].Keys * combined[r.error.dir].Keys != {}
  {
    var result := combined;
    var rest := data.Keys;
    assert Updated(combined, data, rest) == combined && DisjointOutside(combined, data, rest);
    hide Updated, DisjointOutside;
    while rest != {}
      invariant rest <= data.Keys && result.Keys == combined.Keys
      invariant result == Updated(combined, data, rest) && DisjointOutside(combined, data, rest)
      decreases |rest|
    {
      var name :| name in rest;
      UpdateOne(combined, data, rest, name);
      if data[name].Keys * result[name].Keys != {} {
        if DisjointOutside(combined, data, {}) {
          StaysDisjoint(combined, data, rest - {name});
        }
        assert result[name] == combined[name];
        return Err(FrameCollision(part, name));
      }
      EmptyMeansDisjoint(data[name].Keys, combined[name].Keys);
      result := result[name := result[name] + data[name]];
      rest := rest - {name};
    }
    r := Ok(result);
  }

  /** The new part shares no frame with any earlier part. */
  ghost predicate DisjointFromAll(parts: seq<Index>, data: Index) {
    forall k, name :: 0 <= k < |parts| && name in parts[k] && name in data ==> parts[k][name].Keys !! data[name].Keys
  }

  lemma DisjointFromMerged(parts: seq<Index>, data: Index)
    requires parts != [] && Mergeable(parts) && data.Keys == parts[0].Keys
    ensures DisjointOutside(Merged(parts), data, {}) <==> DisjointFromAll(parts, data)
  {
    forall name | name in data
      ensures data[name].Keys !! Merged(parts)[name].Keys
              <==> forall k :: 0 <= k < |parts| ==> parts[k][name].Keys !! data[name].Keys
    {
      MergedKeys(parts, name);
    }
  }

  lemma MergeableAppend(parts: seq<Index>, data: Index)
    requires parts != [] && Mergeable(parts) && data.Keys == parts[0].Keys
    ensures Mergeable(parts + [data]) <==> DisjointFromAll(parts, data)
  {
    var after := parts + [data];
    if Mergeable(after) {
      forall k, name | 0 <= k < |parts| && name in parts[k] && name in data
        ensures parts[k][name].Keys !! data[name].Keys
      {
        assert after[k] == parts[k] && after[|parts|] == data;
      }
    }
  }

  lemma MergeableExtends(parts: seq<Index>, i: nat)
    requires 0 < i < |parts| && Mergeable(parts[..i])
    requires parts[i].Keys == parts[0].Keys
    ensures Mergeable(parts[..i + 1]) <==> DisjointOutside(Merged(parts[..i]), parts[i], {})
    ensures Merged(parts[..i + 1]) == Updated(Merged(parts[..i]), parts[i], {})
  {
    var before, after := parts[..i], parts[..i + 1];
    assert after == before + [parts[i]] && after[..i] == before;
    DisjointFromMerged(before, parts[i]);
    MergeableAppend(before, parts[i]);
    hide Mergeable, DisjointOutside, DisjointFromAll;
  }

  lemma MergeablePrefix(parts: seq<Index>, i: nat)
    requires i <= |parts| && Mergeable(parts)
    ensures Mergeable(parts[..i])
  {
  }

  /** `e` names the first part that does not fit the parts before it: other directories, or a directory in which
      it shares a frame with one of them. */
  ghost predicate MergeFault(parts: seq<Index>, e: Error) {
    match e
    case DirectoriesDiffer(i) => i < |parts| && Mergeable(parts[..i]) && parts[i].Keys != parts[0].Keys
    case FrameCollision(i, name) =>
      && i < |parts| && Mergeable(parts[..i]) && parts[i].Keys == parts[0].Keys
      && name in parts[i]
      && exists k :: 0 <= k < i && name in parts[k] && parts[k][name].Keys * parts[i][name].Keys != {}
    case _ => false
  }

  lemma CollisionHasPart(parts: seq<Index>, data: Index, name: Id) returns (k: nat)
    requires parts != [] && Mergeable(parts) && name in parts[0] && name in data
    requires data[name].Keys * Merged(parts)[name].Keys != {}
    ensures k < |parts| && name in parts[k] && parts[k][name].Keys * data[name].Keys != {}
  {
    MergedKeys(parts, name);
    var f :| f in data[name].Keys * Merged(parts)[name].Keys;
    k :| 0 <= k < |parts| && name in parts[k] && f in parts[k][name];
    assert f in parts[k][name].Keys * data[name].Keys;
  }

  /** The fold of `merge`: accepted exactly when the parts have the same directories and no frame of a
      directory twice; the result joins the parts directory by directory. */
  method Merge(parts: seq<Index>) returns (r: Result<Index>)
    requires parts != []
    ensures r.Ok? <==> Mergeable(parts)
    ensures r.Ok? ==> r.value == Merged(parts)
    ensures r.Err? ==> MergeFault(parts, r.error)
  {
    var combined: Index := map[];
    for i := 0 to |parts|
      invariant Mergeable(parts[..i])
      invariant i > 0 ==> combined == Merged(parts[..i])
    {
      var data := parts[i];
      if i == 0 {
        combined := map name | name in data :: map[];
      }
      if data.Keys != combined.Keys {
        return Err(DirectoriesDiffer(i));
      }
      var next := MergePart(combined, data, i);
      if i == 0 {
        FirstPart(parts, combined);
      } else {
        MergeableExtends(parts, i);
      }
      if next.Err? {
        if Mergeable(parts) {
          MergeablePrefix(parts, i + 1);
        }
        var k := CollisionHasPart(parts[..i], data, next.error.dir);
        return next;
      }
      combined := next.value;
    }
    assert parts[..|parts|] == parts;
    r := Ok(combined);
  }

  lemma FirstPart(parts: seq<Index>, empty: Index)
    requires parts != [] && empty == map name | name in parts[0] :: map[]
    ensures DisjointOutside(empty, parts[0], {})
    ensures Mergeable(parts[..1]) && Merged(parts[..1]) == Updated(empty, parts[0], {})
  {
    var one := parts[..1];
    assert one[..0] == [];
    forall name | name in parts[0] ensures Merged(one)[name] == Updated(empty, parts[0], {})[name] {
      assert MergedFiles(one, name) == MergedFiles([], name) + parts[0][name];
    }
  }

  // ----- splitting and merging again

  function Restricted(data: Index, parts: seq<seq<Id>>): seq<Index> {
    seq(|parts|, i requires 0 <= i < |parts| => Restrict(data, parts[i]))
  }

  lemma {:induction false} FlattenHolds<T>(parts: seq<seq<T>>, f: T)
    ensures f in Flatten(parts) <==> exists i :: 0 <= i < |parts| && f in parts[i]
  {
    if parts != [] {
      FlattenHolds(parts[..|parts| - 1], f);
    }
  }

  lemma {:induction false} MergedRestrictions(data: Index, parts: seq<seq<Id>>, name: Id)
    requires name in data
    ensures MergedFiles(Restricted(data, parts), name) == Pick(data[name], Flatten(parts))
  {
    if parts != [] {
      var last := |parts| - 1;
      MergedRestrictions(data, parts[..last], name);
      assert Restricted(data, parts)[..last] == Restricted(data, parts[..last]);
    }
  }

  ghost predicate NoSharedFrame(parts: seq<seq<Id>>) {
    forall i, j, f :: 0 <= i < j < |parts| && f in parts[i] ==> f !in parts[j]
  }

  /** Selections of one dataset can be merged exactly when no frame is in two of them. */
  lemma MergeAcceptsIffDisjoint(data: Index, parts: seq<seq<Id>>)
    requires CAMERA_CONFIG in data && forall i :: 0 <= i < |parts| ==> Has(data, parts[i])
    ensures Mergeable(Restricted(data, parts)) <==> NoSharedFrame(parts)
  {
    var r := Restricted(data, parts);
    if Mergeable(r) {
      forall i, j, f | 0 <= i < j < |parts| && f in parts[i] ensures f !in parts[j] {
        var k :| 0 <= k < |parts[i]| && parts[i][k] == f;
        assert f in r[i][CAMERA_CONFIG];
        assert r[i][CAMERA_CONFIG].Keys !! r[j][CAMERA_CONFIG].Keys;
      }
    }
  }

  lemma {:induction false} DistinctFlatten(parts: seq<seq<Id>>)
    requires Distinct(Flatten(parts))
    ensures NoSharedFrame(parts)
  {
    if parts != [] {
      var last := |parts| - 1;
      var before, end := Flatten(parts[..last]), parts[last];
      assert Distinct(before) by {
        assert forall i :: 0 <= i < |before| ==> before[i] == Flatten(parts)[i];
      }
      DistinctFlatten(parts[..last]);
      forall i, f | 0 <= i < last && f in parts[i] ensures f !in end {
        FlattenHolds(parts[..last], f);
        assert f in before by { assert parts[..last][i] == parts[i]; }
        var k :| 0 <= k < |before| && before[k] == f;
        forall l | 0 <= l < |end| ensures end[l] != f {
          assert Flatten(parts)[k] == f && Flatten(parts)[|before| + l] == end[l];
        }
      }
      forall i, j, f | 0 <= i < j < |parts| && f in parts[i] ensures f !in parts[j] {
        if j < last {
          assert parts[..last][i] == parts[i] && parts[..last][j] == parts[j];
        }
      }
    }
  }

  /** Splitting a dataset into consecutive parts of its frame list and merging what the parts hold
      rebuilds it: every directory, frame and file. */
  lemma SplitThenMerge(data: Index, frames: seq<Id>, parts: seq<seq<Id>>)
    requires Complete(data) && Distinct(frames) && Elements(frames) == data[CAMERA_CONFIG].Keys
    requires parts != [] && Flatten(parts) == frames
    ensures Mergeable(Restricted(data, parts)) && Merged(Restricted(data, parts)) == data
  {
    forall i | 0 <= i < |parts| ensures Has(data, parts[i]) {
      forall name, k | name in data && 0 <= k < |parts[i]| ensures parts[i][k] in data[name] {
        FlattenHolds(parts, parts[i][k]);
        assert parts[i][k] in Elements(frames);
      }
    }
    DistinctFlatten(parts);
    MergeAcceptsIffDisjoint(data, parts);
    forall name | name in data ensures MergedFiles(Restricted(data, parts), name) == data[name] {
      MergedRestrictions(data, parts, name);
      assert forall f :: f in data[name] ==> f in Elements(frames);
    }
  }

  // ----- reading back what was written

  /** How the file system lists one directory: its files in some order. */
  method ListDirectory(name: Id, frames: Frames) returns (d: Directory)
    ensures d.name == name && GoodDirectory(d) && FramesOf(d.entries) == frames
  {
    var entries: seq<Entry> := [];
    var rest := frames.Keys;
    assert FramesOf(entries) == map[];
    hide FramesOf;
    while rest != {}
      invariant rest <= frames.Keys
      invariant FramesOf(entries) == map f | f in frames && f !in rest :: frames[f]
      invariant forall e :: e in entries ==> e.ordinary && e.stem in frames && e.stem !in rest
      invariant forall i, j :: 0 <= i < j < |entries| ==> entries[i].stem != entries[j].stem
      decreases |rest|
    {
      var f :| f in rest;
      FramesOfAppend(entries, Entry(f, frames[f], true));
      entries := entries + [Entry(f, frames[f], true)];
      rest := rest - {f};
    }
    d := Directory(name, false, entries);
  }

  lemma FramesOfAppend(entries: seq<Entry>, e: Entry)
    ensures FramesOf(entries + [e]) == FramesOf(entries)[e.stem := e.file]
  {
    assert (entries + [e])[..|entries|] == entries;
  }

  /** The listing of an index: its directories in some order, each listed. */
  method ListRoot(data: Index) returns (dirs: seq<Directory>)
    requires DIAGNOSTICS !in data
    ensures Listed(dirs) && AllGood(dirs) && IndexedAs(dirs, data)
  {
    dirs := [];
    var rest := data.Keys;
    while rest != {}
      invariant rest <= data.Keys
      invariant PartlyListed(data, dirs, rest)
      decreases |rest|
    {
      hide PartlyListed;
      var name :| name in rest;
      var d := ListDirectory(name, data[name]);
      OneMoreListed(data, dirs, rest, d);
      dirs := dirs + [d];
      rest := rest - {name};
    }
  }

  /** The directories outside `rest` are listed. */
  ghost predicate PartlyListed(data: Index, dirs: seq<Directory>, rest: set<Id>) {
    && Listed(dirs)
    && (forall d :: d in dirs ==>
      d.name in data && d.name !in rest && GoodDirectory(d) && FramesOf(d.entries) == data[d.name])
    && forall name :: name in data && name !in rest ==> exists d :: d in dirs && d.name == name
  }

  lemma OneMoreListed(data: Index, dirs: seq<Directory>, rest: set<Id>, d: Directory)
    requires PartlyListed(data, dirs, rest) && d.name in rest && d.name in data
    requires GoodDirectory(d) && FramesOf(d.entries) == data[d.name]
    ensures PartlyListed(data, dirs + [d], rest - {d.name})
  {
    hide GoodDirectory, FramesOf;
    var after := dirs + [d];
    assert forall x :: x in after <==> x in dirs || x == d;
    forall other | other in data && other !in rest - {d.name} ensures exists x :: x in after && x.name == other {
      if other == d.name {
        assert d in after;
      } else {
        var x :| x in dirs && x.name == other;
        assert x in after;
      }
    }
  }

  lemma RestrictComplete(data: Index, frames: seq<Id>)
    requires Complete(data) && Has(data, frames)
    ensures Complete(Restrict(data, frames))
  {
  }

  /** Writing a dataset out and reading it back gives it again. */
  method WriteAndRead(data: Index) returns (r: Index)
    requires Complete(data) && DIAGNOSTICS !in data
    ensures r == data
  {
    var dirs := ListRoot(data);
    hide Complete, IndexedAs, Listed, AllGood;
    var read := ReadIndex(dirs);
    assert read.Ok? by {
      forall other | IndexedAs(dirs, other) ensures Complete(other) {
        IndexedUnique(dirs, other, data);
      }
    }
    IndexedUnique(dirs, read.value, data);
    r := read.value;
  }

  lemma PartHas(data: Index, frames: seq<Id>, parts: seq<seq<Id>>, i: nat)
    requires Complete(data) && Distinct(frames) && Elements(frames) == data[CAMERA_CONFIG].Keys
    requires Flatten(parts) == frames && i < |parts|
    ensures Has(data, parts[i]) && Distinct(parts[i])
  {
    forall name, k | name in data && 0 <= k < |parts[i]| ensures parts[i][k] in data[name] {
      FlattenHolds(parts, parts[i][k]);
      assert parts[i][k] in Elements(frames);
    }
    PartDistinct(parts, i);
  }

  lemma {:induction false} PartDistinct(parts: seq<seq<Id>>, i: nat)
    requires Distinct(Flatten(parts)) && i < |parts|
    ensures Distinct(parts[i])
  {
    var last := |parts| - 1;
    var before, end := Flatten(parts[..last]), parts[last];
    var all := Flatten(parts);
    if i == last {
      assert forall k :: 0 <= k < |end| ==> end[k] == all[|before| + k];
    } else {
      assert forall k :: 0 <= k < |before| ==> before[k] == all[k];
      PartDistinct(parts[..last], i);
    }
  }

  lemma RestrictAll(data: Index, frames: seq<Id>)
    requires Complete(data) && Elements(frames) == data[CAMERA_CONFIG].Keys
    ensures Has(data, frames) && Restrict(data, frames) == data
  {
    forall name, i | name in data && 0 <= i < |frames| ensures frames[i] in data[name] {
      assert frames[i] in Elements(frames);
    }
    forall name | name in data ensures Pick(data[name], frames) == data[name] {
      forall f | f in data[name] ensures f in frames {
        assert f in Elements(frames);
      }
    }
  }

  /** The two tools one after the other, on disk. Whatever the part count and the numbers of workers,
      splitting a dataset, linking every part, reading the parts back, merging them, linking the merged
      dataset and reading that back gives the dataset again: every directory, frame and file. `frames` is
      the sorted frame list. */
  method SplitLinkReadMerge(data: Index, frames: seq<Id>, count: int, workers: nat) returns (r: Result<Index>)
    requires Complete(data) && DIAGNOSTICS !in data && workers >= 1
    requires Distinct(frames) && Elements(frames) == data[CAMERA_CONFIG].Keys
    ensures r == if count < 1 then Err(BadCount) else if frames == [] then Err(NoFrames) else Ok(data)
  {
    var plans := Partition(frames, count);
    if plans.Err? {
      return Err(plans.error);
    }
    var parts := plans.value;
    var indices: seq<Index> := [];
    hide Flatten, Elements, Mergeable, Merged;
    for i := 0 to |parts|
      invariant |indices| == i && forall k :: 0 <= k < i ==> indices[k] == Restrict(data, parts[k])
    {
      PartHas(data, frames, parts, i);
      RestrictComplete(data, parts[i]);
      var linked, completed := ExecutePlan(data, parts[i], workers);
      var back := WriteAndRead(linked.value);
      indices := indices + [back];
    }
    assert indices == Restricted(data, parts);
    SplitThenMerge(data, frames, parts);
    var merged := Merge(indices);
    assert merged == Ok(data);
    RestrictAll(data, frames);
    var linked, completed := ExecutePlan(merged.value, frames, MERGE_WORKERS);
    var back := WriteAndRead(linked.value);
    r := Ok(back);
  }
}
