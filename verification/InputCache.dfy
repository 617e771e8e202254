/** The per-topic frame cache of a session (cache.py): age and size eviction on append, and the
    nearest / latest-before / range queries. Times are integer nanoseconds. */
module InputCache {
  import opened Options

  type Key = string

  datatype Frame = Frame(source: int, receive: int, payload: int)
  datatype Policy = Policy(maxFrames: int, maxAgeSec: real)
  datatype Reason = AgeExpired | MaxFrames

  /** Python's int() of a float: towards zero. */
  function Trunc(x: real): (r: int)
    ensures x >= 0.0 ==> r as real <= x < r as real + 1.0
    ensures x <= 0.0 ==> r as real - 1.0 < x <= r as real
  {
    if x >= 0.0 then x.Floor else -((-x).Floor)
  }

  function Cutoff(policy: Policy, f: Frame): int {
    Trunc(f.receive as real - policy.maxAgeSec * 1_000_000_000.0)
  }

  /** The distance of two times. */
  function Apart(a: int, b: int): int {
    if a >= b then a - b else b - a
  }

  // ----- What append leaves in a buffer -----

  function DropOld(buffer: seq<Frame>, cutoff: int): (r: seq<Frame>)
    ensures |r| <= |buffer|
  {
    if buffer == [] || buffer[0].receive >= cutoff then buffer else DropOld(buffer[1..], cutoff)
  }

  function Newest(buffer: seq<Frame>, n: nat): seq<Frame> {
    if |buffer| <= n then buffer else buffer[|buffer| - n..]
  }

  function Appended(policy: Policy, buffer: seq<Frame>, f: Frame): seq<Frame>
    requires policy.maxFrames >= 0
  {
    Newest(DropOld(buffer, Cutoff(policy, f)) + [f], policy.maxFrames)
  }

  /** The buffer after a whole history of appends. */
  function After(policy: Policy, history: seq<Frame>): seq<Frame>
    requires policy.maxFrames >= 0
  {
    if history == [] then []
    else Appended(policy, After(policy, history[..|history| - 1]), history[|history| - 1])
  }

  ghost predicate InOrder(history: seq<Frame>) {
    forall i, j :: 0 <= i <= j < |history| ==> history[i].receive <= history[j].receive
  }

  /** The sliding window, judged from the whole history: frame i is inside when it is young enough
      against the newest frame and among the last maxFrames. */
  ghost predicate Inside(policy: Policy, history: seq<Frame>, i: int)
    requires 0 <= i < |history|
  {
    history[i].receive >= Cutoff(policy, history[|history| - 1]) && i >= |history| - policy.maxFrames
  }

  /** `k` is where the window starts. */
  ghost predicate StartsAt(policy: Policy, history: seq<Frame>, k: nat) {
    k <= |history| && forall i :: 0 <= i < |history| ==> (i >= k <==> Inside(policy, history, i))
  }

  lemma CutoffMonotone(policy: Policy, f: Frame, g: Frame)
    requires f.receive <= g.receive
    ensures Cutoff(policy, f) <= Cutoff(policy, g)
  {
  }

  lemma CutoffBelow(policy: Policy, f: Frame)
    requires policy.maxAgeSec >= 0.0
    ensures Cutoff(policy, f) <= f.receive
  {
    assert Trunc(f.receive as real) == f.receive;
  }

  /** Dropping old heads of an ordered suffix moves its start to the first young frame. */
  lemma {:induction false} DropOldOfSuffix(history: seq<Frame>, j: nat, cutoff: int) returns (k: nat)
    requires InOrder(history) && j <= |history|
    ensures j <= k <= |history| && DropOld(history[j..], cutoff) == history[k..]
    ensures forall i :: j <= i < |history| ==> (i >= k <==> history[i].receive >= cutoff)
    decreases |history| - j
  {
    if j == |history| || history[j].receive >= cutoff {
      k := j;
    } else {
      assert history[j..][1..] == history[j + 1..];
      k := DropOldOfSuffix(history, j + 1, cutoff);
    }
  }

  /** One append turns the window of the history before into the window of the history after. */
  lemma WindowMoves(policy: Policy, before: seq<Frame>, f: Frame, j: nat, m: nat) returns (k: nat)
    requires policy.maxFrames >= 0 && policy.maxAgeSec >= 0.0 && InOrder(before + [f])
    requires StartsAt(policy, before, j) && j <= m <= |before|
    requires forall i :: j <= i < |before| ==> (i >= m <==> before[i].receive >= Cutoff(policy, f))
    ensures StartsAt(policy, before + [f], k)
    ensures k == if |before| + 1 - m <= policy.maxFrames then m else |before| + 1 - policy.maxFrames
  {
    var history := before + [f];
    k := if |history| - m <= policy.maxFrames then m else |history| - policy.maxFrames;
    CutoffBelow(policy, f);
    if before != [] {
      assert history[|before| - 1].receive <= history[|before|].receive;
      CutoffMonotone(policy, before[|before| - 1], f);
    }
    forall i | 0 <= i < |history| ensures i >= k <==> Inside(policy, history, i) {
      if i < |before| {
        assert i >= j <==> Inside(policy, before, i);
      }
    }
  }

  /** The incremental eviction keeps exactly the sliding window over the whole history. */
  lemma {:induction false} BufferIsWindow(policy: Policy, history: seq<Frame>) returns (k: nat)
    requires policy.maxFrames >= 0 && policy.maxAgeSec >= 0.0 && InOrder(history)
    ensures StartsAt(policy, history, k) && After(policy, history) == history[k..]
  {
    hide StartsAt, DropOld, Cutoff;
    if history == [] {
      k := 0;
      EmptyWindow(policy);
    } else {
      var before, f := history[..|history| - 1], history[|history| - 1];
      assert history == before + [f];
      var j := BufferIsWindow(policy, before);
      assert j <= |before| by { StartInside(policy, before, j); }
      var m := DropOldOfSuffix(before, j, Cutoff(policy, f));
      k := WindowMoves(policy, before, f, j, m);
      assert before[m..] + [f] == history[m..];
    }
  }

  /** Without any order of the receive times: an append drops from the front the frames that are too old, up to the
      first that is not, and then whatever the maximum does not hold; the rest stays, and the new frame is last. */
  lemma AppendInAnyOrder(policy: Policy, history: seq<Frame>, f: Frame) returns (aged: nat)
    requires policy.maxFrames >= 0
    ensures var before := After(policy, history);
      var over := |before| + 1 - policy.maxFrames;
      && aged <= |before| && (forall i :: 0 <= i < aged ==> before[i].receive < Cutoff(policy, f))
      && (aged < |before| ==> before[aged].receive >= Cutoff(policy, f))
      && After(policy, history + [f]) == (before + [f])[if over > aged then over else aged..]
  {
    AfterAppend(policy, history, f);
    aged := LeadingOld(After(policy, history), Cutoff(policy, f));
  }

  lemma {:induction false} LeadingOld(buffer: seq<Frame>, cutoff: int) returns (aged: nat)
    ensures aged <= |buffer| && (forall i :: 0 <= i < aged ==> buffer[i].receive < cutoff)
    ensures (aged < |buffer| ==> buffer[aged].receive >= cutoff) && DropOld(buffer, cutoff) == buffer[aged..]
  {
    if buffer == [] || buffer[0].receive >= cutoff {
      aged := 0;
    } else {
      aged := LeadingOld(buffer[1..], cutoff);
      aged := aged + 1;
    }
  }

  lemma AfterAppend(policy: Policy, history: seq<Frame>, f: Frame)
    requires policy.maxFrames >= 0
    ensures After(policy, history + [f]) == Appended(policy, After(policy, history), f)
  {
    assert (history + [f])[..|history|] == history;
  }

  lemma EmptyWindow(policy: Policy)
    ensures StartsAt(policy, [], 0)
  {
  }

  lemma StartInside(policy: Policy, history: seq<Frame>, k: nat)
    requires StartsAt(policy, history, k)
    ensures k <= |history|
  {
  }

  /** For an age of whole nanoseconds the window bound is the age itself. */
  lemma WholeNanosecondAge(policy: Policy, age: nat, earlier: Frame, newest: Frame)
    requires policy.maxAgeSec * 1_000_000_000.0 == age as real
    ensures earlier.receive >= Cutoff(policy, newest) <==> newest.receive - earlier.receive <= age
  {
    var x := newest.receive - age;
    assert newest.receive as real - policy.maxAgeSec * 1_000_000_000.0 == x as real;
    assert Trunc(x as real) == x;
  }

  // ----- What the queries return -----

  /** The first frame at the least source distance, within the limit. */
  ghost predicate IsNearest(buffer: seq<Frame>, t: int, limit: int, r: Option<Frame>) {
    match r
    case None => forall i :: 0 <= i < |buffer| ==> Apart(buffer[i].source, t) > limit
    case Some(f) =>
      exists k :: 0 <= k < |buffer| && buffer[k] == f && Apart(f.source, t) <= limit
        && (forall i :: 0 <= i < |buffer| ==> Apart(f.source, t) <= Apart(buffer[i].source, t))
        && (forall i :: 0 <= i < k ==> Apart(f.source, t) < Apart(buffer[i].source, t))
  }

  lemma NothingNearest(t: int, limit: int)
    ensures IsNearest([], t, limit, None)
  {
  }

  lemma NearestStep(seen: seq<Frame>, f: Frame, t: int, limit: int, best: Option<Frame>)
    requires IsNearest(seen, t, limit, best)
    ensures IsNearest(seen + [f], t, limit,
      if Apart(f.source, t) <= limit && (best.None? || Apart(f.source, t) < Apart(best.value.source, t)) then Some(f)
      else best)
  {
    var all := seen + [f];
    assert all[|seen|] == f && forall i :: 0 <= i < |seen| ==> all[i] == seen[i];
  }

  /** Not after `t`, and at most `maxAgeNs` before it. */
  ghost predicate Eligible(f: Frame, t: int, maxAgeNs: real) {
    f.source <= t && t as real - maxAgeNs <= f.source as real
  }

  /** The eligible frame with the latest source time, the last arrived among equals. */
  ghost predicate IsLatestBefore(buffer: seq<Frame>, t: int, maxAgeNs: real, r: Option<Frame>) {
    match r
    case None => forall i :: 0 <= i < |buffer| ==> !Eligible(buffer[i], t, maxAgeNs)
    case Some(f) =>
      exists k :: 0 <= k < |buffer| && buffer[k] == f && Eligible(f, t, maxAgeNs)
        && (forall i :: 0 <= i < |buffer| && Eligible(buffer[i], t, maxAgeNs) ==> buffer[i].source <= f.source)
        && (forall i :: k < i < |buffer| && Eligible(buffer[i], t, maxAgeNs) ==> buffer[i].source < f.source)
  }

  function InRange(buffer: seq<Frame>, lo: int, hi: int): seq<Frame> {
    if buffer == [] then []
    else if lo <= buffer[0].source <= hi then [buffer[0]] + InRange(buffer[1..], lo, hi)
    else InRange(buffer[1..], lo, hi)
  }

  /** A range query keeps every frame inside the bounds, as often and in the order it arrived. */
  lemma {:induction false} RangeIsFilter(buffer: seq<Frame>, lo: int, hi: int, f: Frame)
    ensures multiset(InRange(buffer, lo, hi))[f] == if lo <= f.source <= hi then multiset(buffer)[f] else 0
  {
    if buffer != [] {
      assert buffer == [buffer[0]] + buffer[1..];
      RangeIsFilter(buffer[1..], lo, hi, f);
    }
  }

  lemma {:induction false} RangeSplits(a: seq<Frame>, b: seq<Frame>, lo: int, hi: int)
    ensures InRange(a + b, lo, hi) == InRange(a, lo, hi) + InRange(b, lo, hi)
  {
    if a == [] {
      assert a + b == b;
    } else {
      assert (a + b)[1..] == a[1..] + b;
      RangeSplits(a[1..], b, lo, hi);
    }
  }

  predicate AgedFirst(aged: int, reasons: seq<Reason>) {
    forall i :: 0 <= i < |reasons| ==> reasons[i] == if i < aged then AgeExpired else MaxFrames
  }

  /** Appending `f` left `after`: one reason for each dropped frame, first those too old against the new
      frame, then those over the maximum. */
  ghost predicate Evicted(policy: Policy, before: seq<Frame>, f: Frame, after: seq<Frame>, reasons: seq<Reason>) {
    && |reasons| + |after| == |before| + 1
    && AgedFirst(|before| - |DropOld(before, Cutoff(policy, f))|, reasons)
  }

  lemma NoReasons()
    ensures AgedFirst(0, [])
  {
  }

  lemma AgedMore(reasons: seq<Reason>)
    requires AgedFirst(|reasons|, reasons)
    ensures AgedFirst(|reasons| + 1, reasons + [AgeExpired])
  {
  }

  lemma FullMore(aged: nat, reasons: seq<Reason>)
    requires AgedFirst(aged, reasons) && aged <= |reasons|
    ensures AgedFirst(aged, reasons + [MaxFrames])
  {
  }

  /** The two eviction loops of append, around the append itself. */
  method Evict(policy: Policy, before: seq<Frame>, f: Frame) returns (buffer: seq<Frame>, reasons: seq<Reason>)
    requires policy.maxFrames >= 0
    ensures buffer == Appended(policy, before, f) && Evicted(policy, before, f, buffer, reasons)
  {
    hide Cutoff, AgedFirst;
    buffer, reasons := before, [];
    var cutoff := Cutoff(policy, f);
    NoReasons();
    while buffer != [] && buffer[0].receive < cutoff
      invariant DropOld(buffer, cutoff) == DropOld(before, cutoff)
      invariant |reasons| + |buffer| == |before| && AgedFirst(|reasons|, reasons)
      decreases |buffer|
    {
      AgedMore(reasons);
      buffer := buffer[1..];
      reasons := reasons + [AgeExpired];
    }
    ghost var aged := |before| - |buffer|;
    buffer := buffer + [f];
    ghost var full := buffer;
    while |buffer| > policy.maxFrames
      invariant Newest(buffer, policy.maxFrames) == Newest(full, policy.maxFrames)
      invariant |reasons| + |buffer| == |before| + 1 && aged <= |reasons| && AgedFirst(aged, reasons)
      decreases |buffer|
    {
      FullMore(aged, reasons);
      buffer := buffer[1..];
      reasons := reasons + [MaxFrames];
    }
  }

  /** Every frame ever appended to a topic and every eviction ever reported for it. */
  datatype Account = Account(history: seq<Frame>, drops: seq<Reason>)

  function Entry(account: Account, f: Frame, reasons: seq<Reason>): Account {
    Account(account.history + [f], account.drops + reasons)
  }

  /** What the cache keeps for one topic: the window of its history, and an account of everything else. */
  ghost predicate TopicOk(policy: Policy, buffer: seq<Frame>, account: Account) {
    && policy.maxFrames >= 0 && buffer == After(policy, account.history)
    && |account.drops| + |buffer| == |account.history|
  }

  lemma TopicAppended(policy: Policy, buffer: seq<Frame>, account: Account, f: Frame, next: seq<Frame>,
                      reasons: seq<Reason>)
    requires TopicOk(policy, buffer, account)
    requires next == Appended(policy, buffer, f) && Evicted(policy, buffer, f, next, reasons)
    ensures TopicOk(policy, next, Entry(account, f, reasons))
  {
    AfterAppend(policy, account.history, f);
  }

  ghost predicate AllOk(policies: map<Key, Policy>, buffers: map<Key, seq<Frame>>, accounts: map<Key, Account>) {
    && (forall k :: k in policies ==> policies[k].maxFrames >= 0)
    && buffers.Keys == accounts.Keys && buffers.Keys <= policies.Keys
    && forall k :: k in buffers ==> TopicOk(policies[k], buffers[k], accounts[k])
  }

  lemma KnownTopic(policies: map<Key, Policy>, buffers: map<Key, seq<Frame>>, accounts: map<Key, Account>, key: Key)
    requires AllOk(policies, buffers, accounts) && key in policies
    ensures policies[key].maxFrames >= 0 && (key in buffers <==> key in accounts)
    ensures TopicOk(policies[key], if key in buffers then buffers[key] else [],
                    if key in accounts then accounts[key] else Account([], []))
  {
  }

  lemma AllUpdated(policies: map<Key, Policy>, buffers: map<Key, seq<Frame>>, accounts: map<Key, Account>, key: Key,
                   buffer: seq<Frame>, account: Account)
    requires AllOk(policies, buffers, accounts) && key in policies && TopicOk(policies[key], buffer, account)
    ensures AllOk(policies, buffers[key := buffer], accounts[key := account])
  {
    hide TopicOk;
  }

  class SessionInputCache {
    const policies: map<Key, Policy>
    var buffers: map<Key, seq<Frame>>
    ghost var accounts: map<Key, Account>

    ghost predicate Valid()
      reads this
    {
      AllOk(policies, buffers, accounts)
    }

    function Buffer(key: Key): seq<Frame>
      reads this
    {
      if key in buffers then buffers[key] else []
    }

    ghost function AccountOf(key: Key): Account
      reads this
    {
      if key in accounts then accounts[key] else Account([], [])
    }

    ghost function History(key: Key): seq<Frame>
      reads this
    {
      AccountOf(key).history
    }

    constructor (policies: map<Key, Policy>)
      requires forall k :: k in policies ==> policies[k].maxFrames >= 0
      ensures Valid() && this.policies == policies && buffers == map[] && accounts == map[]
    {
      this.policies := policies;
      buffers, accounts := map[], map[];
    }

    /** Over the whole life of the cache, whatever order frames arrived in, every frame appended to a topic
        has either been reported dropped or is still buffered. */
    lemma DropsAndRetained(key: Key)
      requires Valid()
      ensures |AccountOf(key).drops| + |Buffer(key)| == |History(key)|
    {
    }

    /** None when the topic has no policy (a KeyError), otherwise the reasons of the evictions. */
    method Append(key: Key, f: Frame) returns (dropped: Option<seq<Reason>>)
      requires Valid()
      modifies this
      ensures Valid() && (dropped.Some? <==> key in policies)
      ensures dropped.None? ==> buffers == old(buffers) && accounts == old(accounts)
      ensures dropped.Some? ==> accounts == old(accounts)[key := Entry(old(AccountOf(key)), f, dropped.value)]
      ensures dropped.Some? ==> buffers == old(buffers)[key := Buffer(key)]
      ensures dropped.Some? ==> Evicted(policies[key], old(Buffer(key)), f, Buffer(key), dropped.value)
    {
      if key !in policies {
        return None;
      }
      hide TopicOk, Appended, Evicted, AllOk, Entry;
      var buffer := if key in buffers then buffers[key] else [];
      ghost var before, account := buffer, AccountOf(key);
      KnownTopic(policies, buffers, accounts, key);
      var reasons: seq<Reason>;
      buffer, reasons := Evict(policies[key], buffer, f);
      TopicAppended(policies[key], before, account, f, buffer, reasons);
      AllUpdated(policies, buffers, accounts, key, buffer, Entry(account, f, reasons));
      buffers := buffers[key := buffer];
      accounts := accounts[key := Entry(account, f, reasons)];
      dropped := Some(reasons);
    }

    method QueryNearest(key: Key, t: int, maxDiffMs: real) returns (best: Option<Frame>)
      ensures IsNearest(Buffer(key), t, Trunc(maxDiffMs * 1_000_000.0), best)
    {
      hide IsNearest;
      best := None;
      var bestAbs := 0;
      NothingNearest(t, Trunc(maxDiffMs * 1_000_000.0));
      var limit := Trunc(maxDiffMs * 1_000_000.0);
      var buffer := Buffer(key);
      for i := 0 to |buffer|
        invariant IsNearest(buffer[..i], t, limit, best)
        invariant best.Some? ==> bestAbs == Apart(best.value.source, t)
      {
        var delta := buffer[i].source - t;
        if delta < 0 {
          delta := -delta;
        }
        NearestStep(buffer[..i], buffer[i], t, limit, best);
        assert buffer[..i + 1] == buffer[..i] + [buffer[i]];
        if delta > limit {
          continue;
        }
        if best.None? || delta < bestAbs {
          best, bestAbs := Some(buffer[i]), delta;
        }
      }
      assert buffer[..|buffer|] == buffer;
    }

    method QueryLatestBefore(key: Key, t: int, maxAgeSec: real) returns (best: Option<Frame>)
      ensures IsLatestBefore(Buffer(key), t, maxAgeSec * 1_000_000_000.0, best)
    {
      var maxAgeNs := maxAgeSec * 1_000_000_000.0;
      best := None;
      var buffer := Buffer(key);
      for i := 0 to |buffer|
        invariant IsLatestBefore(buffer[..i], t, maxAgeNs, best)
      {
        ghost var seen := buffer[..i];
        assert buffer[..i + 1] == seen + [buffer[i]];
        var age := t - buffer[i].source;
        if 0 <= age && age as real <= maxAgeNs && (best.None? || buffer[i].source >= best.value.source) {
          best := Some(buffer[i]);
          assert buffer[..i + 1][i] == buffer[i];
        }
      }
      assert buffer[..|buffer|] == buffer;
    }

    function QueryRange(key: Key, lo: int, hi: int): seq<Frame>
      reads this
    {
      InRange(Buffer(key), lo, hi)
    }

    /** Over an ordered history the queries therefore look at exactly the sliding window. */
    lemma QueriesSeeWindow(key: Key) returns (k: nat)
      requires Valid() && key in policies && policies[key].maxAgeSec >= 0.0 && InOrder(History(key))
      ensures StartsAt(policies[key], History(key), k) && Buffer(key) == History(key)[k..]
    {
      k := BufferIsWindow(policies[key], History(key));
    }
  }
}
