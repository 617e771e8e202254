/** Point-cloud motion compensation (nodes/common.py): interpolate the vehicle's pose at each point's
    time, move the point into the world, and express it in the vehicle's frame at the reference time.

    The trajectory is a list of times and a list of poses of the same length, as the range query of the
    cache returned them; where a theorem needs the times sorted it says so. The compensated cloud is
    judged against the places its points were in, not against the formulas that move them. */
module Motion {
  import opened Options
  import opened Transforms

  datatype Pose = Pose(position: Vec, orientation: Quat)
  /** A pose whose orientation has been turned into a matrix. */
  datatype Frame = Frame(rotation: Mat, origin: Vec)

  // ----- interpolation

  ghost predicate Sorted(times: seq<int>) {
    forall i, j :: 0 <= i <= j < |times| ==> times[i] <= times[j]
  }

  /** `numpy.searchsorted(times, query, side="right")`: how many leading times are at most the query. */
  function SearchSortedRight(times: seq<int>, query: int): (n: nat)
    ensures n <= |times| && (n < |times| ==> query < times[n])
    ensures forall i :: 0 <= i < n ==> times[i] <= query
  {
    if times == [] || query < times[0] then 0 else 1 + SearchSortedRight(times[1..], query)
  }

  /** The upper end of the segment a query falls in, clipped to a valid segment. */
  function Upper(times: seq<int>, query: int): (u: nat)
    requires |times| >= 2
    ensures 1 <= u < |times|
  {
    var n := SearchSortedRight(times, query);
    if n < 1 then 1 else if n > |times| - 1 then |times| - 1 else n
  }

  function Ratio(t0: int, t1: int, query: int): real {
    if t1 > t0 then (query as real - t0 as real) / (t1 as real - t0 as real) else 0.0
  }

  function LerpVec(p: Vec, q: Vec, ratio: real): Vec {
    Vec(p.x + (q.x - p.x) * ratio, p.y + (q.y - p.y) * ratio, p.z + (q.z - p.z) * ratio)
  }

  /** One row of `_interpolate_trajectory`; None stands for the ValueError on a zero quaternion. */
  function Interpolate(nm: Numerics, times: seq<int>, poses: seq<Pose>, query: int): Option<Pose>
    requires |times| == |poses| >= 2
  {
    var u := Upper(times, query);
    var p, q := poses[u - 1], poses[u];
    var ratio := Ratio(times[u - 1], times[u], query);
    match Slerp(nm, p.orientation, q.orientation, ratio)
    case None => None
    case Some(o) => Some(Pose(LerpVec(p.position, q.position, ratio), o))
  }

  function FrameOf(nm: Numerics, pose: Pose): Option<Frame> {
    match QuaternionToRotationMatrix(nm, pose.orientation)
    case None => None
    case Some(m) => Some(Frame(m, pose.position))
  }

  function FrameAt(nm: Numerics, times: seq<int>, poses: seq<Pose>, query: int): Option<Frame>
    requires |times| == |poses| >= 2
  {
    match Interpolate(nm, times, poses, query)
    case None => None
    case Some(pose) => FrameOf(nm, pose)
  }

  /** For sorted times and a query inside their range the segment brackets the query. */
  lemma SegmentBrackets(times: seq<int>, query: int)
    requires |times| >= 2 && Sorted(times) && times[0] <= query <= times[|times| - 1]
    ensures var u := Upper(times, query); times[u - 1] <= query <= times[u]
  {
  }

  lemma QuotientWithin(a: real, b: real)
    requires 0.0 <= a <= b && b > 0.0
    ensures 0.0 <= a / b <= 1.0
  {
    var r := a / b;
    assert r * b == a;
    if r < 0.0 {
      NegativeTimes(r, b);
    } else if r > 1.0 {
      NegativeTimes(1.0 - r, b);
    }
  }

  lemma NegativeTimes(a: real, b: real)
    requires a < 0.0 && b > 0.0
    ensures a * b < 0.0
  {
  }

  lemma RatioWithin(t0: int, t1: int, query: int)
    requires t0 <= query <= t1
    ensures 0.0 <= Ratio(t0, t1, query) <= 1.0
    ensures t0 < t1 ==> Ratio(t0, t1, t0) == 0.0 && Ratio(t0, t1, t1) == 1.0
  {
    if t0 < t1 {
      QuotientWithin(query as real - t0 as real, t1 as real - t0 as real);
    }
  }

  /** With no zero quaternion in a sorted trajectory, interpolation inside its range never fails and the
      frame's rotation is orthogonal. */
  lemma FrameExists(nm: Numerics, times: seq<int>, poses: seq<Pose>, query: int)
    requires Lawful(nm) && |times| == |poses| >= 2 && Sorted(times) && times[0] <= query <= times[|times| - 1]
    requires forall i :: 0 <= i < |poses| ==> poses[i].orientation != ZERO
    ensures FrameAt(nm, times, poses, query).Some?
  {
    var u := Upper(times, query);
    var ratio := Ratio(times[u - 1], times[u], query);
    SegmentBrackets(times, query);
    RatioWithin(times[u - 1], times[u], query);
    SlerpUnit(nm, poses[u - 1].orientation, poses[u].orientation, ratio);
    var pose := Interpolate(nm, times, poses, query).value;
    UnitNonzero(pose.orientation);
    MatrixOrthogonal(nm, pose.orientation);
  }

  lemma UnitNonzero(q: Quat)
    requires Norm2(q) == 1.0
    ensures q != ZERO
  {
  }

  /** Whatever the trajectory, a frame that comes out has an orthogonal rotation. */
  lemma FrameOrthogonal(nm: Numerics, times: seq<int>, poses: seq<Pose>, query: int)
    requires SqrtLaw(nm) && |times| == |poses| >= 2 && FrameAt(nm, times, poses, query).Some?
    ensures Orthogonal(FrameAt(nm, times, poses, query).value.rotation)
  {
    var pose := Interpolate(nm, times, poses, query).value;
    MatrixOrthogonal(nm, pose.orientation);
    hide Orthogonal, Interpolate;
  }

  function Coordinate(start: real, velocity: real, t: int): real {
    start + velocity * t as real
  }

  /** The position at time `t` of a vehicle moving at constant velocity. */
  function Travelled(start: Vec, velocity: Vec, t: int): Vec {
    Vec(Coordinate(start.x, velocity.x, t), Coordinate(start.y, velocity.y, t), Coordinate(start.z, velocity.z, t))
  }

  lemma CoordinateBetween(s: real, v: real, t0: int, t1: int, q: int, r: real)
    requires r * (t1 as real - t0 as real) == q as real - t0 as real
    ensures Coordinate(s, v, t0) + (Coordinate(s, v, t1) - Coordinate(s, v, t0)) * r == Coordinate(s, v, q)
  {
    AffineBetween(s, v, t0 as real, t1 as real, q as real, r);
  }

  lemma AffineBetween(s: real, v: real, t0: real, t1: real, q: real, r: real)
    requires r * (t1 - t0) == q - t0
    ensures s + v * t0 + ((s + v * t1) - (s + v * t0)) * r == s + v * q
  {
    assert ((s + v * t1) - (s + v * t0)) * r == v * (r * (t1 - t0));
  }

  /** Interpolation is exact for a vehicle that moves at constant velocity between the two knots around the query,
      whatever it does elsewhere. */
  lemma SegmentIsStraight(nm: Numerics, times: seq<int>, poses: seq<Pose>, query: int, u: nat,
                          start: Vec, velocity: Vec)
    requires |times| == |poses| && Sorted(times) && 1 <= u < |times| && times[u - 1] <= query < times[u]
    requires poses[u - 1].position == Travelled(start, velocity, times[u - 1])
    requires poses[u].position == Travelled(start, velocity, times[u])
    ensures var r := Interpolate(nm, times, poses, query);
      r.Some? ==> r.value.position == Travelled(start, velocity, query)
  {
    hide Slerp;
    SegmentIs(times, query, u);
    TravelledBetween(start, velocity, times[u - 1], times[u], query);
    hide Travelled, LerpVec, Ratio, Upper, Sorted;
  }

  lemma SegmentIs(times: seq<int>, query: int, u: nat)
    requires Sorted(times) && 1 <= u < |times| && times[u - 1] <= query < times[u]
    ensures Upper(times, query) == u
  {
    assert SearchSortedRight(times, query) >= u;
  }

  /** Interpolation is exact for a vehicle moving at constant velocity, ties included. */
  lemma ConstantVelocityReproduced(nm: Numerics, times: seq<int>, poses: seq<Pose>, query: int,
                                   start: Vec, velocity: Vec)
    requires |times| == |poses| >= 2 && Sorted(times) && times[0] <= query <= times[|times| - 1]
    requires forall i :: 0 <= i < |poses| ==> poses[i].position == Travelled(start, velocity, times[i])
    ensures var r := Interpolate(nm, times, poses, query);
      r.Some? ==> r.value.position == Travelled(start, velocity, query)
  {
    hide Slerp;
    var u := Upper(times, query);
    SegmentBrackets(times, query);
    TravelledBetween(start, velocity, times[u - 1], times[u], query);
    hide Travelled, LerpVec, Ratio, Upper, Sorted;
  }

  lemma TravelledBetween(start: Vec, velocity: Vec, t0: int, t1: int, query: int)
    requires t0 <= query <= t1
    ensures LerpVec(Travelled(start, velocity, t0), Travelled(start, velocity, t1), Ratio(t0, t1, query))
            == Travelled(start, velocity, query)
  {
    var r := Ratio(t0, t1, query);
    RatioScales(t0, t1, query);
    hide Ratio, Coordinate;
    CoordinateBetween(start.x, velocity.x, t0, t1, query, r);
    CoordinateBetween(start.y, velocity.y, t0, t1, query, r);
    CoordinateBetween(start.z, velocity.z, t0, t1, query, r);
  }

  lemma RatioScales(t0: int, t1: int, query: int)
    requires t0 <= query <= t1
    ensures Ratio(t0, t1, query) * (t1 as real - t0 as real) == query as real - t0 as real
  {
  }

  /** The knot whose pose a query at `times[k]` returns: the last knot of that time, except that a tie
      at the very end is answered by the last knot but one. */
  function KnotFor(times: seq<int>, query: int): nat
    requires |times| >= 2
  {
    var n := SearchSortedRight(times, query);
    if n < 1 then 0
    else if n < |times| then n - 1
    else if times[|times| - 2] == times[|times| - 1] then |times| - 2
    else |times| - 1
  }

  lemma SearchAtKnot(times: seq<int>, k: nat)
    requires Sorted(times) && k < |times|
    ensures var n := SearchSortedRight(times, times[k]);
      k < n && times[n - 1] == times[k]
  {
    var n := SearchSortedRight(times, times[k]);
    if n <= k {
      assert false;
    }
    assert times[k] <= times[n - 1] <= times[k];
  }

  lemma LerpVecEnds(p: Vec, q: Vec)
    ensures LerpVec(p, q, 0.0) == p && LerpVec(p, q, 1.0) == q && forall r :: LerpVec(p, p, r) == p
  {
  }

  /** Normalising an orientation, or taking the other quaternion of it, keeps the frame. */
  lemma FrameOfNormalized(nm: Numerics, pose: Pose, o: Quat)
    requires SqrtLaw(nm) && Normalize(nm, pose.orientation).Some?
    requires o == Normalize(nm, pose.orientation).value || o == Negate(Normalize(nm, pose.orientation).value)
    ensures FrameOf(nm, Pose(pose.position, o)) == FrameOf(nm, pose)
  {
    var a := Normalize(nm, pose.orientation).value;
    NormalizeUnit(nm, pose.orientation);
    NormalizeFixesUnit(nm, a);
    NormalizeNegative(nm, a);
    RotationOfNegative(a);
    hide Normalize, RotationMatrix, Negate, Norm2;
  }

  /** Interpolating with ratio 0 or 1 gives the position of that end of the segment, and its orientation. */
  lemma SegmentEnds(nm: Numerics, times: seq<int>, poses: seq<Pose>, query: int)
    requires Lawful(nm) && |times| == |poses| >= 2
    requires forall i :: 0 <= i < |poses| ==> poses[i].orientation != ZERO
    ensures var u := Upper(times, query);
      && (Ratio(times[u - 1], times[u], query) == 0.0 ==> IsAt(nm, times, poses, query, poses[u - 1]))
      && (Ratio(times[u - 1], times[u], query) == 1.0 ==> IsAt(nm, times, poses, query, poses[u]))
  {
    hide Slerp, SqrtLaw, TrigLaw, Norm2, Dot4, LerpVec, Normalize, Negate, Upper, Ratio, FrameOf;
    var u := Upper(times, query);
    var a, b := poses[u - 1], poses[u];
    SlerpEnds(nm, a.orientation, b.orientation);
    LerpVecEnds(a.position, b.position);
    var qa, qb := Normalize(nm, a.orientation).value, Normalize(nm, b.orientation).value;
    FrameOfNormalized(nm, a, qa);
    FrameOfNormalized(nm, b, Facing(qa, qb));
    FrameOfParts(nm, a);
    FrameOfParts(nm, b);
  }

  /** A query gives the position of `pose`, its orientation up to scale and sign, and its matrix. */
  ghost predicate IsAt(nm: Numerics, times: seq<int>, poses: seq<Pose>, query: int, pose: Pose)
    requires |times| == |poses| >= 2
  {
    var r, q, frame := Interpolate(nm, times, poses, query), Normalize(nm, pose.orientation),
                       FrameAt(nm, times, poses, query);
    && r.Some? && r.value.position == pose.position
    && q.Some? && (r.value.orientation == q.value || r.value.orientation == Negate(q.value))
    && frame.Some? && frame.value.origin == pose.position
    && QuaternionToRotationMatrix(nm, pose.orientation) == Some(frame.value.rotation)
  }

  lemma FrameOfParts(nm: Numerics, pose: Pose)
    requires SqrtLaw(nm) && pose.orientation != ZERO
    ensures FrameOf(nm, pose).Some? && FrameOf(nm, pose).value.origin == pose.position
    ensures QuaternionToRotationMatrix(nm, pose.orientation) == Some(FrameOf(nm, pose).value.rotation)
  {
    MatrixOrthogonal(nm, pose.orientation);
    hide Orthogonal;
  }

  /** A query at a knot returns that knot's position exactly, and its orientation, when its time is
      strictly separated from its neighbours'; with ties it returns the knot named by KnotFor. */
  lemma KnotReproduced(nm: Numerics, times: seq<int>, poses: seq<Pose>, k: nat)
    requires Lawful(nm) && |times| == |poses| >= 2 && Sorted(times) && k < |times|
    requires forall i :: 0 <= i < |poses| ==> poses[i].orientation != ZERO
    ensures var j := KnotFor(times, times[k]);
      j < |times| && times[j] == times[k] && IsAt(nm, times, poses, times[k], poses[j])
    ensures (k > 0 ==> times[k - 1] < times[k]) && (k < |times| - 1 ==> times[k] < times[k + 1])
            ==> KnotFor(times, times[k]) == k
  {
    hide Lawful, IsAt;
    SearchAtKnot(times, k);
    SegmentEnds(nm, times, poses, times[k]);
    var u := Upper(times, times[k]);
    if times[u - 1] < times[u] {
      RatioWithin(times[u - 1], times[u], times[u]);
    }
  }

  /** Between two knots the orientation turns at a constant rate: seen from the first knot it has covered the same
      fraction of the angle as the query has of the time, on the spherical branch. */
  lemma TurnRateConstant(nm: Numerics, times: seq<int>, poses: seq<Pose>, query: int, u: nat, a: Quat, near: Quat,
                         dot: real, theta: real)
    requires Lawful(nm) && |times| == |poses| && Sorted(times) && 1 <= u < |times|
    requires times[u - 1] <= query < times[u]
    requires forall i :: 0 <= i < |poses| ==> poses[i].orientation != ZERO
    requires Normalize(nm, poses[u - 1].orientation) == Some(a) && Normalize(nm, poses[u].orientation).Some?
    requires near == (var b := Normalize(nm, poses[u].orientation).value; if Dot4(a, b) < 0.0 then Negate(b) else b)
    requires dot == Dot4(a, near) <= 0.9995
    requires theta == nm.arccos(dot) * ((query - times[u - 1]) as real / (times[u] - times[u - 1]) as real)
    ensures Interpolate(nm, times, poses, query).Some?
    ensures Dot4(a, Interpolate(nm, times, poses, query).value.orientation) == nm.cos(theta)
  {
    SegmentIs(times, query, u);
    var ratio := Ratio(times[u - 1], times[u], query);
    assert ratio == (query - times[u - 1]) as real / (times[u] - times[u - 1]) as real;
    hide Slerp, Upper, Ratio, TrigLaw, SqrtLaw, Sorted, Normalize, Dot4, Negate;
    SlerpAngle(nm, poses[u - 1].orientation, poses[u].orientation, ratio, a, near, dot, theta);
  }

  // ----- compensation

  datatype Config = Config(required: bool, useBaseFrame: bool, extrinsic: Transform)

  datatype Reason = MissingTimestamps | NoPoseCoverage

  /** Skipped and Passed are the node's two ways of giving up; Raised stands for an exception. */
  datatype Outcome = Skipped(reason: Reason) | Passed(warning: Reason) | Compensated(points: seq<Vec>) | Raised

  function GiveUp(config: Config, reason: Reason): Outcome {
    if config.required then Skipped(reason) else Passed(reason)
  }

  /** Where the point is in the world when the vehicle is at `frame`. */
  function World(frame: Frame, extrinsic: Transform, p: Vec): Vec {
    Apply(frame.rotation, frame.origin, Apply(Rotation(extrinsic), Translation(extrinsic), p))
  }

  /** The point seen from the vehicle at `reference`, in the vehicle's or in the sensor's coordinates. */
  function Seen(reference: Frame, config: Config, w: Vec): Vec {
    var base := ApplyInverse(reference.rotation, reference.origin, w);
    if config.useBaseFrame then base
    else ApplyInverse(Rotation(config.extrinsic), Translation(config.extrinsic), base)
  }

  function MinOf(times: seq<int>): (m: int)
    requires times != []
    ensures m in times && forall t :: t in times ==> m <= t
  {
    if |times| == 1 then times[0]
    else
      var m := MinOf(times[1..]);
      assert forall t :: t in times ==> t == times[0] || t in times[1..];
      if times[0] < m then times[0] else m
  }

  function MaxOf(times: seq<int>): (m: int)
    requires times != []
    ensures m in times && forall t :: t in times ==> t <= m
  {
    if |times| == 1 then times[0]
    else
      var m := MaxOf(times[1..]);
      assert forall t :: t in times ==> t == times[0] || t in times[1..];
      if times[0] > m then times[0] else m
  }

  /** The node's run on a parsed cloud. `times` is empty when the cloud has no point timestamps. */
  function Compensate(nm: Numerics, config: Config, points: seq<Vec>, times: seq<int>, referenceTime: int,
                      trajectory: seq<int>, poses: seq<Pose>): Outcome
    requires |trajectory| == |poses|
  {
    if times == [] then GiveUp(config, MissingTimestamps)
    else
      var start := if MinOf(times) < referenceTime then MinOf(times) else referenceTime;
      var end := if MaxOf(times) > referenceTime then MaxOf(times) else referenceTime;
      if |poses| < 2 then GiveUp(config, NoPoseCoverage)
      else if start < trajectory[0] || end > trajectory[|poses| - 1] then GiveUp(config, NoPoseCoverage)
      else CompensatePoints(nm, config, points, times, referenceTime, trajectory, poses)
  }

  function CompensatePoints(nm: Numerics, config: Config, points: seq<Vec>, times: seq<int>, referenceTime: int,
                            trajectory: seq<int>, poses: seq<Pose>): Outcome
    requires |trajectory| == |poses| >= 2
  {
    var reference := FrameAt(nm, trajectory, poses, referenceTime);
    if |times| != |points| || reference.None? then Raised
    else if exists i :: 0 <= i < |times| && FrameAt(nm, trajectory, poses, times[i]).None? then Raised
    else
      Compensated(seq(|points|, i requires 0 <= i < |points| =>
        Seen(reference.value, config,
             World(FrameAt(nm, trajectory, poses, times[i]).value, config.extrinsic, points[i]))))
  }

  ghost predicate Covers(trajectory: seq<int>, t: int) {
    trajectory != [] && trajectory[0] <= t <= trajectory[|trajectory| - 1]
  }

  ghost predicate CoversAll(trajectory: seq<int>, times: seq<int>) {
    forall t :: t in times ==> Covers(trajectory, t)
  }

  /** Comparing the extreme times with the ends of the trajectory decides coverage of all of them. */
  lemma ExtremesDecide(trajectory: seq<int>, times: seq<int>, referenceTime: int)
    requires times != [] && trajectory != []
    ensures var start := if MinOf(times) < referenceTime then MinOf(times) else referenceTime;
      var end := if MaxOf(times) > referenceTime then MaxOf(times) else referenceTime;
      trajectory[0] <= start && end <= trajectory[|trajectory| - 1]
      <==> Covers(trajectory, referenceTime) && CoversAll(trajectory, times)
  {
  }

  lemma CoveredPointsCompensated(nm: Numerics, config: Config, points: seq<Vec>, times: seq<int>,
                                 referenceTime: int, trajectory: seq<int>, poses: seq<Pose>)
    requires Lawful(nm) && |trajectory| == |poses| >= 2 && Sorted(trajectory) && |times| == |points|
    requires forall i :: 0 <= i < |poses| ==> poses[i].orientation != ZERO
    requires Covers(trajectory, referenceTime) && CoversAll(trajectory, times)
    ensures CompensatePoints(nm, config, points, times, referenceTime, trajectory, poses).Compensated?
  {
    FrameExists(nm, trajectory, poses, referenceTime);
    forall i | 0 <= i < |times| ensures FrameAt(nm, trajectory, poses, times[i]).Some? {
      assert Covers(trajectory, times[i]);
      FrameExists(nm, trajectory, poses, times[i]);
    }
    hide FrameAt, Lawful, Sorted, Seen, World;
  }

  /** On a sorted trajectory without zero quaternions, and a timestamp for every point, the node never
      raises, and it compensates exactly when at least two poses cover every point's time and the
      reference time; otherwise it skips a required sample, or passes it on, with the reason. */
  lemma CompensatesIffCovered(nm: Numerics, config: Config, points: seq<Vec>, times: seq<int>, referenceTime: int,
                              trajectory: seq<int>, poses: seq<Pose>)
    requires Lawful(nm) && |trajectory| == |poses| && Sorted(trajectory) && (times == [] || |times| == |points|)
    requires forall i :: 0 <= i < |poses| ==> poses[i].orientation != ZERO
    ensures var out := Compensate(nm, config, points, times, referenceTime, trajectory, poses);
      if times == [] then out == if config.required then Skipped(MissingTimestamps) else Passed(MissingTimestamps)
      else if |poses| >= 2 && Covers(trajectory, referenceTime) && CoversAll(trajectory, times) then out.Compensated?
      else out == if config.required then Skipped(NoPoseCoverage) else Passed(NoPoseCoverage)
  {
    hide CompensatePoints, Covers, CoversAll, Lawful, Sorted;
    if times != [] && |poses| >= 2 {
      ExtremesDecide(trajectory, times, referenceTime);
      if Covers(trajectory, referenceTime) && CoversAll(trajectory, times) {
        CoveredPointsCompensated(nm, config, points, times, referenceTime, trajectory, poses);
      }
    }
  }

  // ----- what the vehicle's movement does to the cloud

  /** `q v q*` */
  function TurnedBy(q: Quat, v: Vec): Vec {
    var r := Hamilton(Hamilton(q, Quat(v.x, v.y, v.z, 0.0)), Conjugate(q));
    Vec(r.x, r.y, r.z)
  }

  /** A point given in the vehicle's coordinates, as it lies in the world when the vehicle is at `pose`. */
  function Carried(pose: Pose, v: Vec): Vec {
    Add(TurnedBy(pose.orientation, v), pose.position)
  }

  lemma ApplyCarries(q: Quat, o: Vec, v: Vec)
    requires Norm2(q) == 1.0
    ensures Apply(RotationMatrix(q), o, v) == Carried(Pose(o, q), v)
  {
    RotationIsConjugation(q, v);
    hide Hamilton, Conjugate, RotationMatrix, Times, Norm2;
  }

  /** A frame is the interpolated pose with its orientation, a unit quaternion, written as a matrix. */
  lemma FrameIsPose(nm: Numerics, times: seq<int>, poses: seq<Pose>, query: int)
    requires Lawful(nm) && |times| == |poses| >= 2 && FrameAt(nm, times, poses, query).Some?
    ensures Interpolate(nm, times, poses, query).Some?
    ensures var pose := Interpolate(nm, times, poses, query).value;
      Norm2(pose.orientation) == 1.0
      && FrameAt(nm, times, poses, query).value == Frame(RotationMatrix(pose.orientation), pose.position)
  {
    var pose := Interpolate(nm, times, poses, query).value;
    var u := Upper(times, query);
    SlerpSomeUnit(nm, poses[u - 1].orientation, poses[u].orientation, Ratio(times[u - 1], times[u], query));
    NormalizeFixesUnit(nm, pose.orientation);
    hide Slerp, Upper, Ratio, Lawful, SqrtLaw, TrigLaw, Norm2, Normalize, RotationMatrix, LerpVec;
  }

  lemma SeenKeepsDistance(reference: Frame, config: Config, v: Vec, w: Vec)
    requires Orthogonal(reference.rotation) && Orthogonal(Rotation(config.extrinsic))
    ensures Distance2(Seen(reference, config, v), Seen(reference, config, w)) == Distance2(v, w)
  {
    hide OrthonormalRows, Distance2, ApplyInverse, Rotation, Translation, Orthogonal;
    OrthogonalIffOrthonormal(reference.rotation);
    OrthogonalIffOrthonormal(Rotation(config.extrinsic));
    ApplyInverseKeepsDistance(reference.rotation, reference.origin, v, w);
    ApplyInverseKeepsDistance(Rotation(config.extrinsic), Translation(config.extrinsic),
                              ApplyInverse(reference.rotation, reference.origin, v),
                              ApplyInverse(reference.rotation, reference.origin, w));
  }

  lemma WorldKeepsDistance(frame: Frame, extrinsic: Transform, p: Vec, q: Vec)
    requires Orthogonal(frame.rotation) && Orthogonal(Rotation(extrinsic))
    ensures Distance2(World(frame, extrinsic, p), World(frame, extrinsic, q)) == Distance2(p, q)
  {
    hide OrthonormalRows, Distance2, Apply, Rotation, Translation, Orthogonal;
    OrthogonalIffOrthonormal(frame.rotation);
    OrthogonalIffOrthonormal(Rotation(extrinsic));
    var r, t := Rotation(extrinsic), Translation(extrinsic);
    ApplyKeepsDistance(r, t, p, q);
    ApplyKeepsDistance(frame.rotation, frame.origin, Apply(r, t, p), Apply(r, t, q));
  }

  /** The position in the world of point `i` of a cloud: carried by the vehicle's pose at the point's own time. */
  ghost function WorldOf(nm: Numerics, config: Config, points: seq<Vec>, times: seq<int>,
                         trajectory: seq<int>, poses: seq<Pose>, i: nat): Vec
    requires |trajectory| == |poses| >= 2 && i < |points| == |times|
    requires Interpolate(nm, trajectory, poses, times[i]).Some?
  {
    Carried(Interpolate(nm, trajectory, poses, times[i]).value, TransformPoint(points[i], config.extrinsic))
  }

  /** A compensated point in the vehicle's coordinates. */
  function InBase(config: Config, p: Vec): Vec {
    if config.useBaseFrame then p else TransformPoint(p, config.extrinsic)
  }

  lemma WorldIsCarried(nm: Numerics, times: seq<int>, poses: seq<Pose>, query: int, extrinsic: Transform, p: Vec)
    requires Lawful(nm) && |times| == |poses| >= 2 && FrameAt(nm, times, poses, query).Some?
    ensures Interpolate(nm, times, poses, query).Some?
    ensures World(FrameAt(nm, times, poses, query).value, extrinsic, p)
            == Carried(Interpolate(nm, times, poses, query).value, TransformPoint(p, extrinsic))
  {
    FrameIsPose(nm, times, poses, query);
    var pose := Interpolate(nm, times, poses, query).value;
    TransformIsApply(p, extrinsic);
    ApplyCarries(pose.orientation, pose.position, TransformPoint(p, extrinsic));
    hide Interpolate, FrameAt, Lawful, TransformPoint, Rotation, Translation, RotationMatrix, Apply, Norm2, Carried;
  }

  lemma SeenFromReference(nm: Numerics, times: seq<int>, poses: seq<Pose>, query: int, config: Config, w: Vec)
    requires Lawful(nm) && |times| == |poses| >= 2 && FrameAt(nm, times, poses, query).Some?
    requires Orthogonal(Rotation(config.extrinsic))
    ensures Interpolate(nm, times, poses, query).Some?
    ensures Carried(Interpolate(nm, times, poses, query).value,
                    InBase(config, Seen(FrameAt(nm, times, poses, query).value, config, w))) == w
  {
    FrameIsPose(nm, times, poses, query);
    var pose, frame := Interpolate(nm, times, poses, query).value, FrameAt(nm, times, poses, query).value;
    var base := ApplyInverse(frame.rotation, frame.origin, w);
    RotationOrthogonal(pose.orientation);
    OrthogonalIffOrthonormal(frame.rotation);
    OrthogonalIffOrthonormal(Rotation(config.extrinsic));
    InverseRoundTrip(frame.rotation, frame.origin, w);
    InverseRoundTrip(Rotation(config.extrinsic), Translation(config.extrinsic), base);
    TransformIsApply(Seen(frame, config, w), config.extrinsic);
    ApplyCarries(pose.orientation, pose.position, base);
    hide Interpolate, FrameAt, Lawful, TransformPoint, Rotation, Translation, RotationMatrix, Apply, ApplyInverse,
      Norm2, Carried, Orthogonal, OrthonormalRows;
  }

  /** Compensation undoes the vehicle's movement: each output point, carried by the pose the vehicle has at the
      reference time, lies where the input point lay when carried by the pose at its own time. */
  lemma CompensationCarries(nm: Numerics, config: Config, points: seq<Vec>, times: seq<int>, referenceTime: int,
                            trajectory: seq<int>, poses: seq<Pose>, i: nat)
    requires Lawful(nm) && |trajectory| == |poses| && Orthogonal(Rotation(config.extrinsic)) && i < |points|
    ensures var r := Compensate(nm, config, points, times, referenceTime, trajectory, poses);
      r.Compensated? ==> (
          && |r.points| == |points| == |times| && |poses| >= 2
          && Interpolate(nm, trajectory, poses, referenceTime).Some?
          && Interpolate(nm, trajectory, poses, times[i]).Some?
          && Carried(Interpolate(nm, trajectory, poses, referenceTime).value, InBase(config, r.points[i]))
             == WorldOf(nm, config, points, times, trajectory, poses, i))
  {
    hide FrameAt, Seen, World, Orthogonal, InBase, Carried, Interpolate, Lawful;
    if Compensate(nm, config, points, times, referenceTime, trajectory, poses).Compensated? {
      WorldIsCarried(nm, trajectory, poses, times[i], config.extrinsic, points[i]);
      SeenFromReference(nm, trajectory, poses, referenceTime, config,
                        WorldOf(nm, config, points, times, trajectory, poses, i));
    }
  }

  // ----- a vehicle moving at constant velocity

  lemma TimesAdd(m: Mat, u: Vec, v: Vec)
    ensures Times(m, Add(u, v)) == Add(Times(m, u), Times(m, v))
  {
  }

  /** Two frames of one rotation differ by the way between their origins. */
  lemma ShiftBetween(r: Mat, o: Vec, p: Vec, b: Vec, x: Vec)
    requires OrthonormalRows(Transpose(r)) && Apply(r, o, b) == Apply(r, p, x)
    ensures b == Add(x, Times(Transpose(r), Sub(p, o)))
  {
    ApplyRoundTrip(r, o, b);
    TransposeUndoes(r, x);
    TimesAdd(Transpose(r), Times(r, x), Sub(p, o));
    assert Sub(Apply(r, p, x), o) == Add(Times(r, x), Sub(p, o)) by {
      hide Times;
    }
    hide Times, Transpose, OrthonormalRows;
  }

  /** `velocity * (t - reference)` */
  function Way(velocity: Vec, reference: int, t: int): Vec {
    Vec(velocity.x * (t - reference) as real, velocity.y * (t - reference) as real,
        velocity.z * (t - reference) as real)
  }

  lemma TravelledWay(start: Vec, velocity: Vec, reference: int, t: int)
    ensures Sub(Travelled(start, velocity, t), Travelled(start, velocity, reference)) == Way(velocity, reference, t)
  {
    CoordinateWay(start.x, velocity.x, reference, t);
    CoordinateWay(start.y, velocity.y, reference, t);
    CoordinateWay(start.z, velocity.z, reference, t);
  }

  lemma CoordinateWay(s: real, v: real, reference: int, t: int)
    ensures Coordinate(s, v, t) - Coordinate(s, v, reference) == v * (t - reference) as real
  {
    assert (t - reference) as real == t as real - reference as real;
  }

  /** All poses have the orientation `q`, written as either of its quaternions, and lie on one straight course. */
  ghost predicate Straight(times: seq<int>, poses: seq<Pose>, start: Vec, velocity: Vec, q: Quat) {
    |times| == |poses| && forall k :: 0 <= k < |poses| ==>
      && poses[k].position == Travelled(start, velocity, times[k])
      && (poses[k].orientation == q || poses[k].orientation == Negate(q))
  }

  lemma StraightPose(nm: Numerics, times: seq<int>, poses: seq<Pose>, query: int, start: Vec, velocity: Vec, q: Quat)
    requires Lawful(nm) && |times| == |poses| >= 2 && Sorted(times) && times[0] <= query <= times[|times| - 1]
    requires Straight(times, poses, start, velocity, q) && q != ZERO
    ensures Interpolate(nm, times, poses, query).Some? && QuaternionToRotationMatrix(nm, q).Some?
    ensures var pose := Interpolate(nm, times, poses, query).value;
      && pose.position == Travelled(start, velocity, query) && Norm2(pose.orientation) == 1.0
      && RotationMatrix(pose.orientation) == QuaternionToRotationMatrix(nm, q).value
  {
    ConstantVelocityReproduced(nm, times, poses, query, start, velocity);
    var u := Upper(times, query);
    var a, b := poses[u - 1].orientation, poses[u].orientation;
    NegateTwice(q);
    NormalizeUnit(nm, q);
    NormalizeNegative(nm, q);
    NormalizeUnit(nm, a);
    RotationOfNegative(Normalize(nm, q).value);
    SlerpEqual(nm, a, b, Ratio(times[u - 1], times[u], query));
    hide Slerp, Upper, Ratio, Norm2, Dot4, Normalize, Negate, LerpVec, Travelled, RotationMatrix, Sorted;
  }

  /** For a vehicle of constant orientation moving at constant velocity each point is shifted by the way between
      the reference time and its own time, seen from the vehicle. */
  lemma ConstantVelocityShift(nm: Numerics, config: Config, points: seq<Vec>, times: seq<int>, referenceTime: int,
                              trajectory: seq<int>, poses: seq<Pose>, start: Vec, velocity: Vec, q: Quat, i: nat)
    requires Lawful(nm) && |trajectory| == |poses| && Sorted(trajectory) && Orthogonal(Rotation(config.extrinsic))
    requires Straight(trajectory, poses, start, velocity, q) && q != ZERO && i < |points|
    ensures QuaternionToRotationMatrix(nm, q).Some?
    ensures var r := Compensate(nm, config, points, times, referenceTime, trajectory, poses);
      r.Compensated? ==>
        && |r.points| == |points| == |times|
        && InBase(config, r.points[i])
           == Add(TransformPoint(points[i], config.extrinsic),
                  Times(Transpose(QuaternionToRotationMatrix(nm, q).value), Way(velocity, referenceTime, times[i])))
  {
    LawfulSqrt(nm);
    MatrixOrthogonal(nm, q);
    var r := Compensate(nm, config, points, times, referenceTime, trajectory, poses);
    if r.Compensated? {
      ExtremesDecide(trajectory, times, referenceTime);
      CompensationCarries(nm, config, points, times, referenceTime, trajectory, poses, i);
      assert Covers(trajectory, referenceTime) && Covers(trajectory, times[i]);
      hide Compensate, Lawful, Sorted, Straight, Interpolate, InBase;
      StraightPose(nm, trajectory, poses, referenceTime, start, velocity, q);
      StraightPose(nm, trajectory, poses, times[i], start, velocity, q);
      var m := QuaternionToRotationMatrix(nm, q).value;
      var here, there := Interpolate(nm, trajectory, poses, referenceTime).value,
                         Interpolate(nm, trajectory, poses, times[i]).value;
      OrthogonalIffOrthonormal(m);
      ApplyCarries(here.orientation, here.position, InBase(config, r.points[i]));
      ApplyCarries(there.orientation, there.position, TransformPoint(points[i], config.extrinsic));
      ShiftBetween(m, here.position, there.position, InBase(config, r.points[i]),
                   TransformPoint(points[i], config.extrinsic));
      TravelledWay(start, velocity, referenceTime, times[i]);
      hide Apply, Carried, TransformPoint, Times, Transpose, Travelled, Way, Norm2, Orthogonal, OrthonormalRows,
        QuaternionToRotationMatrix, RotationMatrix;
    }
  }

  // ----- undistorted clouds

  /** The compensated cloud is an undistorted picture of the scene: any two points of it, whatever their
      timestamps, are as far apart as the places they were in; hence points sharing a timestamp keep
      their distance. */
  lemma CompensationIsRigid(nm: Numerics, config: Config, points: seq<Vec>, times: seq<int>, referenceTime: int,
                            trajectory: seq<int>, poses: seq<Pose>, i: nat, j: nat)
    requires Lawful(nm) && |trajectory| == |poses| && Orthogonal(Rotation(config.extrinsic))
    requires i < |points| && j < |points|
    ensures var r := Compensate(nm, config, points, times, referenceTime, trajectory, poses);
      r.Compensated? ==> (
          && |r.points| == |points| == |times| && |poses| >= 2
          && Interpolate(nm, trajectory, poses, times[i]).Some? && Interpolate(nm, trajectory, poses, times[j]).Some?
          && Distance2(r.points[i], r.points[j])
             == Distance2(WorldOf(nm, config, points, times, trajectory, poses, i),
                          WorldOf(nm, config, points, times, trajectory, poses, j))
          && (times[i] == times[j] ==> Distance2(r.points[i], r.points[j]) == Distance2(points[i], points[j])))
  {
    hide FrameAt, Distance2, Seen, World, Orthogonal, Interpolate, Carried, Lawful, TransformPoint;
    if Compensate(nm, config, points, times, referenceTime, trajectory, poses).Compensated? {
      LawfulSqrt(nm);
      FrameOrthogonal(nm, trajectory, poses, referenceTime);
      FrameOrthogonal(nm, trajectory, poses, times[i]);
      var reference := FrameAt(nm, trajectory, poses, referenceTime).value;
      var frame := FrameAt(nm, trajectory, poses, times[i]).value;
      WorldIsCarried(nm, trajectory, poses, times[i], config.extrinsic, points[i]);
      WorldIsCarried(nm, trajectory, poses, times[j], config.extrinsic, points[j]);
      SeenKeepsDistance(reference, config, WorldOf(nm, config, points, times, trajectory, poses, i),
                        WorldOf(nm, config, points, times, trajectory, poses, j));
      WorldKeepsDistance(frame, config.extrinsic, points[i], points[j]);
    }
  }

  lemma LawfulSqrt(nm: Numerics)
    requires Lawful(nm)
    ensures SqrtLaw(nm)
  {
  }

  /** What a point looks like when the vehicle has not moved between its time and the reference time. */
  function Unmoved(config: Config, p: Vec): Vec {
    if config.useBaseFrame then TransformPoint(p, config.extrinsic) else p
  }

  lemma SeenFromSameFrame(frame: Frame, config: Config, p: Vec)
    requires Orthogonal(frame.rotation) && Orthogonal(Rotation(config.extrinsic))
    ensures Seen(frame, config, World(frame, config.extrinsic, p)) == Unmoved(config, p)
  {
    hide OrthonormalRows, Apply, ApplyInverse, Rotation, Translation, TransformPoint, Orthogonal;
    OrthogonalIffOrthonormal(frame.rotation);
    OrthogonalIffOrthonormal(Rotation(config.extrinsic));
    var r, t := Rotation(config.extrinsic), Translation(config.extrinsic);
    ApplyRoundTrip(frame.rotation, frame.origin, Apply(r, t, p));
    ApplyRoundTrip(r, t, p);
    TransformIsApply(p, config.extrinsic);
  }

  /** A point stamped with the reference time does not move, whatever the trajectory. */
  lemma ReferencePointUnmoved(nm: Numerics, config: Config, points: seq<Vec>, times: seq<int>, referenceTime: int,
                              trajectory: seq<int>, poses: seq<Pose>, i: nat)
    requires SqrtLaw(nm) && |trajectory| == |poses| && Orthogonal(Rotation(config.extrinsic))
    requires i < |points| && i < |times| && times[i] == referenceTime
    ensures var r := Compensate(nm, config, points, times, referenceTime, trajectory, poses);
      r.Compensated? ==> |r.points| == |points| && r.points[i] == Unmoved(config, points[i])
  {
    hide FrameAt, Seen, World, Orthogonal, Unmoved;
    if Compensate(nm, config, points, times, referenceTime, trajectory, poses).Compensated? {
      FrameOrthogonal(nm, trajectory, poses, referenceTime);
      SeenFromSameFrame(FrameAt(nm, trajectory, poses, referenceTime).value, config, points[i]);
    }
  }

  ghost predicate SamePose(p: Pose, q: Pose) {
    p.position == q.position && (p.orientation == q.orientation || p.orientation == Negate(q.orientation))
  }

  /** All poses are the same place and the same orientation (written as either of its quaternions). */
  ghost predicate Stationary(poses: seq<Pose>, pose: Pose) {
    forall i :: 0 <= i < |poses| ==> SamePose(poses[i], pose)
  }

  lemma StationaryFrame(nm: Numerics, times: seq<int>, poses: seq<Pose>, query: int, pose: Pose)
    requires SqrtLaw(nm) && |times| == |poses| >= 2 && Stationary(poses, pose) && pose.orientation != ZERO
    ensures FrameAt(nm, times, poses, query) == FrameOf(nm, pose)
  {
    hide Slerp, TrigLaw, Norm2, Dot4, LerpVec, Normalize, Negate, Upper, Ratio, FrameOf;
    var u := Upper(times, query);
    var a, b := poses[u - 1], poses[u];
    var ratio := Ratio(times[u - 1], times[u], query);
    NegateTwice(pose.orientation);
    NormalizeUnit(nm, pose.orientation);
    NormalizeNegative(nm, pose.orientation);
    NormalizeUnit(nm, a.orientation);
    SlerpEqual(nm, a.orientation, b.orientation, ratio);
    LerpVecEnds(a.position, b.position);
    assert LerpVec(a.position, a.position, ratio) == a.position;
    hide SqrtLaw;
    FrameOfNormalized(nm, pose, Normalize(nm, a.orientation).value);
  }

  /** For a vehicle that stands still, base-frame output is exactly the plain transform of the cloud to
      the base frame, and sensor-frame output is the input cloud. */
  lemma StandingStill(nm: Numerics, config: Config, points: seq<Vec>, times: seq<int>, referenceTime: int,
                      trajectory: seq<int>, poses: seq<Pose>, pose: Pose)
    requires SqrtLaw(nm) && |trajectory| == |poses| && Orthogonal(Rotation(config.extrinsic))
    requires Stationary(poses, pose) && pose.orientation != ZERO
    ensures var r := Compensate(nm, config, points, times, referenceTime, trajectory, poses);
      r.Compensated? ==>
        r.points == if config.useBaseFrame then TransformPoints(points, config.extrinsic) else points
  {
    hide FrameAt, FrameOf, Seen, World, Orthogonal, TransformPoint, Stationary;
    var r := Compensate(nm, config, points, times, referenceTime, trajectory, poses);
    if r.Compensated? {
      StationaryFrame(nm, trajectory, poses, referenceTime, pose);
      FrameOrthogonal(nm, trajectory, poses, referenceTime);
      forall i | 0 <= i < |points| ensures r.points[i] == Unmoved(config, points[i]) {
        StationaryFrame(nm, trajectory, poses, times[i], pose);
        SeenFromSameFrame(FrameOf(nm, pose).value, config, points[i]);
      }
    }
  }
}
