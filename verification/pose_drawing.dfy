/**
 * How the pose client draws a result: it walks the `poses` object in its
 * stored order, reads each pose's points in their stored order into a
 * 14-slot array whose unused slots stay at (0, 0), draws a circle at every
 * point that is not (0, 0), then a line for every limb whose two ends are
 * both not (0, 0). The keys themselves are never looked at.
 */
module PoseDrawing {
  import opened Wrappers
  import opened Json
  import opened Vision
  import opened PoseJson

  /** A drawn position; (0, 0) stands for a point the model did not find. */
  datatype Point = Point(x: real, y: real)

  const ORIGIN: Point := Point(0.0, 0.0)

  /** Slots in `pose_points`. */
  const MAX_POINTS: nat := 14

  /** `limb_seq`: the pairs of slots joined by a line. */
  const LIMBS: seq<(nat, nat)> :=
    [(0, 1), (1, 2), (2, 3), (3, 4), (1, 5), (5, 6), (6, 7),
     (1, 8), (8, 9), (9, 10), (1, 11), (11, 12), (12, 13)]

  /** Every limb joins two of the 14 slots. */
  lemma LimbsWithinSlots()
    ensures |LIMBS| == 13
    ensures forall k :: 0 <= k < |LIMBS| ==> LIMBS[k].0 < MAX_POINTS && LIMBS[k].1 < MAX_POINTS
  {
  }

  datatype Drawing =
    | Circle(center: Point)
    | Line(limb: nat, from: Point, to: Point)

  /** A point's `x` and `y` as doubles; its `type` must be an integer too, though it is unused. */
  function ReadPoint(v: Json): Option<Point>
  {
    if !v.Object? then None
    else
      var x, y, t := Get(v.members, "x"), Get(v.members, "y"), Get(v.members, "type");
      if x.Some? && x.value.Number? && y.Some? && y.value.Number? && t.Some? && t.value.Int?
      then Some(Point(x.value.r, y.value.r))
      else None
  }

  /** The points of a pose object in stored order, or None where a read throws. */
  function ReadPoints(ms: seq<Member>): (r: Option<seq<Point>>)
    ensures r.Some? ==> |r.value| == |ms|
  {
    if ms == [] then Some([])
    else match ReadPoints(ms[..|ms| - 1])
      case None => None
      case Some(ps) =>
        match ReadPoint(ms[|ms| - 1].value)
        case None => None
        case Some(p) => Some(ps + [p])
  }

  /** The 14 slots after the points are stored from slot 0; the rest stay at (0, 0). */
  function Slots(points: seq<Point>): (slots: seq<Point>)
    requires |points| <= MAX_POINTS
    ensures |slots| == MAX_POINTS
    ensures forall j :: 0 <= j < |points| ==> slots[j] == points[j]
    ensures forall j :: |points| <= j < MAX_POINTS ==> slots[j] == ORIGIN
  {
    seq(MAX_POINTS, j requires 0 <= j < MAX_POINTS => if j < |points| then points[j] else ORIGIN)
  }

  /** A circle per point that is not (0, 0), in order. */
  function Circles(points: seq<Point>): seq<Drawing>
  {
    if points == [] then []
    else
      var last := points[|points| - 1];
      Circles(points[..|points| - 1]) + (if last != ORIGIN then [Circle(last)] else [])
  }

  /** The lines of the first `k` limbs whose ends are both not (0, 0), in limb order. */
  function Lines(slots: seq<Point>, k: nat): seq<Drawing>
    requires |slots| == MAX_POINTS && k <= |LIMBS|
  {
    if k == 0 then []
    else
      var a, b := slots[LIMBS[k - 1].0], slots[LIMBS[k - 1].1];
      Lines(slots, k - 1) + (if a != ORIGIN && b != ORIGIN then [Line(k - 1, a, b)] else [])
  }

  /** The circles, then the lines, for the points of one pose. */
  function PoseExpected(points: seq<Point>): seq<Drawing>
    requires |points| <= MAX_POINTS
  {
    Circles(points) + Lines(Slots(points), |LIMBS|)
  }

  /** What one pose draws: None where a read throws or a 15th point overruns the slots. */
  function PoseDrawings(ms: seq<Member>): Option<seq<Drawing>>
  {
    if |ms| > MAX_POINTS then None
    else match ReadPoints(ms)
      case None => None
      case Some(points) => Some(PoseExpected(points))
  }

  /** What the poses of a `poses` object draw, one after the other. */
  function PosesDrawings(ps: seq<Member>): Option<seq<Drawing>>
  {
    if ps == [] then Some([])
    else match PosesDrawings(ps[..|ps| - 1])
      case None => None
      case Some(ds) =>
        var v := ps[|ps| - 1].value;
        if !v.Object? then None
        else match PoseDrawings(v.members)
          case None => None
          case Some(d) => Some(ds + d)
  }

  /** What `show_result` draws for one result, or None where it throws. */
  function ResultDrawings(j: Json): Option<seq<Drawing>>
  {
    if !j.Object? then None
    else match Get(j.members, "poses")
      case Some(Object(ps)) => PosesDrawings(ps)
      case _ => None
  }

  /** A circle is drawn at exactly the points that are not (0, 0). */
  lemma {:induction false} CirclesExactly(points: seq<Point>, c: Point)
    ensures Circle(c) in Circles(points) <==> c in points && c != ORIGIN
  {
    if points != [] {
      var init := points[..|points| - 1];
      CirclesExactly(init, c);
      assert points == init + [points[|points| - 1]];
    }
  }

  /** Only circles are drawn for the points: no line. */
  lemma {:induction false} CirclesOnly(points: seq<Point>)
    ensures forall d :: d in Circles(points) ==> d.Circle?
  {
    if points != [] {
      CirclesOnly(points[..|points| - 1]);
    }
  }

  /** Limb k gets a line exactly when both its ends are not (0, 0), and the line joins those ends. */
  lemma {:induction false} LinesExactly(slots: seq<Point>, k: nat, limb: nat)
    requires |slots| == MAX_POINTS && k <= |LIMBS|
    ensures limb < k ==>
              ((exists d :: d in Lines(slots, k) && d.Line? && d.limb == limb) <==>
               slots[LIMBS[limb].0] != ORIGIN && slots[LIMBS[limb].1] != ORIGIN)
    ensures forall d :: d in Lines(slots, k) ==>
              d.Line? && d.limb < k && d == Line(d.limb, slots[LIMBS[d.limb].0], slots[LIMBS[d.limb].1])
  {
    if k > 0 {
      LinesExactly(slots, k - 1, limb);
      var a, b := slots[LIMBS[k - 1].0], slots[LIMBS[k - 1].1];
      if limb == k - 1 && a != ORIGIN && b != ORIGIN {
        assert Line(k - 1, a, b) in Lines(slots, k);
      }
    }
  }

  /** A point the pose does not have sits at (0, 0), so no limb ending there is drawn. */
  lemma MissingPointNoLine(points: seq<Point>, limb: nat)
    requires |points| <= MAX_POINTS && limb < |LIMBS|
    requires LIMBS[limb].0 >= |points| || LIMBS[limb].1 >= |points|
    ensures forall d :: d in Lines(Slots(points), |LIMBS|) ==> d.Line? && d.limb != limb
  {
    LinesExactly(Slots(points), |LIMBS|, limb);
  }

  /** Once a point cannot be read, no longer run of points can be. */
  lemma {:induction false} ReadPointsPrefix(ms: seq<Member>, k: nat)
    requires k <= |ms| && ReadPoints(ms[..k]).None?
    ensures ReadPoints(ms).None?
  {
    if k < |ms| {
      assert ms[..|ms| - 1][..k] == ms[..k];
      ReadPointsPrefix(ms[..|ms| - 1], k);
    } else {
      assert ms[..k] == ms;
    }
  }

  /** Once a pose cannot be drawn, no longer run of poses can be. */
  lemma {:induction false} PosesDrawingsPrefix(ps: seq<Member>, k: nat)
    requires k <= |ps| && PosesDrawings(ps[..k]).None?
    ensures PosesDrawings(ps).None?
  {
    if k < |ps| {
      assert ps[..|ps| - 1][..k] == ps[..k];
      PosesDrawingsPrefix(ps[..|ps| - 1], k);
    } else {
      assert ps[..k] == ps;
    }
  }

  /** One more point read: the run grows by it, or fails with it. */
  lemma ReadPointsNext(ms: seq<Member>, k: nat)
    requires k < |ms|
    ensures ReadPoints(ms[..k]).Some? && ReadPoint(ms[k].value).Some? ==>
              ReadPoints(ms[..k + 1]) == Some(ReadPoints(ms[..k]).value + [ReadPoint(ms[k].value).value])
    ensures ReadPoints(ms[..k]).None? || ReadPoint(ms[k].value).None? ==> ReadPoints(ms[..k + 1]).None?
  {
    assert ms[..k + 1][..k] == ms[..k];
  }

  /** Storing the next point fills the next slot. */
  lemma SlotsNext(points: seq<Point>, p: Point)
    requires |points| < MAX_POINTS
    ensures Slots(points + [p]) == Slots(points)[|points| := p]
  {
  }

  /** Circling the next point, unless it is (0, 0). */
  lemma CirclesNext(points: seq<Point>, p: Point)
    ensures Circles(points + [p]) == Circles(points) + (if p != ORIGIN then [Circle(p)] else [])
  {
    assert (points + [p])[..|points|] == points;
  }

  /** The limb loop of `show_result`: a line for every limb whose ends are both set. */
  method JoinLimbs(posePoints: array<Point>) returns (lines: seq<Drawing>)
    requires posePoints.Length == MAX_POINTS
    ensures lines == Lines(posePoints[..], |LIMBS|)
  {
    lines := [];
    for l := 0 to |LIMBS|
      invariant lines == Lines(posePoints[..], l)
    {
      var a, b := posePoints[LIMBS[l].0], posePoints[LIMBS[l].1];
      if a != ORIGIN && b != ORIGIN {
        lines := lines + [Line(l, a, b)];
      }
    }
  }

  /**
   * The inner loops of `show_result` for one pose: store each point read
   * in the next slot, circling it unless it is (0, 0), then join the limbs.
   */
  method DrawPose(ms: seq<Member>) returns (r: Option<seq<Drawing>>)
    ensures r == PoseDrawings(ms)
  {
    var posePoints := new Point[MAX_POINTS](_ => ORIGIN);
    var drawings: seq<Drawing> := [];
    ghost var points: seq<Point> := [];
    assert posePoints[..] == Slots([]);
    var i := 0;
    for k := 0 to |ms|
      invariant i == k == |points| <= MAX_POINTS
      invariant ReadPoints(ms[..k]) == Some(points)
      invariant posePoints[..] == Slots(points)
      invariant drawings == Circles(points)
    {
      var point := ReadPoint(ms[k].value);
      ReadPointsNext(ms, k);
      if point.None? {
        ReadPointsPrefix(ms, k + 1);
        return None;
      }
      if i >= MAX_POINTS {
        return None;
      }
      SlotsNext(points, point.value);
      CirclesNext(points, point.value);
      posePoints[i] := point.value;
      i := i + 1;
      if point.value != ORIGIN {
        drawings := drawings + [Circle(point.value)];
      }
      points := points + [point.value];
    }
    assert ms[..|ms|] == ms;
    var lines := JoinLimbs(posePoints);
    return Some(drawings + lines);
  }

  /** The outer loop of `show_result`: every pose of `poses` in stored order. */
  method DrawResult(j: Json) returns (r: Option<seq<Drawing>>)
    ensures r == ResultDrawings(j)
  {
    if !j.Object? {
      return None;
    }
    var poses := Get(j.members, "poses");
    if !(poses.Some? && poses.value.Object?) {
      return None;
    }
    var ps := poses.value.members;
    var drawings: seq<Drawing> := [];
    for k := 0 to |ps|
      invariant PosesDrawings(ps[..k]) == Some(drawings)
    {
      assert ps[..k + 1][..k] == ps[..k];
      var v := ps[k].value;
      if !v.Object? {
        PosesDrawingsPrefix(ps, k + 1);
        return None;
      }
      var d := DrawPose(v.members);
      if d.None? {
        PosesDrawingsPrefix(ps, k + 1);
        return None;
      }
      drawings := drawings + d.value;
    }
    assert ps[..|ps|] == ps;
    return Some(drawings);
  }

  /** Where a pose point is drawn. */
  function PointOf(p: PosePoint): Point
  {
    Point(p.x, p.y)
  }

  /** The points of a pose as the client stores them. */
  function PointsOf(pose: seq<PosePoint>): (ps: seq<Point>)
    ensures |ps| == |pose|
  {
    seq(|pose|, i requires 0 <= i < |pose| => PointOf(pose[i]))
  }

  /** What a result draws, pose after pose, when every pose fits in the slots. */
  function ExpectedDrawings(poses: seq<seq<PosePoint>>): seq<Drawing>
    requires forall i :: 0 <= i < |poses| ==> |poses[i]| <= MAX_POINTS
  {
    if poses == [] then []
    else
      var last := PointsOf(poses[|poses| - 1]);
      ExpectedDrawings(poses[..|poses| - 1]) + PoseExpected(last)
  }

  /** A point object reads back as the point's position. */
  lemma ReadPointJson(p: PosePoint)
    ensures ReadPoint(PointJson(p)) == Some(PointOf(p))
  {
    var fs := PointJson(p).members;
    assert fs[0].key[0] == 't' && fs[1].key[0] == 'x' && fs[2].key[0] == 'y';
    GetMember(fs, 0);
    GetMember(fs, 1);
    GetMember(fs, 2);
  }

  /** The points of a pose object read back in order. */
  lemma {:induction false} ReadPointMembers(pose: seq<PosePoint>)
    ensures ReadPoints(PointMembers(pose)) == Some(PointsOf(pose))
  {
    if pose != [] {
      var n := |pose|;
      var init, ms := pose[..n - 1], PointMembers(pose);
      assert ReadPoints(ms[..n - 1]) == Some(PointsOf(init)) by {
        ReadPointMembers(init);
        assert ms[..n - 1] == PointMembers(init);
      }
      assert ReadPoint(ms[n - 1].value) == Some(PointOf(pose[n - 1])) by {
        assert ms[n - 1].value == PointJson(pose[n - 1]);
        ReadPointJson(pose[n - 1]);
      }
      assert PointsOf(pose) == PointsOf(init) + [PointOf(pose[n - 1])];
    }
  }

  /** The poses of a `poses` object draw, in order, what their points call for. */
  lemma {:induction false} PosesDrawingsOfPoseMembers(poses: seq<seq<PosePoint>>)
    requires forall i :: 0 <= i < |poses| ==> |poses[i]| <= MAX_POINTS
    ensures PosesDrawings(PoseMembers(poses)) == Some(ExpectedDrawings(poses))
  {
    if poses != [] {
      var n := |poses|;
      var init := poses[..n - 1];
      var ms := PoseMembers(poses);
      PosesDrawingsOfPoseMembers(init);
      assert ms[..n - 1] == PoseMembers(init);
      assert ms[n - 1].value == Object(PointMembers(poses[n - 1]));
      ReadPointMembers(poses[n - 1]);
      assert PoseDrawings(PointMembers(poses[n - 1])) == Some(PoseExpected(PointsOf(poses[n - 1])));
    }
  }

  /** The client draws for a result exactly what the server's object of it calls for. */
  lemma ResultDrawingsOfPoseObject(res: OpenPoseResult)
    requires forall i :: 0 <= i < |res.poses| ==> |res.poses[i]| <= MAX_POINTS
    ensures ResultDrawings(PoseObject(res)) == Some(ExpectedDrawings(res.poses))
  {
    PoseHeader(res);
    PosesDrawingsOfPoseMembers(res.poses);
  }

  /** A pose with more points than slots is never drawn. */
  lemma OverlongPoseNotDrawn(ms: seq<Member>)
    requires |ms| > MAX_POINTS
    ensures PoseDrawings(ms).None?
  {
  }
}
