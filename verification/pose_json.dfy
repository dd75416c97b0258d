/**
 * The JSON object the pose-estimation server and the single-shot pose tool
 * build from a result: `height`, `width`, `num`, then `poses`, an object
 * holding pose k (counting from 1) under `to_string(k)`; each pose is an
 * object holding its j-th point (counting from 0) under `to_string(j)`,
 * and each point is `{"type", "x", "y"}`.
 */
module PoseJson {
  import opened Wrappers
  import opened Json
  import opened Vision

  /** One keypoint: its body-part number as an integer, its position as floating point. */
  function PointJson(p: PosePoint): Json
  {
    Object([Member("type", Int(p.part)), Member("x", Number(p.x)), Member("y", Number(p.y))])
  }

  /** A keypoint object holds `type`, `x` and `y` and no other field. */
  lemma PointFields(p: PosePoint, k: string)
    ensures Get(PointJson(p).members, "type") == Some(Int(p.part))
    ensures Get(PointJson(p).members, "x") == Some(Number(p.x))
    ensures Get(PointJson(p).members, "y") == Some(Number(p.y))
    ensures k != "type" && k != "x" && k != "y" ==> Get(PointJson(p).members, k).None?
  {
    var fs := PointJson(p).members;
    assert fs[0].key[0] == 't' && fs[1].key[0] == 'x' && fs[2].key[0] == 'y';
    GetMember(fs, 0);
    GetMember(fs, 1);
    GetMember(fs, 2);
    GetFinds(fs, k);
  }

  /** The points of one pose, numbered from 0. */
  function PointMembers(pose: seq<PosePoint>): (ms: seq<Member>)
    ensures |ms| == |pose| && Numbered(ms, 0)
  {
    seq(|pose|, i requires 0 <= i < |pose| => Member(NatToString(i), PointJson(pose[i])))
  }

  /** The poses of a result, numbered from 1. */
  function PoseMembers(poses: seq<seq<PosePoint>>): (ms: seq<Member>)
    ensures |ms| == |poses| && Numbered(ms, 1)
  {
    seq(|poses|, i requires 0 <= i < |poses| => Member(NatToString(i + 1), Object(PointMembers(poses[i]))))
  }

  function PoseObject(res: OpenPoseResult): Json
  {
    Object([Member("height", Int(res.height)), Member("width", Int(res.width)),
            Member("num", Int(|res.poses|)), Member("poses", Object(PoseMembers(res.poses)))])
  }

  /** The four top-level keys are distinct and none of them is a number. */
  lemma PoseObjectKeys(res: OpenPoseResult)
    ensures UniqueKeys(PoseObject(res).members) && NamedKeys(PoseObject(res).members)
  {
    var ms := PoseObject(res).members;
    assert ms[0].key[0] == 'h' && ms[1].key[0] == 'w' && ms[2].key[0] == 'n' && ms[3].key[0] == 'p';
  }

  /** `height`, `width` and `num` echo the result; `poses` holds the numbered poses. */
  lemma PoseHeader(res: OpenPoseResult)
    ensures Get(PoseObject(res).members, "height") == Some(Int(res.height))
    ensures Get(PoseObject(res).members, "width") == Some(Int(res.width))
    ensures Get(PoseObject(res).members, "num") == Some(Int(|res.poses|))
    ensures Get(PoseObject(res).members, "poses") == Some(Object(PoseMembers(res.poses)))
  {
    var ms := PoseObject(res).members;
    PoseObjectKeys(res);
    GetMember(ms, 0);
    GetMember(ms, 1);
    GetMember(ms, 2);
    GetMember(ms, 3);
  }

  /** Key `to_string(k)` of `poses` holds pose k when 1 <= k <= num and is absent otherwise. */
  lemma PoseLookup(poses: seq<seq<PosePoint>>, k: nat)
    ensures 1 <= k <= |poses| ==>
              Get(PoseMembers(poses), NatToString(k)) == Some(Object(PointMembers(poses[k - 1])))
    ensures k == 0 || k > |poses| ==> Get(PoseMembers(poses), NatToString(k)).None?
  {
    var ms := PoseMembers(poses);
    NumberedOnlyLookup(ms, 1, k);
    if 1 <= k <= |poses| {
      assert ms[k - 1].value == Object(PointMembers(poses[k - 1]));
    }
  }

  /** Key `to_string(k)` of a pose holds its k-th point when k < its length and is absent otherwise. */
  lemma PointLookup(pose: seq<PosePoint>, k: nat)
    ensures k < |pose| ==> Get(PointMembers(pose), NatToString(k)) == Some(PointJson(pose[k]))
    ensures k >= |pose| ==> Get(PointMembers(pose), NatToString(k)).None?
  {
    NumberedOnlyLookup(PointMembers(pose), 0, k);
  }

  /** The objects a pose and a result are made of never repeat a key. */
  lemma PoseKeysUnique(res: OpenPoseResult)
    ensures UniqueKeys(PoseMembers(res.poses))
    ensures forall i :: 0 <= i < |res.poses| ==> UniqueKeys(PointMembers(res.poses[i]))
  {
    var ms := PoseMembers(res.poses);
    assert [] + ms == ms;
    NumberedUnique([], ms, 1);
    forall i | 0 <= i < |res.poses| ensures UniqueKeys(PointMembers(res.poses[i])) {
      var ps := PointMembers(res.poses[i]);
      assert [] + ps == ps;
      NumberedUnique([], ps, 0);
    }
  }

  /** The four top-level `operator[]` assignments, in the order made, build the result object. */
  lemma PoseObjectByAssignments(res: OpenPoseResult)
    ensures Object(Put(Put(Put(Put([], "height", Int(res.height)), "width", Int(res.width)),
                           "num", Int(|res.poses|)), "poses", Object(PoseMembers(res.poses))))
            == PoseObject(res)
  {
    var p1 := Put([], "height", Int(res.height));
    assert p1 == [Member("height", Int(res.height))];
    var p2 := Put(p1, "width", Int(res.width));
    assert p1[0].key[0] == 'h';
    assert p2 == p1 + [Member("width", Int(res.width))];
    var p3 := Put(p2, "num", Int(|res.poses|));
    assert p2[1].key[0] == 'w';
    assert p3 == p2 + [Member("num", Int(|res.poses|))];
    var p4 := Put(p3, "poses", Object(PoseMembers(res.poses)));
    assert p3[2].key[0] == 'n';
    assert p4 == p3 + [Member("poses", Object(PoseMembers(res.poses)))];
  }

  /** Assigning pose i under `to_string(i + 1)` extends the poses built so far by exactly that pose. */
  lemma PutNextPose(poses: seq<seq<PosePoint>>, i: nat, built: seq<Member>)
    requires i < |poses| && built == PoseMembers(poses)[..i]
    ensures Put(built, NatToString(i + 1), Object(PointMembers(poses[i]))) == PoseMembers(poses)[..i + 1]
  {
    var all := PoseMembers(poses);
    assert Numbered(built, 1);
    PutNextNumbered(built, 1, Object(PointMembers(poses[i])));
    assert all[..i + 1] == built + [all[i]];
  }

  /** The inner loop of `result_to_json_string`: one pose's points under `pose_num++`. */
  method PoseToJson(pose: seq<PosePoint>) returns (posePoints: seq<Member>)
    ensures posePoints == PointMembers(pose)
  {
    posePoints := [];
    var poseNum := 0;
    for k := 0 to |pose|
      invariant poseNum == k
      invariant posePoints == PointMembers(pose)[..k]
    {
      PutNextNumbered(posePoints, 0, PointJson(pose[k]));
      posePoints := Put(posePoints, NatToString(poseNum), PointJson(pose[k]));
      poseNum := poseNum + 1;
    }
    assert PointMembers(pose)[..|pose|] == PointMembers(pose);
  }

  /**
   * `result_to_json_string` up to the text form: the header assigned with
   * `operator[]`, then each pose's points numbered with `pose_num++` and
   * the poses numbered with `++num`, then `poses` assigned last.
   */
  method ResultToJson(res: OpenPoseResult) returns (j: Json)
    ensures j == PoseObject(res)
  {
    var resultJson: seq<Member> := [];
    var poses: seq<Member> := [];
    var num := 0;
    resultJson := Put(resultJson, "height", Int(res.height));
    resultJson := Put(resultJson, "width", Int(res.width));
    resultJson := Put(resultJson, "num", Int(|res.poses|));
    for i := 0 to |res.poses|
      invariant num == i
      invariant poses == PoseMembers(res.poses)[..i]
    {
      var posePoints := PoseToJson(res.poses[i]);
      num := num + 1;
      PutNextPose(res.poses, i, poses);
      poses := Put(poses, NatToString(num), Object(posePoints));
    }
    assert poses == PoseMembers(res.poses);
    PoseObjectByAssignments(res);
    resultJson := Put(resultJson, "poses", Object(poses));
    j := Object(resultJson);
  }
}
