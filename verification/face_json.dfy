/**
 * The JSON object both face-detection tools build from a result:
 * `num`, `height`, `width`, then one member per rectangle under the keys
 * "1".."num", each holding `x`, `y`, `size_col` and `size_row`. The server
 * clamps a negative origin to 0 before scaling; the single-shot tool does not.
 */
module FaceJson {
  import opened Json
  import opened Vision
  import opened Wrappers

  /** The four integers a rectangle is reported as, in pixels. */
  datatype Box = Box(x: int, y: int, sizeCol: int, sizeRow: int)

  /** The origin fraction that gets scaled: with `clamp`, a negative one becomes 0. */
  function Origin(f: real, clamp: bool): real
  {
    if clamp && f < 0.0 then 0.0 else f
  }

  /** The box a rectangle is reported as, in an image of the given size. */
  function BoxOf(r: FaceRect, width: int, height: int, clamp: bool): Box
  {
    Box(Trunc(Origin(r.x, clamp) * width as real), Trunc(Origin(r.y, clamp) * height as real),
        Trunc(r.width * width as real), Trunc(r.height * height as real))
  }

  /** The boxes of all rectangles of a result, in the result's order. */
  function Boxes(res: FaceDetectResult, clamp: bool): (bs: seq<Box>)
    ensures |bs| == |res.rects|
  {
    seq(|res.rects|, i requires 0 <= i < |res.rects| => BoxOf(res.rects[i], res.width, res.height, clamp))
  }

  /** The object stored for one rectangle. */
  function BoxJson(b: Box): Json
  {
    Object([Member("x", Int(b.x)), Member("y", Int(b.y)),
            Member("size_col", Int(b.sizeCol)), Member("size_row", Int(b.sizeRow))])
  }

  function Header(res: FaceDetectResult): seq<Member>
  {
    [Member("num", Int(|res.rects|)), Member("height", Int(res.height)), Member("width", Int(res.width))]
  }

  /** The k-th box (counting from 1) under the key `to_string(k)`. */
  function BoxMembers(bs: seq<Box>): (ms: seq<Member>)
    ensures |ms| == |bs|
  {
    seq(|bs|, i requires 0 <= i < |bs| => Member(NatToString(i + 1), BoxJson(bs[i])))
  }

  function FaceObject(res: FaceDetectResult, clamp: bool): Json
  {
    Object(Header(res) + BoxMembers(Boxes(res, clamp)))
  }

  /** No two members of the object share a key. */
  lemma FaceKeysUnique(res: FaceDetectResult, clamp: bool)
    ensures UniqueKeys(FaceObject(res, clamp).members)
  {
    NumberedUnique(Header(res), BoxMembers(Boxes(res, clamp)), 1);
  }

  /**
   * Member `3 + i` holds rectangle `i` under key `to_string(i + 1)`, a key
   * no earlier member has; the three before the rectangles are the header.
   */
  lemma FaceMemberAt(res: FaceDetectResult, clamp: bool, i: nat)
    requires i < |res.rects|
    ensures var ms := FaceObject(res, clamp).members;
            && |ms| == 3 + |res.rects| && ms[..3] == Header(res)
            && ms[3 + i] == Member(NatToString(i + 1), BoxJson(BoxOf(res.rects[i], res.width, res.height, clamp)))
            && forall k :: 0 <= k < 3 + i ==> ms[k].key != NatToString(i + 1)
  {
    var ms := FaceObject(res, clamp).members;
    FaceKeysUnique(res, clamp);
    assert ms[3 + i].key == NatToString(i + 1);
  }

  /** `num` is the rectangle count; `height` and `width` echo the result. */
  lemma FaceHeader(res: FaceDetectResult, clamp: bool)
    ensures Get(FaceObject(res, clamp).members, "num") == Some(Int(|res.rects|))
    ensures Get(FaceObject(res, clamp).members, "height") == Some(Int(res.height))
    ensures Get(FaceObject(res, clamp).members, "width") == Some(Int(res.width))
  {
    var ms := FaceObject(res, clamp).members;
    FaceKeysUnique(res, clamp);
    GetMember(ms, 0);
    GetMember(ms, 1);
    GetMember(ms, 2);
  }

  /**
   * The numbered keys are exactly "1".."num": key `to_string(k)` holds the
   * k-th rectangle when 1 <= k <= num and is absent otherwise.
   */
  lemma FaceBoxLookup(res: FaceDetectResult, clamp: bool, k: nat)
    ensures 1 <= k <= |res.rects| ==>
              Get(FaceObject(res, clamp).members, NatToString(k)) == Some(BoxJson(Boxes(res, clamp)[k - 1]))
    ensures k == 0 || k > |res.rects| ==> Get(FaceObject(res, clamp).members, NatToString(k)).None?
  {
    NumberedLookup(Header(res), BoxMembers(Boxes(res, clamp)), 1, k);
  }

  /** With the clamp, the reported origin is never negative. */
  lemma ClampedOriginNonNegative(r: FaceRect, width: int, height: int)
    requires width >= 0 && height >= 0
    ensures BoxOf(r, width, height, true).x >= 0 && BoxOf(r, width, height, true).y >= 0
  {
    assert Origin(r.x, true) * width as real >= 0.0;
    assert Origin(r.y, true) * height as real >= 0.0;
  }

  /** Scaling a clamped origin: 0 for a negative fraction, the plain scaled value otherwise. */
  lemma ClampedScale(f: real, scale: int)
    ensures f < 0.0 ==> Trunc(Origin(f, true) * scale as real) == 0
    ensures f >= 0.0 ==> Trunc(Origin(f, true) * scale as real) == Trunc(Origin(f, false) * scale as real)
  {
    if f < 0.0 {
      assert Origin(f, true) * scale as real == 0.0;
    }
  }

  /**
   * The two variants differ only in the origin: a non-negative origin is
   * reported alike, a negative one as 0 with the clamp; the sizes are the
   * same expression in both.
   */
  lemma ClampOnlyAffectsOrigin(r: FaceRect, width: int, height: int)
    ensures BoxOf(r, width, height, true).x == if r.x < 0.0 then 0 else BoxOf(r, width, height, false).x
    ensures BoxOf(r, width, height, true).y == if r.y < 0.0 then 0 else BoxOf(r, width, height, false).y
    ensures BoxOf(r, width, height, true).sizeCol == BoxOf(r, width, height, false).sizeCol
    ensures BoxOf(r, width, height, true).sizeRow == BoxOf(r, width, height, false).sizeRow
  {
    ClampedX(r, width, height);
    ClampedY(r, width, height);
  }

  /** The clamp on the reported `x` alone. */
  lemma ClampedX(r: FaceRect, width: int, height: int)
    ensures BoxOf(r, width, height, true).x == if r.x < 0.0 then 0 else BoxOf(r, width, height, false).x
  {
    if r.x < 0.0 {
      assert Origin(r.x, true) * width as real == 0.0;
    } else {
      assert Origin(r.x, true) == Origin(r.x, false);
    }
  }

  /** The clamp on the reported `y` alone. */
  lemma ClampedY(r: FaceRect, width: int, height: int)
    ensures BoxOf(r, width, height, true).y == if r.y < 0.0 then 0 else BoxOf(r, width, height, false).y
  {
    if r.y < 0.0 {
      assert Origin(r.y, true) * height as real == 0.0;
    } else {
      assert Origin(r.y, true) == Origin(r.y, false);
    }
  }

  /** A face half outside the left edge of a 640-wide image: -320 unclamped, 0 clamped. */
  lemma ClampExample()
    ensures BoxOf(FaceRect(-0.5, 0.25, 0.5, 0.5), 640, 360, false) == Box(-320, 90, 320, 180)
    ensures BoxOf(FaceRect(-0.5, 0.25, 0.5, 0.5), 640, 360, true) == Box(0, 90, 320, 180)
  {
  }

  /** The four `operator[]` assignments for one rectangle build its box object. */
  lemma BoxByAssignments(b: Box)
    ensures Object(Put(Put(Put(Put([], "x", Int(b.x)), "y", Int(b.y)), "size_col", Int(b.sizeCol)),
                       "size_row", Int(b.sizeRow))) == BoxJson(b)
  {
    var p1 := Put([], "x", Int(b.x));
    assert p1 == [Member("x", Int(b.x))];
    var p2 := Put(p1, "y", Int(b.y));
    assert p2 == p1 + [Member("y", Int(b.y))];
    var p3 := Put(p2, "size_col", Int(b.sizeCol));
    assert p3 == p2 + [Member("size_col", Int(b.sizeCol))];
    var p4 := Put(p3, "size_row", Int(b.sizeRow));
    assert p4 == p3 + [Member("size_row", Int(b.sizeRow))];
    assert p4 == BoxJson(b).members;
  }

  /** Assigning rectangle `i` under `to_string(i + 1)` extends the object built so far by one member. */
  lemma PutNextRect(res: FaceDetectResult, clamp: bool, i: nat, members: seq<Member>)
    requires i < |res.rects|
    requires members == FaceObject(res, clamp).members[..3 + i]
    ensures Put(members, NatToString(i + 1), BoxJson(BoxOf(res.rects[i], res.width, res.height, clamp)))
            == FaceObject(res, clamp).members[..3 + i + 1]
  {
    var all := FaceObject(res, clamp).members;
    FaceMemberAt(res, clamp, i);
    assert forall k :: 0 <= k < |members| ==> members[k].key != NatToString(i + 1);
    assert all[..3 + i + 1] == all[..3 + i] + [all[3 + i]];
  }

  /** The whole object is the prefix the loop has built once every rectangle is in. */
  lemma FaceObjectComplete(res: FaceDetectResult, clamp: bool)
    ensures FaceObject(res, clamp).members[..3 + |res.rects|] == FaceObject(res, clamp).members
    ensures FaceObject(res, clamp).members[..3] == Header(res)
  {
    if |res.rects| == 0 {
      assert FaceObject(res, clamp).members == Header(res);
    } else {
      FaceMemberAt(res, clamp, 0);
    }
  }

}
