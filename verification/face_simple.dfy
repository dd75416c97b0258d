/**
 * The single-shot face-detection tool: detect faces in one image file and
 * write the result object to a file. Its serialiser scales the origin as
 * the model reports it, negative fractions included.
 */
module FaceSimple {
  import opened Wrappers
  import opened Json
  import opened Vision
  import opened FaceJson

  /** Without the clamp, the box is the four truncated products of the fractions as reported. */
  lemma UnclampedBox(r: FaceRect, width: int, height: int)
    ensures BoxOf(r, width, height, false) ==
            Box(Trunc(r.x * width as real), Trunc(r.y * height as real),
                Trunc(r.width * width as real), Trunc(r.height * height as real))
  {
    assert Origin(r.x, false) == r.x && Origin(r.y, false) == r.y;
  }

  /** One rectangle's object, assigned field by field, the origin not clamped. */
  method RectToJson(r: FaceRect, width: int, height: int) returns (pos: Json)
    ensures pos == BoxJson(BoxOf(r, width, height, false))
  {
    var x := Trunc(r.x * width as real);
    var y := Trunc(r.y * height as real);
    var sizeCol := Trunc(r.width * width as real);
    var sizeRow := Trunc(r.height * height as real);
    var ms: seq<Member> := [];
    ms := Put(ms, "x", Int(x));
    ms := Put(ms, "y", Int(y));
    ms := Put(ms, "size_col", Int(sizeCol));
    ms := Put(ms, "size_row", Int(sizeRow));
    BoxByAssignments(Box(x, y, sizeCol, sizeRow));
    UnclampedBox(r, width, height);
    pos := Object(ms);
  }

  /** `result_to_json_string` up to the text form, without the origin clamp. */
  method ResultToJson(res: FaceDetectResult) returns (j: Json)
    ensures j == FaceObject(res, false)
  {
    var members: seq<Member> := [];
    members := Put(members, "num", Int(|res.rects|));
    members := Put(members, "height", Int(res.height));
    members := Put(members, "width", Int(res.width));
    FaceObjectComplete(res, false);
    var num := 0;
    for i := 0 to |res.rects|
      invariant num == i
      invariant members == FaceObject(res, false).members[..3 + i]
    {
      var pos := RectToJson(res.rects[i], res.width, res.height);
      num := num + 1;
      PutNextRect(res, false, i, members);
      members := Put(members, NatToString(num), pos);
    }
    j := Object(members);
  }

  /**
   * The tool's entry point. `argv` includes the program name; with fewer
   * than four entries it returns -1 and writes nothing. Otherwise the image
   * `argv[2]` goes through the model loaded from `argv[1]` (`detect` stands
   * for loading, reading and running) and the object is written to `argv[3]`.
   */
  method Run(argv: seq<string>, detect: (string, string) -> FaceDetectResult)
    returns (code: int, written: Option<(string, Json)>)
    ensures |argv| < 4 <==> code == -1
    ensures |argv| < 4 ==> written == None
    ensures |argv| >= 4 ==>
              code == 0 && written == Some((argv[3], FaceObject(detect(argv[1], argv[2]), false)))
  {
    if |argv| < 4 {
      return -1, None;
    }
    var result := detect(argv[1], argv[2]);
    var json := ResultToJson(result);
    return 0, Some((argv[3], json));
  }
}
