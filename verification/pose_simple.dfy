/**
 * The single-shot pose-estimation tool: estimate poses in one image file
 * and write the result object to a file. Its serialiser is the server's.
 */
module PoseSimple {
  import opened Wrappers
  import opened Json
  import opened Vision
  import opened PoseJson

  /**
   * The tool's entry point. `argv` includes the program name; with fewer
   * than four entries it returns -1 and writes nothing. Otherwise the image
   * `argv[2]` goes through the model loaded from `argv[1]` (`estimate` stands
   * for loading, reading and running) and the object is written to `argv[3]`.
   */
  method Run(argv: seq<string>, estimate: (string, string) -> OpenPoseResult)
    returns (code: int, written: Option<(string, Json)>)
    ensures |argv| < 4 <==> code == -1
    ensures |argv| < 4 ==> written == None
    ensures |argv| >= 4 ==>
              code == 0 && written == Some((argv[3], PoseObject(estimate(argv[1], argv[2]))))
  {
    if |argv| < 4 {
      return -1, None;
    }
    var result := estimate(argv[1], argv[2]);
    var json := ResultToJson(result);
    return 0, Some((argv[3], json));
  }
}
