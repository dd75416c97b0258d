# FPGA face detection and pose estimation: a Dafny model

This project models the C++ programs that run face detection and pose estimation on a Vitis AI FPGA board.

- **Servers.** Each server accepts a TCP connection. A receiver thread reads frames into a queue. A worker thread runs the model on each frame and queues the result. A sender thread serialises each result to JSON and writes it back with a `size_t` length prefix.
- **Clients.** Each client captures frames from a camera or a video file and sends them to the server as raw pixels. It reads the length-prefixed JSON results back and draws them on the frames it kept. The face client draws rectangles. The pose client draws keypoints and limbs.
- **Single-shot tools.** Each tool runs the model on one image file and writes the JSON object to a file.

How the model is built:

- **Threads.** The threads are taken out. Each server session and each client is a `class` whose fields are the queues, the shared `already_stopped` flag, and the bytes on each side of the socket. Each thread's loop body is one step method. A timed wait that finds its queue empty is the timeout case.
- **JSON.** A `boost::json::object` is an ordered list of members with unique keys. `obj[k] = v` is `Json.Put`, which overwrites or appends. `find`/`at` is `Json.Get`. The text form is left to parameters.
- **The wire.** A length is 8 little-endian bytes (`Bytes.EncodeSize`). A message is that length followed by the payload (`Framing.Frame`).
- **External calls.** The model (`run`), `cv::resize`, `cv::imdecode`, `boost::json::serialize`/`parse` and the capture are function parameters.

Modules, one per source concern:

| module | what it models |
|---|---|
| `Bytes`, `Framing` | the `size_t` length prefix and the framed result stream |
| `Json` | `boost::json::object` as a member list, and `std::to_string` keys |
| `Vision` | images, detector and pose results, `static_cast<int>` |
| `FaceJson`, `PoseJson` | the JSON objects built by `result_to_json_string` |
| `FaceServer`, `PoseServer` | the servers' per-connection pipelines |
| `FaceSimple`, `PoseSimple` | the single-shot tools |
| `StreamGuard` | the clients' `frame_count` loop guards |
| `ClientIo` | what both clients share: camera detection, frame fitting, raw pixels, result reading |
| `FaceClient`, `PoseDrawing`, `PoseClient` | the clients and what they draw |

## Model

| member | source | states |
|---|---|---|
| Bytes.Inc | face_detection/client.cpp:65-66 | `++` on a `size_t` is the successor modulo 2^64 |
| Bytes.DecodeSizeOfEncodeSize | face_detection/face_detection_server.cpp:126-129 | the 8 bytes the sender writes for a length read back as that length |
| Bytes.EncodeSizeOfDecodeSize | face_detection/face_detection_server.cpp:153-156 | every 8 bytes a reader takes as a length are exactly that length's encoding |
| Bytes.FromLittleEndianOfLittleEndian | face_detection/face_detection_server.cpp:128-129 | writing a number as k little-endian bytes and reading them back gives the number |
| Bytes.LittleEndianOfFromLittleEndian | face_detection/face_detection_server.cpp:154-156 | reading k bytes as a number and writing it back gives the same bytes |
| Bytes.FromLittleEndianLastByte | face_detection/face_detection_server.cpp:153-156 | the number k bytes stand for is at least the last byte times 256^(k-1) |
| Bytes.DecodeSizeTopBit | face_detection/face_detection_server.cpp:153-157 | 8 bytes whose last byte is 0x80 or more read as a length of 2^63 or more |
| Bytes.FromLittleEndianZeros | face_detection/face_detection_server.cpp:153-157 | zero bytes read as the length 0 |
| Framing.Frame | pose_estimation/pose_estimation_server.cpp:131-152 | a framed payload is 8 + len bytes long |
| Framing.FrameLayout | pose_estimation/pose_estimation_server.cpp:131-152 | a frame's first 8 bytes are the payload's length and read back as it, and the payload follows them |
| Framing.ReadFrameSpec | face_detection/client.cpp:91-96 | a read is short exactly when fewer than 8 bytes remain, or fewer than the length announces; otherwise the stream is that frame followed by the rest |
| Framing.ReadFrameOfFrame | face_detection/client.cpp:91-96 | reading a framed payload gives it back and leaves the following bytes alone |
| Framing.FramesCons | pose_estimation/pose_estimation_server.cpp:131-152 | several results sent one after another start with the first one's frame |
| Framing.ReadFramesOfFrames | face_detection/client.cpp:88-103 | n results written one after another are read back in order, none lost or merged |
| Json.GetFinds | pose_estimation/client.cpp:140 | lookup finds nothing exactly when no member has the key; otherwise it finds a member holding that key and value |
| Json.GetFirst | face_detection/client.cpp:139-140 | a member whose key no earlier member has is the one lookup finds |
| Json.GetMember | face_detection/client.cpp:138-144 | in an object with unique keys, each member's key finds that member's value |
| Json.Put | face_detection/face_detection_server.cpp:88-90 | assigning a key the object lacks appends it at the end |
| Json.PutGetSame | face_detection/face_detection_server.cpp:88-98 | after `obj[k] = v`, looking up k finds v |
| Json.PutGetOther | face_detection/face_detection_server.cpp:88-98 | `obj[k] = v` leaves every other key's value unchanged |
| Json.PutUnique | face_detection/face_detection_server.cpp:88-98 | `obj[k] = v` keeps the object's keys unique |
| Json.NatToString | face_detection/face_detection_server.cpp:98 | `to_string` of a non-negative number is a non-empty string of digits, with two or more digits exactly from 10 up |
| Json.NatToStringDigits | face_detection/face_detection_server.cpp:98 | every character of `to_string` of a non-negative number is a digit |
| Json.NatToStringInjective | face_detection/face_detection_server.cpp:98 | different numbers give different keys |
| Json.NatToStringNotNamed | face_detection/face_detection_server.cpp:88-98 | a numbered key never equals a key that starts with a letter, such as "num", "height" or "width" |
| Json.NumberedUnique | face_detection/face_detection_server.cpp:88-98 | named members followed by members numbered from any start never repeat a key |
| Json.PutNextNumbered | pose_estimation/pose_estimation_server.cpp:101-103 | assigning the next number's key appends a member and keeps the keys numbered |
| Json.NamedNotNumber | face_detection/face_detection_server.cpp:88-98 | no number's key is one of the named header keys |
| Json.NumberedOutside | face_detection/client.cpp:139-140 | a number outside the numbered range is no numbered member's key |
| Json.NumberedPresent | face_detection/client.cpp:139-140 | after named members, key `to_string(k)` inside the numbered range finds the k-th numbered member's value |
| Json.NumberedAbsent | face_detection/client.cpp:139-140 | a number outside the numbered range is not a key of the object |
| Json.NumberedLookup | face_detection/client.cpp:139-140 | key `to_string(k)` finds the k-th numbered member's value inside the range and nothing outside it |
| Json.NumberedOnlyLookup | pose_estimation/pose_estimation_server.cpp:101-103 | in an object of numbered members only, key `to_string(k)` finds the k-th member inside the range and nothing outside it |
| Vision.TruncBounds | face_detection/face_detection_server.cpp:94-97 | `static_cast<int>` truncates toward zero: less than one unit from the value, and odd in its argument |
| FaceJson.Boxes | face_detection/face_detection_server.cpp:92-98 | there is one box per detected rectangle |
| FaceJson.FaceKeysUnique | face_detection/face_detection_server.cpp:86-99 | the face result object never repeats a key |
| FaceJson.FaceMemberAt | face_detection/face_detection_server.cpp:86-99 | the object is the three header members, then rectangle i under `to_string(i + 1)`, a key no earlier member has |
| FaceJson.FaceHeader | face_detection/face_detection_server.cpp:88-90 | `num` is the number of rectangles; `height` and `width` echo the result |
| FaceJson.FaceBoxLookup | face_detection/face_detection_server.cpp:91-98 | key `to_string(k)` holds the k-th rectangle's box for 1 <= k <= num and is absent otherwise |
| FaceJson.ClampedOriginNonNegative | face_detection/face_detection_server.cpp:94-95 | with the server's clamp the reported `x` and `y` are never negative |
| FaceJson.ClampedScale | face_detection/face_detection_server.cpp:94-95 | a clamped negative fraction scales to 0; a non-negative one scales as without the clamp |
| FaceJson.ClampOnlyAffectsOrigin | face_detection/face_detection_simple.cpp:33-36 | the server's and the single-shot tool's boxes differ only in a negative origin, which the server reports as 0 |
| FaceJson.ClampedX | face_detection/face_detection_server.cpp:94 | the clamped `x` is 0 for a negative `x` fraction and otherwise the unclamped `x` |
| FaceJson.ClampedY | face_detection/face_detection_server.cpp:95 | the clamped `y` is 0 for a negative `y` fraction and otherwise the unclamped `y` |
| FaceJson.ClampExample | face_detection/face_detection_simple.cpp:33-34 | a face half past the left edge of a 640-wide image is reported at x = -320 by the tool and x = 0 by the server |
| FaceJson.BoxByAssignments | face_detection/face_detection_server.cpp:93-97 | the four field assignments build the box object `{x, y, size_col, size_row}` |
| FaceJson.PutNextRect | face_detection/face_detection_server.cpp:98 | assigning rectangle i under `to_string(++num)` extends the object built so far by exactly its member |
| FaceJson.FaceObjectComplete | face_detection/face_detection_server.cpp:87-99 | the object is the header followed by the numbered boxes |
| FaceServer.SameRowsNotResized | face_detection/face_detection_server.cpp:71-73 | a 360-row frame of any width reaches the detector unresized |
| FaceServer.PreparedVersusFitted | face_detection/face_detection_server.cpp:71-73 | the worker's `&&` test resizes as the clients' `Fitted` does when both dimensions match or both differ, passes a frame with exactly one matching dimension unresized, and never resizes a frame the clients would keep |
| FaceServer.BothTestLetsOtherSizesThrough | face_detection/face_detection_server.cpp:71-73 | a 480x360 frame skips the worker's resize, while the clients' `Fitted` resizes it |
| FaceServer.ClampedBox | face_detection/face_detection_server.cpp:94-97 | the clamped box is the four truncated products, with a negative origin fraction replaced by 0 |
| FaceServer.RectToJson | face_detection/face_detection_server.cpp:93-97 | one rectangle's object is the clamped box object |
| FaceServer.ResultToJson | face_detection/face_detection_server.cpp:86-102 | the object built member by member is the face result object with the clamp |
| FaceServer.ReceiveImage | face_detection/face_detection_server.cpp:150-169 | the process terminates exactly when 8 length bytes arrive and announce more than a `std::vector` can hold; otherwise a short read fails, an encoded image is a non-empty frame payload, and an empty image is a zero-length frame |
| FaceServer.Session.constructor | face_detection/face_detection_server.cpp:33-36 | a session starts with empty queues, not stopped |
| FaceServer.Session.WorkerStep | face_detection/face_detection_server.cpp:51-84 | an empty queue ends the worker exactly when stopped and changes nothing; otherwise the head frame is popped, prepared and run, and its result appended |
| FaceServer.Session.SenderStep | face_detection/face_detection_server.cpp:104-148 | an empty queue ends the sender exactly when stopped; otherwise the head result is popped and serialised and each write that succeeds appends its bytes; `already_stopped` is never set, since the completion handlers never run |
| FaceServer.Session.SenderStepHandled | face_detection/face_detection_server.cpp:128-146 | as `SenderStep`, with the handlers run: each failed write sets `already_stopped` |
| FaceServer.Session.ReceiverStep | face_detection/face_detection_server.cpp:150-175 | a short read sets `already_stopped` and ends the stage; a length above `max_size()` terminates the process after consuming the 8 length bytes; a zero length ends the stage without stopping; otherwise exactly one decoded image is queued and the frame consumed |
| FaceServer.Session.DrainImages | face_detection/face_detection_server.cpp:51-84 | while frames are queued, each yields one result in arrival order, and the queue ends empty |
| FaceServer.RawFrameTerminates | face_detection/face_detection_server.cpp:153-157 | a raw 640x360 frame whose third pixel has green 0x80 or more announces a length of 2^63 or more and terminates the server |
| FaceServer.FailedSendUnnoticed | face_detection/face_detection_server.cpp:128-146 | as written, after a result's writes both fail the session is not stopped and the sender's next pass does not end |
| FaceServer.FailedSendNoticed | face_detection/face_detection_server.cpp:128-146 | with the handlers run, the failed writes stop the session and the sender's next pass ends it |
| FaceServer.RawBlackFrameReadAsEmpty | face_detection/face_detection_server.cpp:153-168 | a raw all-black frame, sent without a prefix, is read as a zero length and ends the receiver with nothing queued |
| FaceSimple.UnclampedBox | face_detection/face_detection_simple.cpp:33-36 | without the clamp, the box is the four truncated products of the fractions as reported |
| FaceSimple.RectToJson | face_detection/face_detection_simple.cpp:32-37 | one rectangle's object is the unclamped box object |
| FaceSimple.ResultToJson | face_detection/face_detection_simple.cpp:25-41 | the object built member by member is the face result object without the clamp |
| FaceSimple.Run | face_detection/face_detection_simple.cpp:43-62 | fewer than four arguments give -1 and write nothing; otherwise the result object of image argv[2] is written to argv[3] and the exit code is 0 |
| PoseJson.PointFields | pose_estimation/pose_estimation_server.cpp:98-100 | a point object holds `type`, `x` and `y` with the point's values, and no other key |
| PoseJson.PointMembers | pose_estimation/pose_estimation_server.cpp:96-102 | a pose has one member per point, numbered from 0 |
| PoseJson.PoseMembers | pose_estimation/pose_estimation_server.cpp:94-104 | `poses` has one member per pose, numbered from 1 |
| PoseJson.PoseObjectKeys | pose_estimation/pose_estimation_server.cpp:91-105 | the four top-level keys are distinct and none of them is a number |
| PoseJson.PoseHeader | pose_estimation/pose_estimation_server.cpp:91-93 | `height`, `width` and `num` echo the result, and `poses` holds the numbered poses |
| PoseJson.PoseLookup | pose_estimation/pose_estimation_server.cpp:103 | key `to_string(k)` of `poses` holds pose k for 1 <= k <= num and is absent otherwise |
| PoseJson.PointLookup | pose_estimation/pose_estimation_server.cpp:101 | key `to_string(k)` of a pose holds its k-th point (from 0) inside the pose and is absent past it |
| PoseJson.PoseKeysUnique | pose_estimation/pose_estimation_server.cpp:94-104 | neither the `poses` object nor any pose object repeats a key |
| PoseJson.PoseObjectByAssignments | pose_estimation/pose_estimation_server.cpp:91-105 | the three header assignments and the final `poses` assignment build the result object |
| PoseJson.PutNextPose | pose_estimation/pose_estimation_server.cpp:103 | assigning pose i under `to_string(++num)` extends the poses built so far by exactly that pose |
| PoseJson.PoseToJson | pose_estimation/pose_estimation_server.cpp:95-102 | the inner loop builds the pose's numbered points |
| PoseJson.ResultToJson | pose_estimation/pose_estimation_server.cpp:87-108 | the object built member by member is the pose result object |
| PoseServer.Session.constructor | pose_estimation/pose_estimation_server.cpp:38-41 | a session starts with empty queues and not stopped; it also allocates the one `FRAME_SIZE`-byte array the model uses for `tcp_recv`'s `buf` on every pass |
| PoseServer.Session.WorkerStep | pose_estimation/pose_estimation_server.cpp:56-85 | an empty queue ends the worker exactly when stopped; otherwise the head image is run as its buffer reads at that time, with no resize, and its result appended |
| PoseServer.Session.SenderStep | pose_estimation/pose_estimation_server.cpp:110-154 | an empty queue ends the sender exactly when stopped; otherwise the head result is popped and sent as a length then a payload; a failed write leaves `already_stopped` unchanged, since the handlers never run |
| PoseServer.Session.SenderStepHandled | pose_estimation/pose_estimation_server.cpp:134-152 | as `SenderStep`, with the handlers run: a failed write sets `already_stopped` |
| PoseServer.Session.ReceiverStep | pose_estimation/pose_estimation_server.cpp:156-176 | a full read of `FRAME_SIZE` bytes fills the buffer (one array standing for the `buf` each pass declares at line 159) and queues that same buffer; a short read leaves the bytes that arrived at the buffer's front, sets `already_stopped` and ends the stage |
| PoseServer.Session.ReceiverStepCloned | pose_estimation/pose_estimation_server.cpp:170-172 | with a clone before the push, each queued entry is new storage holding the frame just read |
| PoseServer.FailedSendUnnoticed | pose_estimation/pose_estimation_server.cpp:134-152 | as written, after an estimate's writes both fail the session is not stopped and the sender's next pass does not end |
| PoseServer.FailedSendNoticed | pose_estimation/pose_estimation_server.cpp:134-152 | with the handlers run, the failed writes stop the session and the sender's next pass ends it |
| PoseServer.TwoFramesAlias | pose_estimation/pose_estimation_server.cpp:159-172 | as written, after two frames are read both queued images show the second frame |
| PoseServer.TwoFramesKept | pose_estimation/pose_estimation_server.cpp:159-172 | with the clone, the two queued images show the first and the second frame |
| PoseSimple.Run | pose_estimation/pose_estimation_simple.cpp:48-67 | fewer than four arguments give -1 and write nothing; otherwise the pose object of image argv[2] is written to argv[3] and the exit code is 0 |
| StreamGuard.FaceGuardPasses | face_detection/client.cpp:65-66 | from a zero counter, `++count <= frame_count` holds for exactly `frame_count` passes |
| StreamGuard.PoseGuardPasses | pose_estimation/client.cpp:65-66 | from a zero counter, `++count != frame_count` holds for exactly `frame_count - 1` passes, or 2^64 - 1 for a camera |
| StreamGuard.FaceCameraNeverRuns | face_detection/client.cpp:41-47 | with a camera (`frame_count` 0) the face client's guard fails on the first pass |
| StreamGuard.PoseFileLosesLastFrame | pose_estimation/client.cpp:66 | with a three-frame file the pose client's stages make two passes |
| StreamGuard.StreamGuardPasses | face_detection/client.cpp:41-47 | the corrected guard always holds for a camera and holds for exactly `frame_count` passes for a file |
| ClientIo.FittedAll | face_detection/client.cpp:158-179 | one fitted frame per captured frame |
| ClientIo.ReceiveOneSpec | face_detection/client.cpp:91-97 | a received result is the parse of a framed payload at the front of the stream, and the rest follows it |
| ClientIo.ReceiveMany | face_detection/client.cpp:88-103 | n successful passes give n results |
| ClientIo.ReceiveManyNext | face_detection/client.cpp:88-103 | one more pass appends the value it parses, or fails the run when it cannot read or parse |
| ClientIo.ParsedAll | face_detection/client.cpp:97 | when every payload parses, there is one value per payload, each its parse |
| ClientIo.ReceiveManySnoc | face_detection/client.cpp:91-101 | after n passes that stop at a frame whose payload parses, pass n + 1 appends that parse and consumes the frame |
| ClientIo.ReceiveManyOfFrames | face_detection/client.cpp:88-103 | results the server framed in order are received in order, each parsed, and the bytes after them are left |
| FaceClient.IntFieldOfPut | face_detection/client.cpp:141-144 | after `obj[k] = v` with an integer v, `as_int64()` of key k gives v and every other key reads as before |
| FaceClient.FacesUpTo | face_detection/client.cpp:139-151 | a successful read of boxes 1..k gives k boxes |
| FaceClient.FacesUpToNone | face_detection/client.cpp:139-151 | once one box cannot be read, no longer run of boxes can be |
| FaceClient.FacesUpToNext | face_detection/client.cpp:139-140 | one more box extends the run, or makes it fail when unreadable |
| FaceClient.FacesUpToAll | face_detection/client.cpp:139-151 | boxes that each read back under their numbers read back as a run |
| FaceClient.DecodeFacesOfFaceObject | face_detection/client.cpp:138-151 | the client reads back exactly the boxes the server wrote, in order, with or without the clamp |
| FaceClient.BoxFields | face_detection/client.cpp:141-144 | the four integer fields of a box object read back as the box |
| FaceClient.ReadFace | face_detection/client.cpp:140-144 | one loop pass reads the box under `to_string(i)`, failing where a read throws |
| FaceClient.ReadBoxes | face_detection/client.cpp:139-151 | `num <= 0` reads nothing; otherwise boxes 1..num are read in order, failing at the first read that throws |
| FaceClient.ReadFaces | face_detection/client.cpp:138-151 | the boxes drawn for a result are its `num`, then boxes 1..num |
| FaceClient.Client.constructor | face_detection/client.cpp:34-48 | `frame_count` is 0 when the path starts with "/dev/video", otherwise the file's frame count |
| FaceClient.Client.CaptureStep | face_detection/client.cpp:158-179 | an empty capture ends the reader; otherwise the frame, resized unless it is exactly 640x360, is queued for sending and for drawing |
| FaceClient.Client.CaptureAll | face_detection/client.cpp:158-179 | both queues receive every captured frame, fitted, in order |
| FaceClient.Client.SendStep | face_detection/client.cpp:69-84 | an empty queue is a timeout; otherwise the head frame's raw pixels are written |
| FaceClient.Client.SendFrames | face_detection/client.cpp:64-86 | the sender writes the first min(queued, `frame_count`) frames as raw pixels, in order |
| FaceClient.Client.ReceiveStep | face_detection/client.cpp:91-101 | a pass appends the parsed result and consumes its frame, or fails and changes nothing |
| FaceClient.Client.ReceiveResults | face_detection/client.cpp:88-103 | the results queued are exactly what `ReceiveMany` reads; the loop stops at `frame_count` results or at the first failing read |
| FaceClient.Client.ShowStep | face_detection/client.cpp:107-153 | no result is a timeout; a result without a frame is dropped; otherwise the frame is shown with the result's boxes, or the read throws |
| FaceClient.Client.ShowResults | face_detection/client.cpp:105-156 | pass i shows kept frame i with the boxes of result i. The loop runs until the guard ends it, leaving both queues past the shown items, or until a pass fails: no result queued (`ResultTimeout`), a result without its frame (`FrameTimeout`, the result is popped), or an unreadable result (`Fault`, both heads popped) |
| PoseDrawing.LimbsWithinSlots | pose_estimation/client.cpp:137-139 | there are 13 limbs and each joins two of the 14 slots |
| PoseDrawing.ReadPoints | pose_estimation/client.cpp:146-157 | a successful read of a pose gives one point per member |
| PoseDrawing.Slots | pose_estimation/client.cpp:144-153 | the points fill slots 0.. in order; the other slots of the 14 stay at (0, 0) |
| PoseDrawing.CirclesExactly | pose_estimation/client.cpp:152-156 | a circle is drawn at a position exactly when it is a point other than (0, 0) |
| PoseDrawing.CirclesOnly | pose_estimation/client.cpp:146-157 | the point loop draws only circles |
| PoseDrawing.LinesExactly | pose_estimation/client.cpp:158-164 | a limb is drawn exactly when both of its slots are not (0, 0), joining those two points, and only limbs are drawn |
| PoseDrawing.MissingPointNoLine | pose_estimation/client.cpp:144-164 | a limb that reaches past the pose's points is never drawn |
| PoseDrawing.ReadPointsPrefix | pose_estimation/client.cpp:146-157 | once a point cannot be read, the pose cannot be read |
| PoseDrawing.PosesDrawingsPrefix | pose_estimation/client.cpp:141-165 | once a pose fails, the whole result fails |
| PoseDrawing.ReadPointsNext | pose_estimation/client.cpp:146-153 | one more member extends the points read, or fails the read |
| PoseDrawing.SlotsNext | pose_estimation/client.cpp:153 | storing the next point sets the next slot |
| PoseDrawing.CirclesNext | pose_estimation/client.cpp:154-156 | one more point adds its circle unless it is (0, 0) |
| PoseDrawing.JoinLimbs | pose_estimation/client.cpp:158-164 | the limb loop over the slot array draws the limb lines |
| PoseDrawing.DrawPose | pose_estimation/client.cpp:144-164 | one pose draws its circles, then its lines; it fails where a read throws or a 15th point overruns the slots |
| PoseDrawing.DrawResult | pose_estimation/client.cpp:140-165 | a result draws its poses in stored order; it fails without `poses` or where a pose fails |
| PoseDrawing.ReadPointJson | pose_estimation/client.cpp:149-151 | a point object the server wrote reads back as its position |
| PoseDrawing.ReadPointMembers | pose_estimation/client.cpp:146-157 | a pose the server wrote reads back as its points, in order |
| PoseDrawing.PosesDrawingsOfPoseMembers | pose_estimation/client.cpp:141-165 | poses the server wrote, of at most 14 points each, draw exactly their expected circles and lines |
| PoseDrawing.ResultDrawingsOfPoseObject | pose_estimation/client.cpp:140-165 | a result object the server wrote draws exactly the expected circles and lines of its poses |
| PoseDrawing.OverlongPoseNotDrawn | pose_estimation/client.cpp:144-153 | a pose of more than 14 points is a fault |
| PoseClient.Client.constructor | pose_estimation/client.cpp:34-48 | `frame_count` is 0 when the path starts with "/dev/video", otherwise the file's frame count |
| PoseClient.Client.CaptureStep | pose_estimation/client.cpp:172-193 | an empty capture ends the reader; otherwise the frame, resized unless it is exactly 368x368, is queued twice |
| PoseClient.Client.CaptureAll | pose_estimation/client.cpp:172-193 | both queues receive every captured frame, fitted, in order |
| PoseClient.Client.SendStep | pose_estimation/client.cpp:69-84 | an empty queue is a timeout; otherwise the head frame's raw pixels are written |
| PoseClient.Client.SendFrames | pose_estimation/client.cpp:64-86 | the sender writes the first min(queued, passes of the `!=` guard) frames as raw pixels, in order |
| PoseClient.Client.ReceiveStep | pose_estimation/client.cpp:91-101 | a pass appends the parsed result and consumes its frame, or fails and changes nothing |
| PoseClient.Client.ReceiveResults | pose_estimation/client.cpp:88-103 | the results queued are exactly what `ReceiveMany` reads, for as many passes as the `!=` guard allows or up to the first failing read |
| PoseClient.Client.ShowStep | pose_estimation/client.cpp:107-167 | no result is a timeout; a result without a frame is dropped; otherwise the frame is shown with the result's drawings, or the read throws |
| PoseClient.Client.ShowResults | pose_estimation/client.cpp:105-170 | pass i shows kept frame i with the drawings of result i. The loop runs until the guard ends it, leaving both queues past the shown items, or until a pass fails: no result queued (`ResultTimeout`), a result without its frame (`FrameTimeout`, the result is popped), or an undrawable result (`Fault`, both heads popped) |

## Left out

- Threads, mutexes and condition variables are left out. Each stage is a sequence of step methods, and the order in which threads interleave is not modelled. In both clients `show_result` waits for `image_in_` on `cv_result`, which is the wrong condition variable; only the timeout this can cause is modelled (`FrameTimeout`).
- No thread calls `run` on the servers' `io_service`, so the `async_write` completion handlers never run, and a write that is not complete after its first send is never resumed. `lengthSent`/`payloadSent` say whether each write's first send puts all of its bytes on the socket. Partly written lengths or payloads are not modelled.
- FaceServer.Session.SenderStep and PoseServer.Session.SenderStep: the buffers handed to `async_write` go out of scope at the end of each pass, and the handlers capture `data` by reference. Neither lifetime is modelled.
- An exception that ends a program is a `None` or `Fault` outcome. This covers a short read in the clients, a parse failure, and `as_int64`/`as_double`/`at` on a missing or mistyped value.
- FaceClient.Client.SendStep: the sender's `boost::asio::write` has no error code, so a failed write throws `system_error`, which nothing catches and which terminates the client. The model's sender writes always succeed.
- PoseClient.Client.SendStep: the same throwing `boost::asio::write` on a failed write is not modelled; every write succeeds.
- FaceServer.Session.ReceiverStep: when the first read fails, `frame_size` is uninitialised and the `std::vector` of that size may throw and end the process. The model treats every short read as the same `ReadFailed` outcome.
- FaceServer.ReceiveImage: a length of at most `max_size()` that is larger than the memory available makes the `std::vector` throw `bad_alloc`, which terminates the process. Available memory is not modelled; only a length above `max_size()` terminates.
- Floating point: rectangle fractions and keypoint coordinates are `real`, with no `float`/`double` rounding. `cv::Point2f` narrowing of the `double` coordinates is not modelled.
- FaceClient.Client.ShowStep: the `int` narrowing of `num` and of the four box fields is not modelled; the fields are read as unbounded integers.
- FaceJson.BoxOf: `static_cast<int>` of a product outside the `int` range is undefined in C++ and is not modelled.
- JSON text: `boost::json::serialize` and `boost::json::parse` are parameters. That parsing the serialised text gives back the object is not modelled.
- The model itself (`run`), `cv::resize`, `cv::imdecode`, `cv::imread` and the capture device are parameters. The pixels of `cv::rectangle`, `cv::circle` and `cv::line` and the window are not modelled. What is drawn is a list of shapes.
- `cap.open` failing and calling `exit(1)`, the `sleep_for` pacing, command-line parsing, the acceptor loop in the servers' `main`, and the file output of the single-shot tools are I/O and are not modelled. The single-shot `Run` returns the path and the object it would write.
- FaceClient.Client.constructor and PoseClient.Client.constructor: `cap.get(cv::CAP_PROP_FRAME_COUNT)` is a `double` converted to `size_t`. For a source of unknown length OpenCV may report -1 or another value that is not a count, and converting a negative or NaN value is undefined in C++. A negative or unknown capture count is not modelled; `fileFrames` ranges over 0 to 2^64 - 2048.
- ClientIo.IsCameraDevice: `std::equal` reads past the end of a path shorter than "/dev/video". The model treats a short path as a file.
- PoseServer.Session.ReceiverStep: `buf` is a stack array declared inside `tcp_recv`'s loop, so each pass's `buf` ends with that pass while the queued header still points at it. The model uses one array for all passes; it captures the sharing, not the end of each pass's storage.
- PoseDrawing.PoseDrawings: a pose with more than 14 points writes past `pose_points`, which is undefined behaviour. The model treats it as a fault.
- FaceJson.ClampedOriginNonNegative requires a non-negative image width and height, as the detector's results have.
- `face_detection_seq.cpp` and `pose_estimation_seq.cpp` are not part of this model.

## Findings

| source | as written | input that shows it | evidently intended | confidence | as-written member | corrected member |
|---|---|---|---|---|---|---|
| face_detection/client.cpp:44,66,90,107 | a camera gets `frame_count = 0`, and every stage's guard `++recv_count <= frame_count` fails on the first pass | path "/dev/video0": no frame is sent, received or shown | a camera streams until the capture ends, and a file gets one pass per frame | not executed | StreamGuard.FaceCameraNeverRuns | StreamGuard.StreamGuardPasses |
| pose_estimation/client.cpp:66,90,107 | the guard `++recv_count != frame_count` stops one pass early for a file | a file of 3 frames: 2 frames are sent, received and shown | one pass per frame | not executed | StreamGuard.PoseFileLosesLastFrame | StreamGuard.StreamGuardPasses |
| face_detection/face_detection_server.cpp:128-146 | the handlers that set `already_stopped` on a failed write never run, since no thread runs the `io_service` | both writes of a result fail: the session stays unstopped and the sender keeps waiting on an empty queue | a failed write stops the session, for every session and result as `FaceServer.Session.SenderStepHandled` states | not executed | FaceServer.FailedSendUnnoticed | FaceServer.FailedSendNoticed |
| pose_estimation/pose_estimation_server.cpp:134-152 | the same handlers in the pose server never run | both writes of an estimate fail: the session stays unstopped and the sender keeps waiting | a failed write stops the session, for every session and estimate as `PoseServer.Session.SenderStepHandled` states | not executed | PoseServer.FailedSendUnnoticed | PoseServer.FailedSendNoticed |
| pose_estimation/pose_estimation_server.cpp:159-172 | the queued `cv::Mat` is a header over `buf`, which the next read overwrites | two frames f1, f2 arriving before the worker runs: both queued images hold f2 | each queued image keeps its own frame (a `clone()` before the push), for every read as `PoseServer.Session.ReceiverStepCloned` states | not executed | PoseServer.TwoFramesAlias | PoseServer.TwoFramesKept |
