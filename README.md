# JeVois serial link — a Dafny model

This project models the serial protocol between a roboRIO robot controller and a
JeVois smart camera, as written in Team 1736's JeVois tester. It has two sides.

- **Robot side, `JeVoisInterface` (Java).**
  - The constructor opens the USB serial port, with at most ten attempts.
  - It checks the camera with a `ping`.
  - It then sends the fixed setup commands and starts the packet listener.
  - Commands are written as lines. The answer is found by polling the port and
    accumulating the text until it holds `OK` (answer 0) or `ERR` (answer -1), or
    until the timeout expires (answer -2).
  - A non-blocking variant keeps its accumulator and an idle-poll counter
    between calls.
  - Vision packets are framed out of a persistent buffer by `{` … `}` in
    `blockAndGetPacket`.
- **Camera side, `CasseroleVision` (Python).**
  - It answers the custom commands `hello` and `Geevoooice` and refuses every
    other command with an `ERR` text.
  - After each processed frame it increments a frame counter and writes the
    status line `DONE frame <n> \n`.

The serial port is represented by two fields of the interface object.
`rxStream` lists what successive polls of the port return; `""` is a poll that
found nothing. `txLog` lists every line written. Wall-clock timeouts become poll
budgets. The acknowledgment timeout of one second is the field `ackWindow`: the
number of polls that fit in it.

Modules:

- `Text` holds the Java and Python string primitives: `contains`, `lastIndexOf`
  with and without a start index, and `str(n)`.
- `Transport` holds the polled receive stream.
- `Framer` states the packet step and the packet loop as functions.
- `Ack` states the acknowledgment scan as functions.
- `JeVois` holds the `JeVoisInterface` class. Its methods are proved against
  the `Framer` and `Ack` functions.
- `Vision` holds the camera-side module and its `CasseroleVision` class.
- `Wrappers` holds `Option`, which models Java `null`.

The packet framer is modelled exactly as written, in three respects:

- A packet is cut with `substring(startIdx + 1, endIdx - 1)`, which leaves out
  the last character before `}`. `{0,T,1,2,3,4,5,6}` yields `0,T,1,2,3,4,5,`.
- An empty `{}` makes that call throw `StringIndexOutOfBoundsException`, which
  the model keeps as the outcome `IndexOutOfBounds`.
- Only the last `}` in the buffer closes a packet, so a packet can contain an
  earlier `}`. `{ab}c}` yields `ab}`.

### Behaviour worth knowing

- The packets framed depend on how reads split the stream.
  - Each read frames only the last complete packet in the buffer and drops
    everything before it.
  - `{ab}{cd}` in one read yields only `c`. In two reads it yields `a` and then
    `c`. This is `Framer.ChunkBoundaryMatters`.
- `parsePacket` is empty, so no field decoder exists. The flag `visionOnline`
  exists and `isVisionOnline` returns it, but nothing ever sets it: the listener
  thread first enters `blockAndPrintAllSerial`, which never returns, so
  `backgroundUpdate` never reaches the lines that write the flag.
- After the buffer is cut back to its last `{`, the buffer is not examined
  again until the next read.
- Each acknowledged command consumes the polls of its own acknowledgment scan.
  After the constructor, the packet listener reads the stream from where the
  ping's scan and the three setup scans stopped (`Ack.AcksPolls`).

## Model

| member | source | states |
|---|---|---|
| Text.Contains | JeVoisTest/src/org/usfirst/frc/team1736/robot/JeVoisInterface.java:262 | `String.contains`: some window of the text equals the token; ContainsExtend, ContainsAcross and NotContainsWithout pin it down |
| Text.ContainsExtend | JeVoisTest/src/org/usfirst/frc/team1736/robot/JeVoisInterface.java:261-265 | a token found in the accumulated text is still found after more text is appended on either side |
| Text.ContainsAcross | JeVoisTest/src/org/usfirst/frc/team1736/robot/JeVoisInterface.java:261-262 | a token split across two reads is found in their concatenation |
| Text.NotContainsWithout | JeVoisTest/src/org/usfirst/frc/team1736/robot/JeVoisInterface.java:262-265 | text that lacks any one character of a token does not contain the token |
| Text.LastIndexOf | JeVoisTest/src/org/usfirst/frc/team1736/robot/JeVoisInterface.java:306 | `lastIndexOf(c)`: -1 exactly when `c` is absent; otherwise an index that holds `c` |
| Text.LastIndexOfIsLast | JeVoisTest/src/org/usfirst/frc/team1736/robot/JeVoisInterface.java:306 | no occurrence of the character follows the index `lastIndexOf(c)` returns |
| Text.LastIndexOfFrom | JeVoisTest/src/org/usfirst/frc/team1736/robot/JeVoisInterface.java:312 | `lastIndexOf(c, from)` is -1 or an index no greater than `from` that holds `c` |
| Text.LastIndexOfFromSpec | JeVoisTest/src/org/usfirst/frc/team1736/robot/JeVoisInterface.java:312 | `lastIndexOf(c, from)` is -1 exactly when no `c` is at or before `from`, and otherwise no `c` lies between it and `from` |
| Text.NatToString | moduleSrc/CasseroleVision.py:32 | `str(n)` is a non-empty string of decimal digits without a leading zero |
| Text.ParseNatToString | moduleSrc/CasseroleVision.py:32 | reading `str(n)` back as a decimal number gives `n` |
| Transport.PollAt | JeVoisTest/src/org/usfirst/frc/team1736/robot/JeVoisInterface.java:295-298 | once the stream is exhausted, every poll finds nothing |
| Transport.SegmentCons | JeVoisTest/src/org/usfirst/frc/team1736/robot/JeVoisInterface.java:261 | the received text of several polls is the first poll's chunk followed by the rest |
| Transport.SegmentPrefix | JeVoisTest/src/org/usfirst/frc/team1736/robot/JeVoisInterface.java:261 | the accumulated text only grows: earlier text is a prefix of later text |
| Framer.Classify | JeVoisTest/src/org/usfirst/frc/team1736/robot/JeVoisInterface.java:301-336 | the classification step, defined branch by branch on the buffer; ClassifyIncomplete, ClassifyExtract, ClassifyAdjacentThrows and ClassifyResync pin it to the last `}` and the last `{` before it |
| Framer.Feed | JeVoisTest/src/org/usfirst/frc/team1736/robot/JeVoisInterface.java:295-339 | a poll that finds nothing leaves the buffer alone; a chunk is appended and the buffer classified; FeedKeepsTail, RunNoEnd and RunPacketNoStart state what it keeps |
| Framer.ClassifyIncomplete | JeVoisTest/src/org/usfirst/frc/team1736/robot/JeVoisInterface.java:301-336 | with no `{` the buffer becomes empty; with `{` but no `}` it is kept whole; no packet comes out of either case |
| Framer.ClassifyExtract | JeVoisTest/src/org/usfirst/frc/team1736/robot/JeVoisInterface.java:306-326 | with the last `}` at `e` and the last `{` before it at `s`: the packet is `b[s+1..e-1]` and the buffer becomes what follows `e` |
| Framer.ClassifyAdjacentThrows | JeVoisTest/src/org/usfirst/frc/team1736/robot/JeVoisInterface.java:324 | an adjacent `{}` as the last pair makes the extraction throw and leaves the buffer as it was |
| Framer.ClassifyResync | JeVoisTest/src/org/usfirst/frc/team1736/robot/JeVoisInterface.java:314-321 | with no `{` before the last `}`, the buffer is cut back to its last `{` and no packet is produced |
| Framer.ClassifyResyncShape | JeVoisTest/src/org/usfirst/frc/team1736/robot/JeVoisInterface.java:314-321 | a buffer holding both delimiters that yields no packet is left starting with `{` and holding no `}` |
| Framer.ClassifyNoEnd | JeVoisTest/src/org/usfirst/frc/team1736/robot/JeVoisInterface.java:306-325 | unless the step throws, the buffer it leaves holds no `}` |
| Framer.ClassifyPacketNoStart | JeVoisTest/src/org/usfirst/frc/team1736/robot/JeVoisInterface.java:312-324 | a packet never contains `{` |
| Framer.ClassifyKeepsTail | JeVoisTest/src/org/usfirst/frc/team1736/robot/JeVoisInterface.java:298-336 | a step only drops a prefix of the buffer; it never invents or reorders text |
| Framer.RunFrom | JeVoisTest/src/org/usfirst/frc/team1736/robot/JeVoisInterface.java:288-343 | the packet loop makes at most `budget` polls, and returns `null` only after using the whole budget |
| Framer.RunPacketNoStart | JeVoisTest/src/org/usfirst/frc/team1736/robot/JeVoisInterface.java:292-342 | a packet returned by the loop contains no `{` |
| Framer.RunNoEnd | JeVoisTest/src/org/usfirst/frc/team1736/robot/JeVoisInterface.java:292-342 | from a buffer without `}`, a loop that does not throw leaves a buffer without `}` |
| Framer.RunKeepsTail | JeVoisTest/src/org/usfirst/frc/team1736/robot/JeVoisInterface.java:292-342 | after the loop, the buffer is a tail of the old buffer followed by everything its polls received |
| Framer.ResyncExample | JeVoisTest/src/org/usfirst/frc/team1736/robot/JeVoisInterface.java:314-321 | `,abc}garbage{1,2` is cut back to `{1,2`, with no packet |
| Framer.ClassifyCutsGarbage | JeVoisTest/src/org/usfirst/frc/team1736/robot/JeVoisInterface.java:314-321 | for any garbage ending in a `}` with no `{` before it, followed by the start of a frame, the buffer is cut back to that `{` and no packet is produced |
| Framer.FrameLosesLastChar | JeVoisTest/src/org/usfirst/frc/team1736/robot/JeVoisInterface.java:324-325 | a buffer ending in a well-formed frame `{body}` yields `body` without its last character, whatever precedes the frame, and is emptied |
| Framer.GarbageThenFrame | JeVoisTest/src/org/usfirst/frc/team1736/robot/JeVoisInterface.java:292-326 | garbage followed by a frame split over two reads yields the frame after two polls, without its last character |
| Framer.ChunkBoundaryMatters | JeVoisTest/src/org/usfirst/frc/team1736/robot/JeVoisInterface.java:298-326 | `{ab}{cd}` in one read yields only `c`; as two reads it yields `a` and then `c` |
| Framer.PacketMayHoldEnd | JeVoisTest/src/org/usfirst/frc/team1736/robot/JeVoisInterface.java:306-324 | `{ab}c}` yields `ab}`: only the last `}` closes a packet |
| Framer.EmptyFrameThrows | JeVoisTest/src/org/usfirst/frc/team1736/robot/JeVoisInterface.java:324 | `{}` makes the extraction throw |
| Ack.HasAck | JeVoisTest/src/org/usfirst/frc/team1736/robot/JeVoisInterface.java:233 | the test that ends a response: the text holds `OK` or `ERR`; AckPersists shows it stays true as text arrives |
| Ack.AckCode | JeVoisTest/src/org/usfirst/frc/team1736/robot/JeVoisInterface.java:262-267 | the verdict on accumulated text, `OK` checked before `ERR`; ScanAnswersMeaning, OkOnlyAcks and ErrOnlyNacks state what each code means |
| Ack.Scan | JeVoisTest/src/org/usfirst/frc/team1736/robot/JeVoisInterface.java:254-276 | `blockAndCheckForOK` as a function of port, stream and budget; ScanCodes, TimeoutIffNoToken and FirstAckFromMinimal pin down its answer and the polls it makes |
| Ack.FirstAckFrom | JeVoisTest/src/org/usfirst/frc/team1736/robot/JeVoisInterface.java:259-273 | the acknowledgment loop makes no fewer polls than it has already made and no more than the budget |
| Ack.FirstAckFromMinimal | JeVoisTest/src/org/usfirst/frc/team1736/robot/JeVoisInterface.java:259-273 | the loop stops after the earliest poll at which a token is present; only the budget stops it otherwise |
| Ack.AckPersists | JeVoisTest/src/org/usfirst/frc/team1736/robot/JeVoisInterface.java:261-265 | once `OK` or `ERR` is in the accumulated text it stays there |
| Ack.ScanCodes | JeVoisTest/src/org/usfirst/frc/team1736/robot/JeVoisInterface.java:254-276 | the answer is always 0, -1 or -2; a null port answers -2 without polling |
| Ack.TimeoutIffNoToken | JeVoisTest/src/org/usfirst/frc/team1736/robot/JeVoisInterface.java:255-273 | on an open port the answer is -2 exactly when nothing received within the budget holds a token, and a timeout uses the whole budget |
| Ack.OkOnlyAcks | JeVoisTest/src/org/usfirst/frc/team1736/robot/JeVoisInterface.java:262-264 | if only `OK` arrives within the budget, the answer is 0 |
| Ack.ErrOnlyNacks | JeVoisTest/src/org/usfirst/frc/team1736/robot/JeVoisInterface.java:265-267 | if only `ERR` arrives within the budget, the answer is -1 |
| Ack.ScanAnswersMeaning | JeVoisTest/src/org/usfirst/frc/team1736/robot/JeVoisInterface.java:262-267 | answer 0 means `OK` was received; answer -1 means `ERR` was received and `OK` was not, since `OK` is checked first |
| Ack.AcksPolls | JeVoisTest/src/org/usfirst/frc/team1736/robot/JeVoisInterface.java:88-97 | the polls consumed by acknowledged commands sent back to back; AcksPollsBound and AcksPollsSplit state its bound and how it composes |
| Ack.AcksPollsBound | JeVoisTest/src/org/usfirst/frc/team1736/robot/JeVoisInterface.java:206-216 | `n` acknowledged commands in a row consume at most `n` acknowledgment windows of polls |
| Ack.AcksPollsSplit | JeVoisTest/src/org/usfirst/frc/team1736/robot/JeVoisInterface.java:206-216 | the polls consumed by `n + m` acknowledged commands are those of the first `n`, plus those of the next `m` on the stream the first `n` left |
| Ack.SplitOkFound | JeVoisTest/src/org/usfirst/frc/team1736/robot/JeVoisInterface.java:261-264 | an `OK` split as `…O` then `K…` over two reads is answered 0 after two polls |
| JeVois.Int32Inc | JeVoisTest/src/org/usfirst/frc/team1736/robot/JeVoisInterface.java:240 | `++loopCount` stays a Java `int`, and adds one below the maximum |
| JeVois.SetupLines | JeVoisTest/src/org/usfirst/frc/team1736/robot/JeVoisInterface.java:88-97 | the three setup lines in the order the constructor writes them; SendSetupCommands and the constructor are proved to write exactly these |
| JeVois.MappingCommand | JeVoisTest/src/org/usfirst/frc/team1736/robot/JeVoisInterface.java:96 | the mapping command is `setmapping 2` |
| JeVois.JeVoisInterface.constructor | JeVoisTest/src/org/usfirst/frc/team1736/robot/JeVoisInterface.java:56-103 | at most ten open attempts; the port opens exactly when one of the first ten attempts succeeds; a null port writes nothing and polls nothing; otherwise `ping` is written; the setup lines are written in order, whatever their answers, and the listener started, exactly when the ping answer is 0; the stream left is one scan past the start after a failed ping, four scans past it after the setup |
| JeVois.JeVoisInterface.PingAndSetUp | JeVoisTest/src/org/usfirst/frc/team1736/robot/JeVoisInterface.java:82-101 | on an open port: the listener starts exactly when the ping answers 0; then `ping` and the three setup lines are written and the stream is four scans further on; otherwise only `ping` is written and the stream is one scan further on |
| JeVois.JeVoisInterface.SetUpAfterPing | JeVoisTest/src/org/usfirst/frc/team1736/robot/JeVoisInterface.java:88-98 | after the ping's scan, the three setup lines are written and the stream is left four scans past where the ping started |
| JeVois.JeVoisInterface.OpenPort | JeVoisTest/src/org/usfirst/frc/team1736/robot/JeVoisInterface.java:57-73 | the retry loop stops at the first attempt that opens the port, after at most ten attempts; every earlier attempt failed |
| JeVois.JeVoisInterface.SendSetupCommands | JeVoisTest/src/org/usfirst/frc/team1736/robot/JeVoisInterface.java:88-98 | writes `setpar serout USB\n`, `setmapping 2\n` and `streamon \n` in that order, whatever their answers, and leaves the stream three acknowledgment scans further on |
| JeVois.JeVoisInterface.Poll | JeVoisTest/src/org/usfirst/frc/team1736/robot/JeVoisInterface.java:229-230 | one poll returns the next chunk of the stream and consumes it |
| JeVois.JeVoisInterface.SendPing | JeVoisTest/src/org/usfirst/frc/team1736/robot/JeVoisInterface.java:161-167 | -1 on a null port with nothing written; otherwise writes `ping\n` and returns the acknowledgment answer |
| JeVois.JeVoisInterface.SetCamVisionProcMode | JeVoisTest/src/org/usfirst/frc/team1736/robot/JeVoisInterface.java:172-177 | on an open port writes the two exposure commands in order and leaves the stream two acknowledgment scans further on; on a null port writes and polls nothing |
| JeVois.JeVoisInterface.SetCamHumanDriverMode | JeVoisTest/src/org/usfirst/frc/team1736/robot/JeVoisInterface.java:182-186 | on an open port writes `setcam autoexp 0\n` and leaves the stream one acknowledgment scan further on; on a null port writes and polls nothing |
| JeVois.JeVoisInterface.SendCmd | JeVoisTest/src/org/usfirst/frc/team1736/robot/JeVoisInterface.java:193-198 | appends the command and a line feed to what was written, and returns the length of the command plus one |
| JeVois.JeVoisInterface.SendCmdAndCheck | JeVoisTest/src/org/usfirst/frc/team1736/robot/JeVoisInterface.java:206-216 | writes the command line and returns the acknowledgment answer unchanged |
| JeVois.JeVoisInterface.BlockAndCheckForOK | JeVoisTest/src/org/usfirst/frc/team1736/robot/JeVoisInterface.java:254-276 | the loop's answer and the polls it consumes are those of `Ack.Scan` |
| JeVois.JeVoisInterface.GetCmdResponseNonBlock | JeVoisTest/src/org/usfirst/frc/team1736/robot/JeVoisInterface.java:226-244 | returns `null` until the accumulator holds `OK` or `ERR`, then the whole accumulated text, and empties the accumulator; `loopCount` becomes 0 on a receive and wraps up by one on an empty poll; the accumulator never keeps a complete response |
| JeVois.JeVoisInterface.Step | JeVoisTest/src/org/usfirst/frc/team1736/robot/JeVoisInterface.java:298-336 | the new buffer and the outcome are `Framer.Classify` of the old buffer with the chunk appended |
| JeVois.JeVoisInterface.Reframe | JeVoisTest/src/org/usfirst/frc/team1736/robot/JeVoisInterface.java:300-336 | the new buffer and the outcome are `Framer.Classify` of the old buffer |
| JeVois.JeVoisInterface.BlockAndGetPacket | JeVoisTest/src/org/usfirst/frc/team1736/robot/JeVoisInterface.java:288-343 | a null port returns `null` and changes nothing; otherwise result, buffer and polls consumed are those of `Framer.RunFrom` |
| Vision.ParseSerial | moduleSrc/CasseroleVision.py:40-46 | the exact-match dispatch; ParseSerialAnswers states it in both directions and ParseSerialAckCode gives the verdict of each reply |
| Vision.Hello | moduleSrc/CasseroleVision.py:56-57 | the greeting for `hello`; AnswerLetters shows it holds no `O` and no `E` |
| Vision.Hi | moduleSrc/CasseroleVision.py:59-60 | the greeting for `Geevoooice`; AnswerLetters shows it holds no `O` and no `E` |
| Vision.SupportedCommands | moduleSrc/CasseroleVision.py:50-52 | the help text; HelpListsHelloOnly shows it names `hello` and not `Geevoooice` |
| Vision.StatusLine | moduleSrc/CasseroleVision.py:32 | `DONE frame <n> \n`; StatusLineRoundTrip, StatusLineNoAck and StatusLineDiscarded state what it carries and how the robot treats it |
| Vision.ParseSerialAnswers | moduleSrc/CasseroleVision.py:40-60 | `hello` and only it gets `Hello from python!`; `Geevoooice` and only it gets `Hi from python!`; every other command gets `ERR: Unsupported command` |
| Vision.ParseSerialAckCode | moduleSrc/CasseroleVision.py:40-60 | the acknowledgment verdict `AckCode` of the reply text alone is -1 for the refusal and -2 for either greeting, because neither greeting holds `OK` or `ERR` |
| Vision.HelpListsHelloOnly | moduleSrc/CasseroleVision.py:50-52 | the constant help text names `hello` and does not name `Geevoooice` |
| Vision.StatusLineRoundTrip | moduleSrc/CasseroleVision.py:32 | the frame number is recovered from `DONE frame <n> \n`, so distinct frames give distinct lines |
| Vision.StatusLineNoAck | moduleSrc/CasseroleVision.py:32 | a status line holds neither `OK` nor `ERR`, so the robot never takes it for an answer |
| Vision.StatusLineDiscarded | moduleSrc/CasseroleVision.py:32 | a status line holds no `{`, so the robot's framer, on a buffer without `{`, empties the buffer and yields nothing |
| Vision.CasseroleVision.constructor | moduleSrc/CasseroleVision.py:11-16 | the frame counter starts at 0 |
| Vision.CasseroleVision.Process | moduleSrc/CasseroleVision.py:20-32 | each call increases the frame counter by exactly one and returns the status line for the new count |

## Left out

- Serial I/O (`SerialPort`, `writeString`, `readString`, `getBytesReceived`) is foreign code. Reads are the `rxStream` field, a list of poll results, and writes are the `txLog` field.
- `Timer.getFPGATimestamp` and `sleep` are a real-time clock. A timeout is modelled as a number of polls, so the model does not capture how long a poll or a sleep takes.
- JeVois.JeVoisInterface.SendCmd: assumes `writeString` writes the whole line, so short writes are not modelled. It also requires an open port: on a null port the Java code throws `NullPointerException`, but every caller checks the port first.
- JeVois.JeVoisInterface.SendCmdAndCheck: requires an open port for the same reason. All of its callers check the port first.
- JeVois.JeVoisInterface.constructor: only the `BROADCAST_USB_CAM == false` branch is modelled, because the constant is `false`. The port is opened once per attempt, and an attempt's success is an input. The 500 ms retry sleep and the console and driver-station messages are not modelled. Starting the listener thread is recorded as the flag `listenerStarted`.
- `startCameraStream` and `stopCameraStream` are USB camera and MJPEG server library calls.
- `backgroundUpdate` and the listener thread are left out. The thread is started as the constructor's last step and first calls `blockAndPrintAllSerial`. From then on it competes for the port with every later call on the object: `SendPing`, the `SetCam` methods, `SendCmdAndCheck`, `BlockAndCheckForOK`, `GetCmdResponseNonBlock` and `BlockAndGetPacket`. The model treats each of these calls as the port's only reader, so it does not capture chunks the listener consumes first.
- `blockAndPrintAllSerial` reads and consumes every chunk it receives and prints it to the console, until its thread is interrupted. Only the listener thread calls it, and that thread is left out as above.
- `parsePacket`, the target getters and `isVisionOnline` are left out. `parsePacket` is empty, and the target fields are never assigned. No field decoder exists to model. `visionOnline` is only written by `backgroundUpdate`, which never gets past `blockAndPrintAllSerial`.
- `PACKET_DILEM_CHAR` and `PACKET_NUM_EXPECTED_FIELDS` are unused by the code.
- The root-level `JeVoisInterface.java` is an early draft of thin write wrappers with no protocol logic. `Robot.java` is the robot program: its `robotInit` constructs the `JeVoisInterface`, which makes it the constructor's only caller, and its other lifecycle hooks are empty.
- `process` in `CasseroleVision` also does image work (`getCvBGR`, `sendCvBGR`), logging (`jevois.LINFO`) and the `sendSerial` call itself. These are vendor-library calls. The model keeps the counter and returns the status line it would send.
- The JeVois engine that forwards a command to `parseSerial` and writes its reply to the serial port is vendor code. Anything it adds around the reply is not modelled, so `Vision.ParseSerialAckCode` speaks of the reply text alone.
- Console output (`System.out`, `printStackTrace`) and `DriverStation` reports have no effect on the protocol state.
