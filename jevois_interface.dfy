/** The roboRIO side of the JeVois serial link: the `JeVoisInterface`
    object with its port, its packet buffer and the persistent state of the
    non-blocking response reader, the constructor that brings the link up,
    and the command, acknowledgment and packet loops.

    The serial port is modelled by two fields: `rxStream`, what successive
    polls of the port will return (see module `Transport`), and `txLog`, the
    lines written to it so far. The FPGA clock is replaced by poll budgets:
    a blocking loop with timeout `t` is given the number of polls that fit
    in `t`. */
module JeVois {
  import opened Text
  import opened Transport
  import opened Framer
  import opened Ack
  import opened Wrappers

  /** Open attempts made before giving up on the port. */
  const MAX_OPEN_ATTEMPTS: nat := 10
  /** `NO_STREAM_MAPPING`: the video mapping selected when not streaming. */
  const NO_STREAM_MAPPING: nat := 2

  const INT_MAX: int := 0x7fff_ffff
  const INT_MIN: int := -0x8000_0000

  /** Java's `++x` on an `int`: wraps from the largest to the smallest. */
  function Int32Inc(x: int): (r: int)
    requires INT_MIN <= x <= INT_MAX
    ensures INT_MIN <= r <= INT_MAX
    ensures x < INT_MAX ==> r == x + 1
  {
    if x == INT_MAX then INT_MIN else x + 1
  }

  /** Attempt `k` (counting from 0) to open the port succeeds; attempts past
      the end of `opens` fail. */
  predicate Opens(opens: seq<bool>, k: nat) {
    k < |opens| && opens[k]
  }

  /** The setup lines written after a successful ping, with
      `BROADCAST_USB_CAM` false. */
  function SetupLines(): seq<string> {
    ["setpar serout USB\n", "setmapping 2\n", "streamon \n"]
  }

  class JeVoisInterface {
    /** `visionPort != null`. */
    var portOpen: bool
    /** What the port will return to successive polls. */
    var rxStream: seq<string>
    /** Every line written to the port, in order. */
    var txLog: seq<string>
    /** Polls that fit in the 1.0 s acknowledgment timeout. */
    var ackWindow: nat
    /** Received text not yet framed into a packet. */
    var packetBuffer: string
    /** Accumulator of `getCmdResponseNonBlock`. */
    var getBytesWork: string
    /** Polls since the last non-empty one, for `getCmdResponseNonBlock`. */
    var loopCount: int
    /** `packetListenerThread.start()` has been called. */
    var listenerStarted: bool
    /** Open attempts the constructor made. */
    ghost var openAttempts: nat

    /** The response accumulator never holds a complete response, and the
        idle counter is a Java `int`. */
    ghost predicate Valid()
      reads this
    {
      !HasAck(getBytesWork) && INT_MIN <= loopCount <= INT_MAX
    }

    /** Brings the link up: up to 10 attempts to open the port; on success a
        ping; on an acknowledged ping the fixed setup commands, whatever
        their answers, and then the packet listener. */
    constructor (opens: seq<bool>, rx: seq<string>, ackWindow: nat)
      ensures Valid()
      ensures openAttempts <= MAX_OPEN_ATTEMPTS
      ensures portOpen <==> exists k | 0 <= k < MAX_OPEN_ATTEMPTS :: Opens(opens, k)
      ensures portOpen ==> openAttempts >= 1 && Opens(opens, openAttempts - 1)
      ensures !portOpen ==> openAttempts == MAX_OPEN_ATTEMPTS
      ensures forall k | 0 <= k < openAttempts - 1 :: !Opens(opens, k)
      ensures listenerStarted <==> portOpen && Scan(true, rx, ackWindow).code == OK_CODE
      ensures txLog == if !portOpen then []
                       else if listenerStarted then ["ping\n"] + SetupLines()
                       else ["ping\n"]
      ensures rxStream == Drop(rx, if !portOpen then 0
                                   else AcksPolls(rx, ackWindow, if listenerStarted then 4 else 1))
      ensures this.ackWindow == ackWindow
      ensures packetBuffer == "" && getBytesWork == "" && loopCount == 0
    {
      portOpen := false;
      rxStream := rx;
      txLog := [];
      this.ackWindow := ackWindow;
      packetBuffer := "";
      getBytesWork := "";
      loopCount := 0;
      listenerStarted := false;
      openAttempts := 0;
      new;
      OpenPort(opens);
      if portOpen {
        PingAndSetUp();
      } else {
        assert Drop(rx, 0) == rx;
      }
    }

    /** The part of the constructor after the port opened: a ping, and on an
        acknowledged ping the setup commands and the packet listener. */
    method PingAndSetUp()
      requires portOpen && !listenerStarted
      modifies this`txLog, this`rxStream, this`listenerStarted
      ensures listenerStarted <==> Scan(true, old(rxStream), ackWindow).code == OK_CODE
      ensures listenerStarted ==> txLog == old(txLog) + (["ping\n"] + SetupLines())
      ensures listenerStarted ==> rxStream == Drop(old(rxStream), AcksPolls(old(rxStream), ackWindow, 4))
      ensures !listenerStarted ==> txLog == old(txLog) + ["ping\n"]
      ensures !listenerStarted ==> rxStream == Drop(old(rxStream), AcksPolls(old(rxStream), ackWindow, 1))
    {
      ghost var r0 := rxStream;
      ghost var t0 := txLog;
      var ping := SendPing();
      if ping == OK_CODE {
        SetUpAfterPing(r0);
        assert txLog == t0 + (["ping\n"] + SetupLines());
        listenerStarted := true;
      } else {
        OneScan(r0, ackWindow);
      }
    }

    /** The setup commands sent after the ping's scan on `r0` has stopped:
        the stream is then four scans past `r0`. */
    method SetUpAfterPing(ghost r0: seq<string>)
      requires portOpen && rxStream == Drop(r0, Scan(true, r0, ackWindow).polls)
      modifies this`txLog, this`rxStream
      ensures txLog == old(txLog) + SetupLines()
      ensures rxStream == Drop(r0, AcksPolls(r0, ackWindow, 4))
    {
      SendSetupCommands();
      PingThenSetup(r0, ackWindow);
    }

    /** The retry loop of the constructor: attempts to open the port until
        one succeeds or ten have failed. */
    method OpenPort(opens: seq<bool>)
      requires !portOpen
      modifies this`portOpen, this`openAttempts
      ensures openAttempts <= MAX_OPEN_ATTEMPTS
      ensures portOpen <==> exists k | 0 <= k < MAX_OPEN_ATTEMPTS :: Opens(opens, k)
      ensures portOpen ==> openAttempts >= 1 && Opens(opens, openAttempts - 1)
      ensures !portOpen ==> openAttempts == MAX_OPEN_ATTEMPTS
      ensures forall k | 0 <= k < openAttempts - 1 :: !Opens(opens, k)
    {
      var retryCounter := 0;
      openAttempts := 0;
      while !portOpen && retryCounter < MAX_OPEN_ATTEMPTS
        invariant retryCounter <= MAX_OPEN_ATTEMPTS && openAttempts == retryCounter
        invariant portOpen ==> retryCounter >= 1 && Opens(opens, retryCounter - 1)
        invariant forall k | 0 <= k < retryCounter - 1 :: !Opens(opens, k)
        invariant !portOpen ==> forall k | 0 <= k < retryCounter :: !Opens(opens, k)
      {
        retryCounter := retryCounter + 1;
        openAttempts := retryCounter;
        portOpen := Opens(opens, retryCounter - 1);
      }
    }

    /** The setup block of the constructor, with `BROADCAST_USB_CAM` false:
        the one-time setup commands, sent in order and each awaited,
        whatever its answer. */
    method SendSetupCommands()
      requires portOpen
      modifies this`txLog, this`rxStream
      ensures txLog == old(txLog) + SetupLines()
      ensures rxStream == Drop(old(rxStream), AcksPolls(old(rxStream), ackWindow, 3))
    {
      ghost var t0 := txLog;
      ghost var r0 := rxStream;
      var _ := SendCmdAndCheck("setpar serout USB");
      assert txLog == t0 + ["setpar serout USB\n"] by {
        assert "setpar serout USB" + "\n" == "setpar serout USB\n";
      }
      ghost var t1 := txLog;
      var _ := SendCmdAndCheck(MappingCommand());
      assert txLog == t1 + ["setmapping 2\n"] by {
        assert "setmapping 2" + "\n" == "setmapping 2\n";
      }
      ghost var t2 := txLog;
      var _ := SendCmdAndCheck("streamon ");
      assert txLog == t2 + ["streamon \n"] by {
        assert "streamon " + "\n" == "streamon \n";
      }
      ThreeScans(r0, ackWindow);
    }

    /** One poll of the port: what it returns, removed from the stream. */
    method Poll() returns (chunk: string)
      modifies this`rxStream
      ensures chunk == PollAt(old(rxStream), 0)
      ensures rxStream == Drop(old(rxStream), 1)
    {
      if rxStream == [] {
        chunk := "";
      } else {
        chunk := rxStream[0];
        rxStream := rxStream[1..];
      }
    }

    /** `sendPing`: -1 on a null port, else the answer to "ping". */
    method SendPing() returns (code: int)
      modifies this`txLog, this`rxStream
      ensures !portOpen ==> code == ERR_CODE && txLog == old(txLog) && rxStream == old(rxStream)
      ensures portOpen ==> txLog == old(txLog) + ["ping\n"]
      ensures portOpen ==> code == Scan(true, old(rxStream), ackWindow).code
      ensures portOpen ==> rxStream == Drop(old(rxStream), Scan(true, old(rxStream), ackWindow).polls)
    {
      code := ERR_CODE;
      if portOpen {
        code := SendCmdAndCheck("ping");
        assert "ping" + "\n" == "ping\n";
      }
    }

    /** `setCamVisionProcMode`: on an open port, turns auto exposure off and
        forces a low exposure, ignoring the answers. */
    method SetCamVisionProcMode()
      modifies this`txLog, this`rxStream
      ensures txLog == old(txLog) + (if portOpen then ["setcam autoexp 1\n", "setcam absexp 50\n"] else [])
      ensures rxStream == Drop(old(rxStream), if portOpen then AcksPolls(old(rxStream), ackWindow, 2) else 0)
    {
      if portOpen {
        ghost var r0 := rxStream;
        var _ := SendCmdAndCheck("setcam autoexp 1");
        var _ := SendCmdAndCheck("setcam absexp 50");
        TwoScans(r0, ackWindow);
        assert "setcam autoexp 1" + "\n" == "setcam autoexp 1\n";
        assert "setcam absexp 50" + "\n" == "setcam absexp 50\n";
      }
    }

    /** `setCamHumanDriverMode`: on an open port, turns auto exposure back
        on, ignoring the answer. */
    method SetCamHumanDriverMode()
      modifies this`txLog, this`rxStream
      ensures txLog == old(txLog) + (if portOpen then ["setcam autoexp 0\n"] else [])
      ensures rxStream == Drop(old(rxStream), if portOpen then AcksPolls(old(rxStream), ackWindow, 1) else 0)
    {
      if portOpen {
        var _ := SendCmdAndCheck("setcam autoexp 0");
        OneScan(old(rxStream), ackWindow);
        assert "setcam autoexp 0" + "\n" == "setcam autoexp 0\n";
      }
    }

    /** `sendCmd`: writes the command and a line feed; returns the number
        of characters written. Its callers only reach it with an open port. */
    method SendCmd(cmd: string) returns (bytes: int)
      requires portOpen
      modifies this`txLog
      ensures txLog == old(txLog) + [cmd + "\n"]
      ensures bytes == |cmd| + 1
    {
      var line := cmd + "\n";
      txLog := txLog + [line];
      bytes := |line|;
    }

    /** `sendCmdAndCheck`: writes the command, then returns the verdict of
        `blockAndCheckForOK(1.0)` unchanged. */
    method SendCmdAndCheck(cmd: string) returns (code: int)
      requires portOpen
      modifies this`txLog, this`rxStream
      ensures txLog == old(txLog) + [cmd + "\n"]
      ensures code == Scan(true, old(rxStream), ackWindow).code
      ensures rxStream == Drop(old(rxStream), Scan(true, old(rxStream), ackWindow).polls)
    {
      var _ := SendCmd(cmd);
      code := BlockAndCheckForOK(ackWindow);
    }

    /** `blockAndCheckForOK`: polls until the accumulated text holds "OK"
        (0) or "ERR" (-1), or `budget` polls have passed (-2). */
    method BlockAndCheckForOK(budget: nat) returns (code: int)
      modifies this`rxStream
      ensures code == Scan(portOpen, old(rxStream), budget).code
      ensures rxStream == Drop(old(rxStream), Scan(portOpen, old(rxStream), budget).polls)
    {
      code := TIMEOUT_CODE;
      var testStr := "";
      if portOpen {
        ghost var rx := rxStream;
        var i := 0;
        while i < budget && code == TIMEOUT_CODE
          invariant i <= budget
          invariant rxStream == Drop(rx, i)
          invariant testStr == Segment(rx, 0, i)
          invariant forall j | 0 <= j < i :: !HasAck(Segment(rx, 0, j))
          invariant code == TIMEOUT_CODE ==> !HasAck(testStr)
          invariant code != TIMEOUT_CODE ==> i >= 1 && HasAck(testStr) && code == AckCode(testStr)
        {
          var chunk := Poll();
          DropDrop(rx, i, 1);
          PollAfterDrop(rx, i, 0);
          if chunk != "" {
            testStr := testStr + chunk;
            if Contains(testStr, "OK") {
              code := OK_CODE;
            } else if Contains(testStr, "ERR") {
              code := ERR_CODE;
            }
          }
          i := i + 1;
        }
        FirstAckIs(rx, i, budget);
      }
    }

    /** `getCmdResponseNonBlock`: one poll; a chunk is added to the
        accumulator, and once the accumulator holds "OK" or "ERR" all of it
        is returned and it starts over. Nothing received: `null`, and the
        idle counter goes up. */
    method GetCmdResponseNonBlock() returns (response: Option<string>)
      requires Valid()
      modifies this`getBytesWork, this`loopCount, this`rxStream
      ensures Valid()
      ensures !portOpen ==> response == None && getBytesWork == old(getBytesWork) &&
                            loopCount == old(loopCount) && rxStream == old(rxStream)
      ensures portOpen ==> rxStream == Drop(old(rxStream), 1)
      ensures var chunk := PollAt(old(rxStream), 0);
        portOpen && chunk == "" ==>
          response == None && getBytesWork == old(getBytesWork) && loopCount == Int32Inc(old(loopCount))
      ensures var chunk := PollAt(old(rxStream), 0);
        portOpen && chunk != "" ==>
          loopCount == 0 &&
          (response.Some? <==> HasAck(old(getBytesWork) + chunk)) &&
          (response.Some? ==> response.value == old(getBytesWork) + chunk && getBytesWork == "") &&
          (response.None? ==> getBytesWork == old(getBytesWork) + chunk)
    {
      response := None;
      if portOpen {
        var chunk := Poll();
        if chunk != "" {
          getBytesWork := getBytesWork + chunk;
          if Contains(getBytesWork, "OK") || Contains(getBytesWork, "ERR") {
            response := Some(getBytesWork);
            getBytesWork := "";
          }
          loopCount := 0;
        } else {
          loopCount := Int32Inc(loopCount);
        }
      }
    }

    /** One received chunk in `blockAndGetPacket`: append it to the
        buffer, then look for a packet. */
    method Step(chunk: string) returns (outcome: Framed)
      modifies this`packetBuffer
      ensures Framing(packetBuffer, outcome) == Classify(old(packetBuffer) + chunk)
    {
      packetBuffer := packetBuffer + chunk;
      outcome := Reframe();
    }

    /** The classification in `blockAndGetPacket`: extract the last
        complete packet from the buffer, or cut the buffer back, or wait. */
    method Reframe() returns (outcome: Framed)
      modifies this`packetBuffer
      ensures Framing(packetBuffer, outcome) == Classify(old(packetBuffer))
    {
      var b := packetBuffer;
      var kept := b;
      outcome := NoPacket;
      if START in b {
        if END in b {
          var endIdx := LastIndexOf(b, END);
          var startIdx := LastIndexOfFrom(b, START, endIdx);
          if startIdx == -1 {
            startIdx := LastIndexOf(b, START);
            kept := b[startIdx..];
          } else if startIdx + 1 > endIdx - 1 {
            outcome := IndexOutOfBounds;
          } else {
            outcome := Packet(b[startIdx + 1..endIdx - 1]);
            kept := b[endIdx + 1..];
          }
        }
      } else {
        kept := "";
      }
      assert Framing(kept, outcome) == Classify(b);
      packetBuffer := kept;
    }

    /** `blockAndGetPacket`: polls until one packet is framed (or the
        extraction throws) or `budget` polls have passed; a null port
        returns `null` at once. */
    method BlockAndGetPacket(budget: nat) returns (result: Framed)
      modifies this`packetBuffer, this`rxStream
      ensures !portOpen ==> result == NoPacket && packetBuffer == old(packetBuffer) &&
                            rxStream == old(rxStream)
      ensures var r := RunFrom(old(packetBuffer), old(rxStream), 0, budget);
        portOpen ==> result == r.outcome && packetBuffer == r.buffer &&
                     rxStream == Drop(old(rxStream), r.polls)
    {
      result := NoPacket;
      if portOpen {
        ghost var rx := rxStream;
        ghost var buf := packetBuffer;
        var i := 0;
        while i < budget && result == NoPacket
          invariant i <= budget
          invariant rxStream == Drop(rx, i)
          invariant result == NoPacket ==>
            RunFrom(packetBuffer, rx, i, budget) == RunFrom(buf, rx, 0, budget)
          invariant result != NoPacket ==>
            Run(packetBuffer, result, i) == RunFrom(buf, rx, 0, budget)
          decreases budget - i
        {
          var chunk := Poll();
          DropDrop(rx, i, 1);
          PollAfterDrop(rx, i, 0);
          if chunk != "" {
            result := Step(chunk);
          }
          i := i + 1;
        }
      }
    }
  }

  /** The ping's scan followed by the three setup scans. */
  lemma PingThenSetup(rx: seq<string>, window: nat)
    ensures var p := Scan(true, rx, window).polls;
      Drop(Drop(rx, p), AcksPolls(Drop(rx, p), window, 3)) == Drop(rx, AcksPolls(rx, window, 4))
  {
    var p := Scan(true, rx, window).polls;
    var rest := Drop(rx, p);
    assert AcksPolls(rx, window, 4) == p + AcksPolls(rest, window, 3);
    DropDrop(rx, p, AcksPolls(rest, window, 3));
  }

  /** One scan consumes the polls of that scan. */
  lemma OneScan(rx: seq<string>, window: nat)
    ensures AcksPolls(rx, window, 1) == Scan(true, rx, window).polls
  {
    assert AcksPolls(Drop(rx, Scan(true, rx, window).polls), window, 0) == 0;
  }

  /** Two scans one after the other: the second starts where the first
      stopped. */
  lemma TwoScans(rx: seq<string>, window: nat)
    ensures var r1 := Drop(rx, Scan(true, rx, window).polls);
      Drop(r1, Scan(true, r1, window).polls) == Drop(rx, AcksPolls(rx, window, 2))
  {
    var p0 := Scan(true, rx, window).polls;
    var r1 := Drop(rx, p0);
    var p1 := Scan(true, r1, window).polls;
    OneScan(r1, window);
    assert AcksPolls(rx, window, 2) == p0 + p1;
    DropDrop(rx, p0, p1);
  }

  /** Three scans one after the other, each starting where the previous one
      stopped. */
  lemma ThreeScans(rx: seq<string>, window: nat)
    ensures var r1 := Drop(rx, Scan(true, rx, window).polls);
      var r2 := Drop(r1, Scan(true, r1, window).polls);
      Drop(r2, Scan(true, r2, window).polls) == Drop(rx, AcksPolls(rx, window, 3))
  {
    var p0 := Scan(true, rx, window).polls;
    var r1 := Drop(rx, p0);
    TwoScans(r1, window);
    assert AcksPolls(rx, window, 3) == p0 + AcksPolls(r1, window, 2);
    DropDrop(rx, p0, AcksPolls(r1, window, 2));
  }

  /** `"setmapping " + Integer.toString(NO_STREAM_MAPPING)`. */
  function MappingCommand(): (cmd: string)
    ensures cmd == "setmapping 2"
  {
    "setmapping " + NatToString(NO_STREAM_MAPPING)
  }

}
