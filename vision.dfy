/** The camera-side module `CasseroleVision`: it answers the custom serial
    commands the JeVois engine forwards to it, and after every processed
    frame it bumps a frame counter and writes a status line to the serial
    port. The answers are tied to what the robot-side code makes of them:
    the acknowledgment scan of `Ack` and the packet framer of `Framer`. */
module Vision {
  import opened Text
  import opened Wrappers
  import opened Ack
  import opened Framer

  const HELLO_COMMAND := "hello"
  const HI_COMMAND := "Geevoooice"
  const UNSUPPORTED := "ERR: Unsupported command"
  const STATUS_PREFIX := "DONE frame "
  const STATUS_SUFFIX := " \n"

  /** The answer to the "hello" command. */
  function Hello(): string {
    "Hello from python!"
  }

  /** The answer to the undocumented "Geevoooice" command. */
  function Hi(): string {
    "Hi from python!"
  }

  /** The help text for the engine's help message. */
  function SupportedCommands(): string {
    "hello - print hello using python"
  }

  /** `parseSerial`: exact comparison against the two known commands. */
  function ParseSerial(command: string): string {
    if command == HELLO_COMMAND then Hello()
    else if command == HI_COMMAND then Hi()
    else UNSUPPORTED
  }

  /** The serial status line written after frame `n` is processed. */
  function StatusLine(n: nat): string {
    STATUS_PREFIX + NatToString(n) + STATUS_SUFFIX
  }

  /** Reads a status line back: the frame number between the fixed prefix
      and suffix, or None when the text is not shaped like one. */
  function ParseStatusLine(line: string): Option<nat> {
    var p := |STATUS_PREFIX|;
    var q := |STATUS_SUFFIX|;
    if |line| < p + 1 + q then None
    else if line[..p] != STATUS_PREFIX || line[|line| - q..] != STATUS_SUFFIX then None
    else
      var digits := line[p..|line| - q];
      if forall i | 0 <= i < |digits| :: '0' <= digits[i] <= '9'
      then Some(ParseDecimal(digits))
      else None
  }

  /** The dispatch: each known command gets its own answer, and every other
      command, including a known one with extra characters, gets the error
      text. */
  lemma ParseSerialAnswers(command: string)
    ensures command == HELLO_COMMAND <==> ParseSerial(command) == "Hello from python!"
    ensures command == HI_COMMAND <==> ParseSerial(command) == "Hi from python!"
    ensures command !in {HELLO_COMMAND, HI_COMMAND} <==>
      ParseSerial(command) == "ERR: Unsupported command"
  {
  }

  /** The acknowledgment verdict of the reply text alone: the refusal
      reads as -1, while the two greetings hold neither "OK" nor "ERR" and
      so read as -2. What the JeVois engine writes around the reply is not
      part of this model. */
  lemma ParseSerialAckCode(command: string)
    ensures AckCode(ParseSerial(command)) ==
      if command in {HELLO_COMMAND, HI_COMMAND} then TIMEOUT_CODE else ERR_CODE
  {
    AnswerLetters();
    var answer := ParseSerial(command);
    NotContainsWithout(answer, "OK", 0);
    if command in {HELLO_COMMAND, HI_COMMAND} {
      NotContainsWithout(answer, "ERR", 0);
    } else {
      assert OccursAt(answer, "ERR", 0);
    }
  }

  /** The letters the answers are made of: no greeting holds an 'O' or an
      'E', and the refusal starts with "ERR" but holds no 'O'. */
  lemma AnswerLetters()
    ensures 'O' !in Hello() && 'E' !in Hello()
    ensures 'O' !in Hi() && 'E' !in Hi()
    ensures 'O' !in UNSUPPORTED && |UNSUPPORTED| >= 3 && UNSUPPORTED[..3] == "ERR"
  {
  }

  /** The help text advertises "hello" and keeps "Geevoooice" hidden. */
  lemma HelpListsHelloOnly()
    ensures Contains(SupportedCommands(), HELLO_COMMAND)
    ensures !Contains(SupportedCommands(), HI_COMMAND)
  {
    HelpLetters();
    assert OccursAt(SupportedCommands(), HELLO_COMMAND, 0);
    NotContainsWithout(SupportedCommands(), HI_COMMAND, 0);
  }

  lemma HelpLetters()
    ensures SupportedCommands()[..5] == HELLO_COMMAND && 'G' !in SupportedCommands()
  {
  }

  /** The frame number is recovered from its status line, so distinct
      frames produce distinct lines. */
  lemma {:induction false} StatusLineRoundTrip(n: nat)
    ensures ParseStatusLine(StatusLine(n)) == Some(n)
  {
    var line := StatusLine(n);
    var p := |STATUS_PREFIX|;
    var q := |STATUS_SUFFIX|;
    assert line[..p] == STATUS_PREFIX;
    assert line[|line| - q..] == STATUS_SUFFIX;
    assert line[p..|line| - q] == NatToString(n);
    ParseNatToString(n);
  }

  /** A status line carries no acknowledgment token, so one arriving while
      the robot awaits an answer is not taken for "OK" or "ERR". */
  lemma StatusLineNoAck(n: nat)
    ensures !HasAck(StatusLine(n))
  {
    var line := StatusLine(n);
    var digits := NatToString(n);
    assert line == STATUS_PREFIX + digits + STATUS_SUFFIX;
    assert 'K' !in digits && 'R' !in digits by {
      forall i | 0 <= i < |digits| ensures digits[i] != 'K' && digits[i] != 'R' {
        assert '0' <= digits[i] <= '9';
      }
    }
    NotContainsWithout(line, "OK", 1);
    NotContainsWithout(line, "ERR", 1);
  }

  /** A status line holds no packet start, so the robot's framer, fed one
      on a buffer without a start, empties its buffer and yields nothing. */
  lemma StatusLineDiscarded(buffer: string, n: nat)
    requires START !in buffer
    ensures Classify(buffer + StatusLine(n)) == Framing("", NoPacket)
  {
    var digits := NatToString(n);
    var b := buffer + StatusLine(n);
    assert b == buffer + STATUS_PREFIX + digits + STATUS_SUFFIX;
    assert START !in digits by {
      forall i | 0 <= i < |digits| ensures digits[i] != START {
        assert '0' <= digits[i] <= '9';
      }
    }
    assert START !in b;
  }

  /** The module object; its one piece of state is the frame counter. */
  class CasseroleVision {
    var frame: nat

    /** `__init__`: no frame has been processed yet. */
    constructor()
      ensures frame == 0
    {
      frame := 0;
    }

    /** The counting part of `process`: the counter moves on by one and the
        status line names the new count. */
    method Process() returns (line: string)
      modifies this
      ensures frame == old(frame) + 1
      ensures line == StatusLine(frame)
      ensures ParseStatusLine(line) == Some(frame)
    {
      frame := frame + 1;
      line := STATUS_PREFIX + NatToString(frame) + STATUS_SUFFIX;
      StatusLineRoundTrip(frame);
    }
  }
}
