/** The packet framer of `blockAndGetPacket`: one poll's worth of work on
    the persistent `packetBuffer`, and the polling loop that stops at the
    first packet or when the clock expires. This module holds the
    specification as functions; the class `JeVois.JeVoisInterface` runs it
    imperatively on its `packetBuffer` field.

    The code is modelled as written: the packet is cut with
    `substring(startIdx + 1, endIdx - 1)`, which leaves out the character
    just before `}`, and a `{}` with nothing between makes that call throw. */
module Framer {
  import opened Text
  import opened Transport

  const START: char := '{'
  const END: char := '}'

  /** What one pass over the buffer yields: nothing (Java `null` so far), one
      packet, or the `StringIndexOutOfBoundsException` of the extraction. */
  datatype Framed = NoPacket | Packet(body: string) | IndexOutOfBounds

  datatype Framing = Framing(buffer: string, outcome: Framed)

  /** Classifies the buffer after a chunk has been appended: no `{` discards
      everything; a `{` without `}` waits; otherwise the last `}` and the
      last `{` at or before it delimit a packet, and without such a `{` the
      buffer is cut back to its last `{`. */
  function Classify(b: string): Framing {
    if START !in b then Framing("", NoPacket)
    else if END !in b then Framing(b, NoPacket)
    else
      var endIdx := LastIndexOf(b, END);
      var startIdx := LastIndexOfFrom(b, START, endIdx);
      if startIdx == -1 then
        Framing(b[LastIndexOf(b, START)..], NoPacket)
      else if startIdx + 1 > endIdx - 1 then
        Framing(b, IndexOutOfBounds)
      else
        Framing(b[endIdx + 1..], Packet(b[startIdx + 1..endIdx - 1]))
  }

  /** One iteration of the polling loop: an empty poll sleeps and leaves the
      buffer alone; a chunk is appended and the buffer classified. */
  function Feed(buf: string, chunk: string): Framing {
    if chunk == "" then Framing(buf, NoPacket) else Classify(buf + chunk)
  }

  datatype Run = Run(buffer: string, outcome: Framed, polls: nat)

  /** The loop of `blockAndGetPacket` from poll `i` on, with `budget` polls
      allowed before the clock expires: it stops after the first poll that
      yields a packet (or throws) and otherwise times out with `NoPacket`. */
  function RunFrom(buf: string, rx: seq<string>, i: nat, budget: nat): (r: Run)
    ensures i <= budget ==> i <= r.polls <= budget
    ensures i > budget ==> r.polls == i
    ensures r.outcome.NoPacket? && i <= budget ==> r.polls == budget
    decreases budget - i
  {
    if i >= budget then Run(buf, NoPacket, i)
    else
      var s := Feed(buf, PollAt(rx, i));
      if s.outcome.NoPacket? then RunFrom(s.buffer, rx, i + 1, budget)
      else Run(s.buffer, s.outcome, i + 1)
  }

  // ---------------------------------------------------------------------
  // One step, case by case

  /** The last `}` of `b` sits at `e`. */
  predicate LastEndAt(b: string, e: int) {
    0 <= e < |b| && b[e] == END && END !in b[e + 1..]
  }

  /** The `{` at `s` is the last one before position `e`. */
  predicate LastStartBefore(b: string, s: int, e: int) {
    0 <= s < e <= |b| && b[s] == START && START !in b[s + 1..e]
  }

  /** Without a `{` nothing received so far can start a packet and the
      buffer is emptied; with a `{` but no `}` the step waits and keeps the
      buffer whole. Either way no packet is produced. */
  lemma ClassifyIncomplete(b: string)
    ensures START !in b ==> Classify(b) == Framing("", NoPacket)
    ensures START in b && END !in b ==> Classify(b) == Framing(b, NoPacket)
  {
  }

  /** When the buffer holds both delimiters but no packet comes out of it,
      the buffer was cut back: it now starts with `{` and holds no `}`. */
  lemma ClassifyResyncShape(b: string)
    requires START in b && END in b
    ensures Classify(b).outcome.NoPacket? ==>
      var kept := Classify(b).buffer;
      |kept| > 0 && kept[0] == START && END !in kept
  {
    var e := LastIndexOf(b, END);
    var s := LastIndexOfFrom(b, START, e);
    LastIndexOfFromSpec(b, START, e);
    if s == -1 {
      var s2 := LastIndexOf(b, START);
      assert s2 > e;
      NoEndAfterLast(b, s2);
    }
  }

  /** A buffer with a `{`, whose last `}` at `e` is preceded by the `{` at
      `s` with at least one character between: the packet is `b[s+1..e-1]`
      (one character short of the text between the delimiters) and the
      buffer keeps only what follows `e`. */
  lemma ClassifyExtract(b: string, s: int, e: int)
    requires LastEndAt(b, e) && LastStartBefore(b, s, e) && s + 1 < e
    ensures Classify(b) == Framing(b[e + 1..], Packet(b[s + 1..e - 1]))
  {
    LastIndexAt(b, END, e);
    LastIndexFromAt(b, START, s, e);
  }

  /** An adjacent `{}` as the last packet makes the extraction throw, and
      the buffer keeps everything appended so far. */
  lemma ClassifyAdjacentThrows(b: string, s: int)
    requires LastEndAt(b, s + 1) && 0 <= s && b[s] == START
    ensures Classify(b) == Framing(b, IndexOutOfBounds)
  {
    LastIndexAt(b, END, s + 1);
    LastIndexFromAt(b, START, s, s + 1);
  }

  /** No `{` before the last `}` at `e`, but a last `{` at `s` after it: the
      buffer is cut back to start at `s` and nothing is emitted. */
  lemma ClassifyResync(b: string, e: int, s: int)
    requires LastEndAt(b, e) && START !in b[..e]
    requires e < s < |b| && b[s] == START && START !in b[s + 1..]
    ensures Classify(b) == Framing(b[s..], NoPacket)
  {
    LastIndexAt(b, END, e);
    LastIndexAt(b, START, s);
    LastIndexOfFromSpec(b, START, e);
    assert forall j | 0 <= j < e :: b[..e][j] == b[j];
  }

  /** `LastIndexOf` finds the occurrence that no later one follows. */
  lemma LastIndexAt(b: string, c: char, k: int)
    requires 0 <= k < |b| && b[k] == c && c !in b[k + 1..]
    ensures LastIndexOf(b, c) == k
  {
    LastIndexOfIsLast(b, c);
    assert forall j | k < j < |b| :: b[j] == b[k + 1..][j - k - 1];
  }

  /** Nothing from a position past the last `}` on holds a `}`. */
  lemma NoEndAfterLast(b: string, k: int)
    requires LastIndexOf(b, END) < k <= |b|
    ensures END !in b[k..]
  {
    LastIndexOfIsLast(b, END);
    forall j | 0 <= j < |b| - k ensures b[k..][j] != END {
      assert b[k..][j] == b[k + j];
    }
  }

  lemma LastIndexFromAt(b: string, c: char, k: int, from: int)
    requires 0 <= k < from < |b| && b[k] == c && c !in b[k + 1..from] && b[from] != c
    ensures LastIndexOfFrom(b, c, from) == k
  {
    LastIndexOfFromSpec(b, c, from);
    assert forall j | k < j < from :: b[j] == b[k + 1..from][j - k - 1];
  }

  // ---------------------------------------------------------------------
  // What one step guarantees, for every buffer

  /** Unless it throws, a step leaves no `}` in the buffer. */
  lemma ClassifyNoEnd(b: string)
    ensures !Classify(b).outcome.IndexOutOfBounds? ==> END !in Classify(b).buffer
  {
    if START in b && END in b {
      var e := LastIndexOf(b, END);
      var s := LastIndexOfFrom(b, START, e);
      LastIndexOfFromSpec(b, START, e);
      if s == -1 {
        var s2 := LastIndexOf(b, START);
        assert s2 > e;
        NoEndAfterLast(b, s2);
      } else {
        NoEndAfterLast(b, e + 1);
      }
    }
  }

  /** A packet never contains a `{`: its start is the last `{` before the
      closing `}`. */
  lemma ClassifyPacketNoStart(b: string)
    ensures Classify(b).outcome.Packet? ==> START !in Classify(b).outcome.body
  {
    if START in b && END in b {
      var e := LastIndexOf(b, END);
      var s := LastIndexOfFrom(b, START, e);
      LastIndexOfFromSpec(b, START, e);
      if s >= 0 && s + 1 < e {
        var p := b[s + 1..e - 1];
        forall j | 0 <= j < |p| ensures p[j] != START {
          assert p[j] == b[s + 1 + j];
        }
      }
    }
  }

  /** The buffer only ever loses a prefix: what it keeps is the tail of
      what it held. */
  lemma ClassifyKeepsTail(b: string)
    ensures IsTail(Classify(b).buffer, b)
  {
    if START in b && END in b {
      var e := LastIndexOf(b, END);
      var s := LastIndexOfFrom(b, START, e);
      if s == -1 {
        var s2 := LastIndexOf(b, START);
        assert Classify(b).buffer == b[s2..];
      } else if s + 1 <= e - 1 {
        assert Classify(b).buffer == b[e + 1..];
      }
    }
  }

  /** `x` is what remains of `y` after some prefix was dropped. */
  predicate IsTail(x: string, y: string) {
    |x| <= |y| && x == y[|y| - |x|..]
  }

  lemma TailAppend(x: string, y: string, z: string)
    requires IsTail(x, y)
    ensures IsTail(x + z, y + z)
  {
    assert (y + z)[|y| - |x|..] == y[|y| - |x|..] + z;
  }

  // ---------------------------------------------------------------------
  // What the loop guarantees

  /** A packet returned by `blockAndGetPacket` contains no `{`. */
  lemma {:induction false} RunPacketNoStart(buf: string, rx: seq<string>, i: nat, budget: nat)
    ensures RunFrom(buf, rx, i, budget).outcome.Packet? ==>
      START !in RunFrom(buf, rx, i, budget).outcome.body
    decreases budget - i
  {
    if i < budget {
      var chunk := PollAt(rx, i);
      var s := Feed(buf, chunk);
      if chunk != "" {
        ClassifyPacketNoStart(buf + chunk);
      }
      if s.outcome.NoPacket? {
        RunPacketNoStart(s.buffer, rx, i + 1, budget);
      }
    }
  }

  /** Starting from a buffer without `}` (as every run that did not throw
      leaves it), a run that does not throw leaves the buffer without `}`. */
  lemma {:induction false} RunNoEnd(buf: string, rx: seq<string>, i: nat, budget: nat)
    requires END !in buf
    ensures !RunFrom(buf, rx, i, budget).outcome.IndexOutOfBounds? ==>
      END !in RunFrom(buf, rx, i, budget).buffer
    decreases budget - i
  {
    if i < budget {
      var chunk := PollAt(rx, i);
      var s := Feed(buf, chunk);
      if chunk != "" {
        ClassifyNoEnd(buf + chunk);
      }
      if s.outcome.NoPacket? {
        RunNoEnd(s.buffer, rx, i + 1, budget);
      }
    }
  }

  /** Whatever the run leaves in the buffer is a tail of the old buffer
      followed by everything its polls received: the framer drops, it never
      invents or reorders. */
  lemma {:induction false} RunKeepsTail(buf: string, rx: seq<string>, i: nat, budget: nat)
    requires i <= budget
    ensures IsTail(RunFrom(buf, rx, i, budget).buffer,
                   buf + Segment(rx, i, RunFrom(buf, rx, i, budget).polls))
    decreases budget - i
  {
    var r := RunFrom(buf, rx, i, budget);
    if i < budget {
      var chunk := PollAt(rx, i);
      var s := Feed(buf, chunk);
      FeedKeepsTail(buf, chunk);
      SegmentCons(rx, i, r.polls);
      if s.outcome.NoPacket? {
        assert r == RunFrom(s.buffer, rx, i + 1, budget);
        RunKeepsTail(s.buffer, rx, i + 1, budget);
        TailThroughRest(r.buffer, s.buffer, buf, chunk, Segment(rx, i + 1, r.polls));
      } else {
        assert r == Run(s.buffer, s.outcome, i + 1);
        EmptySegment(rx, i + 1);
        assert buf + (chunk + "") == buf + chunk;
      }
    } else {
      assert r == Run(buf, NoPacket, i);
      EmptySegment(rx, i);
      assert buf + "" == buf;
    }
  }

  lemma EmptySegment(rx: seq<string>, i: nat)
    ensures Segment(rx, i, i) == ""
  {
  }

  lemma FeedKeepsTail(buf: string, chunk: string)
    ensures IsTail(Feed(buf, chunk).buffer, buf + chunk)
  {
    if chunk != "" {
      ClassifyKeepsTail(buf + chunk);
    }
  }

  lemma TailThroughRest(x: string, y: string, buf: string, chunk: string, rest: string)
    requires IsTail(x, y + rest) && IsTail(y, buf + chunk)
    ensures IsTail(x, buf + (chunk + rest))
  {
    TailAppend(y, buf + chunk, rest);
    assert buf + (chunk + rest) == (buf + chunk) + rest;
    TailOfTail(x, y + rest, (buf + chunk) + rest);
  }

  lemma TailOfTail(x: string, y: string, z: string)
    requires IsTail(x, y) && IsTail(y, z)
    ensures IsTail(x, z)
  {
    assert z[|z| - |x|..] == z[|z| - |y|..][|y| - |x|..];
  }

  // ---------------------------------------------------------------------
  // Worked inputs

  /** Garbage ending in a `}`, then the start of a new frame: whatever
      preceded the `}` holds no `{`, so the buffer is cut back to the new
      frame's `{` and nothing is emitted. */
  lemma ClassifyCutsGarbage(b: string, pre: string, mid: string, partial: string)
    requires b == pre + [END] + mid + [START] + partial
    requires START !in pre && START !in mid && END !in mid
    requires START !in partial && END !in partial
    ensures Classify(b) == Framing([START] + partial, NoPacket)
  {
    var e := |pre|;
    var s := |pre| + 1 + |mid|;
    assert b[..e] == pre;
    assert b[e + 1..] == mid + [START] + partial;
    assert b[s + 1..] == partial;
    assert b[s..] == [START] + partial;
    ClassifyResync(b, e, s);
  }

  /** The recovery case of the comment in `blockAndGetPacket`: garbage ahead of a
      closing brace, then the start of a new packet. */
  lemma ResyncExample()
    ensures Classify(",abc}garbage{1,2") == Framing("{1,2", NoPacket)
  {
    GarbagePieces(",abc}garbage{1,2", "1,2", "{1,2");
    ClassifyCutsGarbage(",abc}garbage{1,2", ",abc", "garbage", "1,2");
  }

  /** The literal facts the garbage examples rest on. */
  lemma GarbagePieces(b: string, partial: string, kept: string)
    requires b == ",abc}garbage{" + partial && kept == "{" + partial
    requires partial in {"1,2", "0,T"}
    ensures b == ",abc" + [END] + "garbage" + [START] + partial
    ensures START !in ",abc" && START !in "garbage" && END !in "garbage"
    ensures START !in partial && END !in partial
    ensures [START] + partial == kept
  {
  }

  /** A well-formed frame loses its last field character: `{0,...,6}`
      yields `0,...,5`. */
  lemma FrameLosesLastChar(b: string, pre: string, body: string)
    requires b == pre + [START] + body + [END]
    requires |body| >= 1 && START !in body && END !in body
    ensures Classify(b) == Framing("", Packet(body[..|body| - 1]))
  {
    var s := |pre|;
    var e := |pre| + 1 + |body|;
    assert b[e + 1..] == [];
    assert b[s + 1..e] == body;
    assert b[s + 1..e - 1] == body[..|body| - 1];
    ClassifyExtract(b, s, e);
  }

  /** Garbage, then a valid frame arriving in two reads: the first read is
      cut back to the frame's `{`, the second completes it, and the run
      returns the frame minus its last character after two polls. */
  lemma GarbageThenFrame()
    ensures RunFrom("", [",abc}garbage{0,T", ",1,2,3,4,5,6}"], 0, 10) ==
      Run("", Packet("0,T,1,2,3,4,5,"), 2)
  {
    var rx := [",abc}garbage{0,T", ",1,2,3,4,5,6}"];
    GarbageStep();
    assert Feed("", PollAt(rx, 0)) == Framing("{0,T", NoPacket);
    FrameStep();
    assert Feed("{0,T", PollAt(rx, 1)) == Framing("", Packet("0,T,1,2,3,4,5,"));
    assert RunFrom("{0,T", rx, 1, 10) == Run("", Packet("0,T,1,2,3,4,5,"), 2);
  }

  lemma GarbageStep()
    ensures Classify("" + ",abc}garbage{0,T") == Framing("{0,T", NoPacket)
  {
    GarbagePieces("" + ",abc}garbage{0,T", "0,T", "{0,T");
    ClassifyCutsGarbage("" + ",abc}garbage{0,T", ",abc", "garbage", "0,T");
  }

  lemma FrameStep()
    ensures Classify("{0,T" + ",1,2,3,4,5,6}") == Framing("", Packet("0,T,1,2,3,4,5,"))
  {
    FramePieces();
    FrameLosesLastChar("{0,T" + ",1,2,3,4,5,6}", "", "0,T,1,2,3,4,5,6");
  }

  lemma FramePieces()
    ensures "{0,T" + ",1,2,3,4,5,6}" == "" + [START] + "0,T,1,2,3,4,5,6" + [END]
    ensures START !in "0,T,1,2,3,4,5,6" && END !in "0,T,1,2,3,4,5,6"
    ensures "0,T,1,2,3,4,5,6"[..|"0,T,1,2,3,4,5,6"| - 1] == "0,T,1,2,3,4,5,"
  {
  }

  /** Where reads split the stream changes what is framed: two frames in one
      read yield only the later one, in two reads both. */
  lemma ChunkBoundaryMatters()
    ensures Classify("{ab}{cd}") == Framing("", Packet("c"))
    ensures Classify("{ab}") == Framing("", Packet("a"))
    ensures Classify("" + "{cd}") == Framing("", Packet("c"))
  {
    ChunkPieces();
    FrameLosesLastChar("{ab}{cd}", "{ab}", "cd");
    FrameLosesLastChar("{ab}", "", "ab");
    FrameLosesLastChar("" + "{cd}", "", "cd");
  }

  /** The literal facts the chunk-boundary example rests on. */
  lemma ChunkPieces()
    ensures "{ab}{cd}" == "{ab}" + [START] + "cd" + [END]
    ensures "{ab}" == "" + [START] + "ab" + [END]
    ensures "" + "{cd}" == "" + [START] + "cd" + [END]
    ensures START !in "ab" && END !in "ab" && START !in "cd" && END !in "cd"
    ensures "ab"[..1] == "a" && "cd"[..1] == "c"
  {
  }

  /** A `}` inside a packet survives: only the last `}` of the buffer
      closes a packet, so `{ab}c}` yields `ab}`. */
  lemma PacketMayHoldEnd()
    ensures Classify("{ab}c}") == Framing("", Packet("ab}"))
  {
    EndInsidePieces();
    ClassifyExtract("{ab}c}", 0, 5);
  }

  lemma EndInsidePieces()
    ensures LastEndAt("{ab}c}", 5) && LastStartBefore("{ab}c}", 0, 5)
    ensures "{ab}c}"[6..] == "" && "{ab}c}"[1..4] == "ab}"
  {
    var b := "{ab}c}";
    assert b[6..] == [] && b[1..5] == "ab}c";
  }

  /** `{}` makes the extraction throw. */
  lemma EmptyFrameThrows()
    ensures Classify("{}") == Framing("{}", IndexOutOfBounds)
  {
    var b := "{}";
    assert b[1] == END && b[0] == START && b[2..] == [];
    ClassifyAdjacentThrows(b, 0);
  }
}
