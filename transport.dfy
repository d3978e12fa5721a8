/** The serial port as the protocol code sees it. Reads are polls: each
    poll of `getBytesReceived()`/`readString()` either finds nothing or
    returns a chunk of text. A receive stream `rx` lists, in order, what
    successive polls return; "" is a poll that found no bytes, and every
    poll past the end of `rx` finds nothing. */
module Transport {

  /** What the `i`-th poll of the stream returns. */
  function PollAt(rx: seq<string>, i: nat): (chunk: string)
    ensures i >= |rx| ==> chunk == ""
  {
    if i < |rx| then rx[i] else ""
  }

  /** The text delivered by polls `i` up to (excluding) `j`, concatenated. */
  function Segment(rx: seq<string>, i: nat, j: nat): string
    decreases j
  {
    if j <= i then "" else Segment(rx, i, j - 1) + PollAt(rx, j - 1)
  }

  /** Splitting off the first poll of a segment. */
  lemma {:induction false} SegmentCons(rx: seq<string>, i: nat, j: nat)
    requires i < j
    ensures Segment(rx, i, j) == PollAt(rx, i) + Segment(rx, i + 1, j)
  {
    if j > i + 1 {
      SegmentCons(rx, i, j - 1);
    }
  }

  /** Text received so far only grows: an earlier segment is a prefix of a
      later one. */
  lemma {:induction false} SegmentPrefix(rx: seq<string>, i: nat, j: nat, k: nat)
    requires i <= j <= k
    ensures Segment(rx, i, k) == Segment(rx, i, j) + Segment(rx, j, k)
  {
    if k > j {
      SegmentPrefix(rx, i, j, k - 1);
    }
  }

  /** The remainder of the stream after `n` polls have been made. */
  function Drop(rx: seq<string>, n: nat): (rest: seq<string>)
    ensures |rest| == if n <= |rx| then |rx| - n else 0
  {
    if n <= |rx| then rx[n..] else []
  }

  /** After `n` polls, the `i`-th further poll is the `(n + i)`-th one. */
  lemma PollAfterDrop(rx: seq<string>, n: nat, i: nat)
    ensures PollAt(Drop(rx, n), i) == PollAt(rx, n + i)
  {
  }

  /** Polling the rest of a stream continues where the earlier polls
      stopped. */
  lemma DropDrop(rx: seq<string>, n: nat, m: nat)
    ensures Drop(Drop(rx, n), m) == Drop(rx, n + m)
  {
  }
}
