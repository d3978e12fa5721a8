/** Acknowledgment scanning: after a command line is written,
    `blockAndCheckForOK` polls the port, appends every chunk to a scratch
    string and stops at the first poll after which that string holds "OK"
    (answer 0) or, failing that, "ERR" (answer -1); when the clock expires
    first, or the port is null, the answer is -2. This module states that
    behaviour as functions over the receive stream; the class
    `JeVois.JeVoisInterface` runs the loop. */
module Ack {
  import opened Text
  import opened Transport

  const OK_CODE: int := 0
  const ERR_CODE: int := -1
  const TIMEOUT_CODE: int := -2

  /** The accumulated text holds one of the two acknowledgment tokens. */
  predicate HasAck(s: string) {
    Contains(s, "OK") || Contains(s, "ERR")
  }

  /** The verdict on accumulated text: "OK" is looked for first. */
  function AckCode(s: string): int {
    if Contains(s, "OK") then OK_CODE
    else if Contains(s, "ERR") then ERR_CODE
    else TIMEOUT_CODE
  }

  /** The number of polls the loop makes: the first `k` in `[i, budget]`
      after which the received text holds a token, or the whole budget. */
  function FirstAckFrom(rx: seq<string>, i: nat, budget: nat): (k: nat)
    requires i <= budget
    ensures i <= k <= budget
    decreases budget - i
  {
    if i == budget || HasAck(Segment(rx, 0, i)) then i
    else FirstAckFrom(rx, i + 1, budget)
  }

  /** The loop stops at the earliest poll after which a token is present,
      and only the budget stops it otherwise. */
  lemma {:induction false} FirstAckFromMinimal(rx: seq<string>, i: nat, budget: nat)
    requires i <= budget
    ensures forall j | i <= j < FirstAckFrom(rx, i, budget) :: !HasAck(Segment(rx, 0, j))
    ensures FirstAckFrom(rx, i, budget) < budget ==> HasAck(Segment(rx, 0, FirstAckFrom(rx, i, budget)))
    decreases budget - i
  {
    if i < budget && !HasAck(Segment(rx, 0, i)) {
      FirstAckFromMinimal(rx, i + 1, budget);
      assert FirstAckFrom(rx, i, budget) == FirstAckFrom(rx, i + 1, budget);
    }
  }

  datatype AckResult = AckResult(code: int, polls: nat)

  /** `blockAndCheckForOK` with `budget` polls before the timeout, on a port
      that is open or null. */
  function Scan(open: bool, rx: seq<string>, budget: nat): AckResult {
    if !open then AckResult(TIMEOUT_CODE, 0)
    else
      var k := FirstAckFrom(rx, 0, budget);
      AckResult(AckCode(Segment(rx, 0, k)), k)
  }

  /** The polls consumed by `n` acknowledgment scans made one after the
      other on an open port, each with a window of `window` polls and each
      starting where the previous one stopped. */
  function AcksPolls(rx: seq<string>, window: nat, n: nat): nat
    decreases n
  {
    if n == 0 then 0
    else
      var p := Scan(true, rx, window).polls;
      p + AcksPolls(Drop(rx, p), window, n - 1)
  }

  /** `n` successive scans never consume more than their `n` windows. */
  lemma {:induction false} AcksPollsBound(rx: seq<string>, window: nat, n: nat)
    ensures AcksPolls(rx, window, n) <= n * window
    decreases n
  {
    if n > 0 {
      var p := FirstAckFrom(rx, 0, window);
      var rest := Drop(rx, p);
      AcksPollsBound(rest, window, n - 1);
      assert AcksPolls(rx, window, n) == p + AcksPolls(rest, window, n - 1);
      assert n * window == (n - 1) * window + window;
    }
  }

  /** `n + m` successive scans are `n` scans followed by `m` more on what
      the first `n` left of the stream. */
  lemma {:induction false} AcksPollsSplit(rx: seq<string>, window: nat, n: nat, m: nat)
    ensures AcksPolls(rx, window, n + m) ==
      AcksPolls(rx, window, n) + AcksPolls(Drop(rx, AcksPolls(rx, window, n)), window, m)
    decreases n
  {
    if n == 0 {
      assert Drop(rx, 0) == rx;
    } else {
      var p := Scan(true, rx, window).polls;
      var rest := Drop(rx, p);
      var q := AcksPolls(rest, window, n - 1);
      assert AcksPolls(rx, window, n) == p + q;
      calc {
        AcksPolls(rx, window, n + m);
        p + AcksPolls(rest, window, n - 1 + m);
        { AcksPollsSplit(rest, window, n - 1, m); }
        p + (q + AcksPolls(Drop(rest, q), window, m));
        { DropDrop(rx, p, q); }
        p + q + AcksPolls(Drop(rx, p + q), window, m);
      }
    }
  }

  /** The first poll after which a token is present is where the loop stops. */
  lemma FirstAckIs(rx: seq<string>, k: nat, budget: nat)
    requires k <= budget
    requires forall j | 0 <= j < k :: !HasAck(Segment(rx, 0, j))
    requires k < budget ==> HasAck(Segment(rx, 0, k))
    requires k == budget || HasAck(Segment(rx, 0, k))
    ensures FirstAckFrom(rx, 0, budget) == k
  {
    FirstAckFromMinimal(rx, 0, budget);
  }

  /** Once received, a token stays in the accumulated text. */
  lemma AckPersists(rx: seq<string>, j: nat, k: nat)
    requires j <= k
    ensures Contains(Segment(rx, 0, j), "OK") ==> Contains(Segment(rx, 0, k), "OK")
    ensures Contains(Segment(rx, 0, j), "ERR") ==> Contains(Segment(rx, 0, k), "ERR")
  {
    SegmentPrefix(rx, 0, j, k);
    var later := Segment(rx, j, k);
    assert Segment(rx, 0, k) == "" + Segment(rx, 0, j) + later;
    if Contains(Segment(rx, 0, j), "OK") {
      ContainsExtend(Segment(rx, 0, j), "OK", "", later);
    }
    if Contains(Segment(rx, 0, j), "ERR") {
      ContainsExtend(Segment(rx, 0, j), "ERR", "", later);
    }
  }

  /** Every answer is one of the three documented codes, and a null port
      never polls. */
  lemma ScanCodes(open: bool, rx: seq<string>, budget: nat)
    ensures Scan(open, rx, budget).code in {OK_CODE, ERR_CODE, TIMEOUT_CODE}
    ensures Scan(open, rx, budget).polls <= budget
    ensures !open ==> Scan(open, rx, budget) == AckResult(TIMEOUT_CODE, 0)
  {
  }

  /** On an open port the answer is a timeout exactly when nothing received
      within the budget holds a token; a timeout uses the whole budget. */
  lemma {:induction false} TimeoutIffNoToken(rx: seq<string>, budget: nat)
    ensures Scan(true, rx, budget).code == TIMEOUT_CODE <==> !HasAck(Segment(rx, 0, budget))
    ensures Scan(true, rx, budget).code == TIMEOUT_CODE ==> Scan(true, rx, budget).polls == budget
  {
    var k := FirstAckFrom(rx, 0, budget);
    FirstAckFromMinimal(rx, 0, budget);
    AckPersists(rx, k, budget);
  }

  /** If only "OK" arrives within the budget, the answer is 0. */
  lemma {:induction false} OkOnlyAcks(rx: seq<string>, budget: nat)
    requires Contains(Segment(rx, 0, budget), "OK")
    requires !Contains(Segment(rx, 0, budget), "ERR")
    ensures Scan(true, rx, budget).code == OK_CODE
  {
    var k := FirstAckFrom(rx, 0, budget);
    FirstAckFromMinimal(rx, 0, budget);
    AckPersists(rx, k, budget);
  }

  /** If only "ERR" arrives within the budget, the answer is -1. */
  lemma {:induction false} ErrOnlyNacks(rx: seq<string>, budget: nat)
    requires Contains(Segment(rx, 0, budget), "ERR")
    requires !Contains(Segment(rx, 0, budget), "OK")
    ensures Scan(true, rx, budget).code == ERR_CODE
  {
    var k := FirstAckFrom(rx, 0, budget);
    FirstAckFromMinimal(rx, 0, budget);
    AckPersists(rx, k, budget);
  }

  /** A -1 answer means the poll that stopped the loop completed an "ERR"
      while no "OK" had arrived; a 0 answer means an "OK" had arrived. */
  lemma ScanAnswersMeaning(rx: seq<string>, budget: nat)
    ensures var r := Scan(true, rx, budget);
      r.code == ERR_CODE ==>
        Contains(Segment(rx, 0, r.polls), "ERR") && !Contains(Segment(rx, 0, r.polls), "OK")
    ensures var r := Scan(true, rx, budget);
      r.code == OK_CODE ==> Contains(Segment(rx, 0, r.polls), "OK")
  {
    FirstAckFromMinimal(rx, 0, budget);
  }

  /** An "OK" split across two reads ("...O" then "K...") is still found,
      because the search runs over the concatenation. */
  lemma {:induction false} SplitOkFound(a: string, b: string, budget: nat)
    requires |a| >= 1 && a[|a| - 1] == 'O' && |b| >= 1 && b[0] == 'K'
    requires !HasAck(a) && budget >= 2
    ensures Scan(true, [a, b], budget) == AckResult(OK_CODE, 2)
  {
    var rx := [a, b];
    TwoReads(rx, a, b);
    assert !HasAck(Segment(rx, 0, 0)) by {
      NotContainsWithout("", "OK", 0);
      NotContainsWithout("", "ERR", 0);
    }
    assert Contains(Segment(rx, 0, 2), "OK") by {
      ContainsAcross(a, b, "OK", 1);
    }
    FirstAckIs(rx, 2, budget);
  }

  /** The received text after none, one and both of two reads. */
  lemma TwoReads(rx: seq<string>, a: string, b: string)
    requires rx == [a, b]
    ensures Segment(rx, 0, 0) == "" && Segment(rx, 0, 1) == a && Segment(rx, 0, 2) == a + b
  {
    assert Segment(rx, 0, 1) == Segment(rx, 0, 0) + PollAt(rx, 0);
    assert Segment(rx, 0, 2) == Segment(rx, 0, 1) + PollAt(rx, 1);
  }
}
