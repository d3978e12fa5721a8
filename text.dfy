/** Java/Python string primitives the protocol code relies on: substring
    search (`String.contains`), backwards character search
    (`String.lastIndexOf`, with and without a start index), and decimal
    rendering of naturals (Python's `str(n)`). Strings are `seq<char>`. */
module Text {

  /** `t` occurs in `s` starting at index `i`. */
  predicate OccursAt(s: string, t: string, i: nat) {
    i + |t| <= |s| && s[i..i + |t|] == t
  }

  /** `s.contains(t)`: some window of `s` equals `t`. */
  predicate Contains(s: string, t: string) {
    exists i: nat | i <= |s| - |t| :: OccursAt(s, t, i)
  }

  /** A token present in `s` is still present after more text arrives on
      either side: an accumulator never loses a token. */
  lemma ContainsExtend(s: string, t: string, pre: string, post: string)
    requires Contains(s, t)
    ensures Contains(pre + s + post, t)
  {
    var i: nat :| i <= |s| - |t| && OccursAt(s, t, i);
    var w := pre + s + post;
    var j := |pre| + i;
    assert w[j..j + |t|] == s[i..i + |t|];
    assert OccursAt(w, t, j);
  }

  /** A token split over two reads, its first `k` characters ending the
      first read and the rest starting the second, is found in their
      concatenation. */
  lemma ContainsAcross(a: string, b: string, t: string, k: nat)
    requires k <= |t| && k <= |a| && |t| - k <= |b|
    requires a[|a| - k..] == t[..k] && b[..|t| - k] == t[k..]
    ensures Contains(a + b, t)
  {
    var w := a + b;
    var i := |a| - k;
    assert w[i..i + |t|] == a[|a| - k..] + b[..|t| - k];
    assert t == t[..k] + t[k..];
    assert OccursAt(w, t, i);
  }

  /** A string lacking any one character of `t` cannot contain `t`. */
  lemma NotContainsWithout(s: string, t: string, k: nat)
    requires k < |t| && t[k] !in s
    ensures !Contains(s, t)
  {
    forall i: nat | i <= |s| - |t| ensures !OccursAt(s, t, i) {
      assert i + |t| <= |s| ==> s[i..i + |t|][k] == s[i + k];
    }
  }

  /** `s.lastIndexOf(c)`: the index of the last `c` in `s`, or -1. */
  function LastIndexOf(s: string, c: char): (r: int)
    ensures -1 <= r < |s|
    ensures r == -1 <==> c !in s
    ensures r >= 0 ==> s[r] == c
  {
    if |s| == 0 then -1
    else if s[|s| - 1] == c then |s| - 1
    else
      var r := LastIndexOf(s[..|s| - 1], c);
      assert s == s[..|s| - 1] + [s[|s| - 1]];
      r
  }

  /** No `c` follows the one `lastIndexOf(c)` finds. */
  lemma {:induction false} LastIndexOfIsLast(s: string, c: char)
    ensures var r := LastIndexOf(s, c);
      r >= 0 ==> forall j | r < j < |s| :: s[j] != c
  {
    if |s| > 0 && s[|s| - 1] != c {
      var t := s[..|s| - 1];
      LastIndexOfIsLast(t, c);
      var r := LastIndexOf(t, c);
      assert LastIndexOf(s, c) == r;
      if r >= 0 {
        forall j | r < j < |s| ensures s[j] != c {
          if j < |s| - 1 {
            assert s[j] == t[j];
          }
        }
      }
    }
  }

  /** `s.lastIndexOf(c, from)`: the last `c` at an index no greater than
      `from`, or -1; a `from` past the end searches the whole string and a
      negative `from` finds nothing. */
  function LastIndexOfFrom(s: string, c: char, from: int): (r: int)
    ensures -1 <= r < |s|
    ensures r >= 0 ==> r <= from && s[r] == c
  {
    if from < 0 then -1
    else
      var n := if from + 1 < |s| then from + 1 else |s|;
      LastIndexOf(s[..n], c)
  }

  /** What `lastIndexOf(c, from)` finds: -1 exactly when no `c` sits at or
      before `from`, and otherwise the last such `c`. */
  lemma LastIndexOfFromSpec(s: string, c: char, from: int)
    ensures LastIndexOfFrom(s, c, from) == -1 <==>
      forall j | 0 <= j < |s| && j <= from :: s[j] != c
    ensures var r := LastIndexOfFrom(s, c, from);
      r >= 0 ==> forall j | r < j < |s| && j <= from :: s[j] != c
  {
    if from >= 0 {
      var n := if from + 1 < |s| then from + 1 else |s|;
      var t := s[..n];
      var r := LastIndexOf(t, c);
      assert LastIndexOfFrom(s, c, from) == r;
      if r == -1 {
        forall j | 0 <= j < |s| && j <= from ensures s[j] != c {
          assert t[j] == s[j];
        }
      } else {
        assert s[r] == c;
        LastIndexOfIsLast(t, c);
        forall j | r < j < |s| && j <= from ensures s[j] != c {
          assert t[j] == s[j];
        }
      }
    }
  }

  /** Python's `str(n)` for a natural number: decimal digits, no leading
      zero. */
  function NatToString(n: nat): (r: string)
    ensures |r| >= 1
    ensures forall i | 0 <= i < |r| :: '0' <= r[i] <= '9'
    ensures |r| > 1 ==> r[0] != '0'
  {
    if n < 10 then [Digit(n)]
    else NatToString(n / 10) + [Digit(n % 10)]
  }

  function Digit(d: nat): (c: char)
    requires d < 10
    ensures '0' <= c <= '9' && DigitValue(c) == d
  {
    (48 + d) as char
  }

  function DigitValue(c: char): nat
    requires '0' <= c <= '9'
  {
    c as nat - 48
  }

  /** Reads a non-empty string of decimal digits back as a number. */
  function ParseDecimal(s: string): nat
    requires |s| >= 1 && forall i | 0 <= i < |s| :: '0' <= s[i] <= '9'
  {
    if |s| == 1 then DigitValue(s[0])
    else ParseDecimal(s[..|s| - 1]) * 10 + DigitValue(s[|s| - 1])
  }

  /** Decimal rendering is invertible, so distinct numbers render
      differently. */
  lemma {:induction false} ParseNatToString(n: nat)
    ensures ParseDecimal(NatToString(n)) == n
  {
    if n >= 10 {
      var r := NatToString(n);
      assert r[..|r| - 1] == NatToString(n / 10);
      ParseNatToString(n / 10);
    }
  }
}
