/**
 * The padding arithmetic of `tools/display.go`: getRepeatedPattern, the
 * space padding of Summary and the dot leaders of Success and Failure.
 * Colours are not modelled; what is written is the plain text.
 */
module Display {
  import opened Strings
  import opened Arith

  /** Repeat(pattern, count)[j] is the pattern's character at j modulo its length. */
  lemma {:induction false} RepeatAt(pattern: string, count: nat, j: nat)
    requires j < |pattern| * count
    ensures |pattern| > 0 && Repeat(pattern, count)[j] == pattern[j % |pattern|]
    decreases count
  {
    var n := |pattern|;
    assert n > 0 && count > 0;
    if j < n {
      DivModUnique(j, n, 0, j);
    } else {
      assert n * (count - 1) == n * count - n;
      RepeatAt(pattern, count - 1, j - n);
      DivModUnique(j, n, (j - n) / n + 1, (j - n) % n);
    }
  }

  /**
   * getRepeatedPattern: the pattern max - limit times when max > limit,
   * and the pattern exactly once otherwise, so that it is never empty for
   * a non-empty pattern.
   */
  function RepeatedPattern(pattern: string, max: int, limit: int): (s: string)
    ensures max <= limit ==> s == pattern
    ensures |s| == |pattern| * (if max > limit then max - limit else 1)
    ensures pattern != [] ==> |pattern| <= |s|
    ensures forall j :: 0 <= j < |s| ==> s[j] == pattern[j % |pattern|]
  {
    if max > limit then
      MulMono(1, max - limit, |pattern|);
      forall j | 0 <= j < |pattern| * (max - limit)
        ensures Repeat(pattern, max - limit)[j] == pattern[j % |pattern|]
      {
        RepeatAt(pattern, max - limit, j);
      }
      Repeat(pattern, max - limit)
    else
      assert forall j :: 0 <= j < |pattern| ==> j % |pattern| == j by {
        forall j | 0 <= j < |pattern| ensures j % |pattern| == j {
          DivModUnique(j, |pattern|, 0, j);
        }
      }
      pattern
  }

  // ---------------------------------------------------------------------
  // Summary
  // ---------------------------------------------------------------------

  /** Go's len of concatenated strings is the sum of the lengths. */
  lemma {:induction false} ByteLenAppend(a: string, b: string)
    ensures ByteLen(a + b) == ByteLen(a) + ByteLen(b)
    decreases |b|
  {
    if b != [] {
      var ab := a + b;
      assert ab[..|ab| - 1] == a + b[..|b| - 1];
      assert ab[|ab| - 1] == b[|b| - 1];
      ByteLenAppend(a, b[..|b| - 1]);
    } else {
      assert a + b == a;
    }
  }

  /** A string of spaces is as long in bytes as in runes. */
  lemma {:induction false} ByteLenSpaces(s: string)
    requires forall j :: 0 <= j < |s| ==> s[j] == ' '
    ensures ByteLen(s) == |s|
    decreases |s|
  {
    if s != [] {
      ByteLenSpaces(s[..|s| - 1]);
    }
  }

  /** The longest message, in bytes; 0 for none. */
  function Longest(msgs: seq<string>): (n: nat)
    ensures forall k :: 0 <= k < |msgs| ==> ByteLen(msgs[k]) <= n
    ensures msgs == [] ==> n == 0
  {
    if msgs == [] then 0
    else
      var n := Longest(msgs[..|msgs| - 1]);
      var last := ByteLen(msgs[|msgs| - 1]);
      if last > n then last else n
  }

  /** Some message is as long as the longest. */
  lemma {:induction false} LongestAttained(msgs: seq<string>)
    requires msgs != []
    ensures exists k :: 0 <= k < |msgs| && ByteLen(msgs[k]) == Longest(msgs)
  {
    var init := msgs[..|msgs| - 1];
    if init != [] && Longest(msgs) != ByteLen(msgs[|msgs| - 1]) {
      LongestAttained(init);
      var k :| 0 <= k < |init| && ByteLen(init[k]) == Longest(init);
      assert msgs[k] == init[k];
    }
  }

  /** The line Summary writes for `t` when the longest message has `longest` bytes. */
  function SummaryLine(t: string, longest: nat): string {
    t + RepeatedPattern(" ", longest, ByteLen(t)) + "\n"
  }

  /** The lines Summary writes for `msgs`, in order. */
  function SummaryLines(msgs: seq<string>, longest: nat): (r: seq<string>)
    ensures |r| == |msgs|
    ensures forall k :: 0 <= k < |msgs| ==> r[k] == SummaryLine(msgs[k], longest)
  {
    if msgs == [] then []
    else SummaryLines(msgs[..|msgs| - 1], longest) + [SummaryLine(msgs[|msgs| - 1], longest)]
  }

  /**
   * Summary: the longest message is found by a first loop, then every
   * message is written on its own line, padded with spaces.
   */
  method Summary(msgs: seq<string>) returns (lines: seq<string>)
    ensures lines == SummaryLines(msgs, Longest(msgs))
    ensures |lines| == |msgs|
    ensures forall k :: 0 <= k < |msgs| ==> lines[k] == SummaryLine(msgs[k], Longest(msgs))
  {
    var longuest := 0;
    for i := 0 to |msgs|
      invariant longuest == Longest(msgs[..i])
    {
      assert msgs[..i + 1][..i] == msgs[..i];
      var t := msgs[i];
      if ByteLen(t) > longuest {
        longuest := ByteLen(t);
      }
    }
    lines := [];
    assert msgs[..0] == [];
    for i := 0 to |msgs|
      invariant lines == SummaryLines(msgs[..i], longuest)
    {
      assert msgs[..i + 1][..i] == msgs[..i];
      var t := msgs[i];
      var additionalSpaces := RepeatedPattern(" ", longuest, ByteLen(t));
      lines := lines + [t + additionalSpaces + "\n"];
    }
    assert msgs[..|msgs|] == msgs;
  }

  /**
   * Every Summary line but the newline is `longest` bytes wide when its
   * message is shorter than the longest, and one byte wider for the
   * longest messages, which still get one space.
   */
  lemma SummaryWidth(msgs: seq<string>, k: nat)
    requires k < |msgs|
    ensures var line := SummaryLine(msgs[k], Longest(msgs));
      && line[..|line| - 1] == msgs[k] + RepeatedPattern(" ", Longest(msgs), ByteLen(msgs[k]))
      && ByteLen(line[..|line| - 1]) == if ByteLen(msgs[k]) < Longest(msgs) then Longest(msgs) else Longest(msgs) + 1
  {
    var t := msgs[k];
    var pad := RepeatedPattern(" ", Longest(msgs), ByteLen(t));
    var line := SummaryLine(t, Longest(msgs));
    assert line[..|line| - 1] == t + pad;
    forall j | 0 <= j < |pad| ensures pad[j] == ' ' {
      assert j % 1 == 0;
    }
    ByteLenSpaces(pad);
    ByteLenAppend(t, pad);
  }

  // ---------------------------------------------------------------------
  // Success and Failure
  // ---------------------------------------------------------------------

  /** The width the dot leaders fill up to. */
  const LineWidth: int := 80

  /** The dot leader after `msg`: 80 minus its rune count dots, at least one. */
  function Dots(msg: string): (d: string)
    ensures |d| == if |msg| < LineWidth then LineWidth - |msg| else 1
    ensures forall j :: 0 <= j < |d| ==> d[j] == '.'
  {
    var d := RepeatedPattern(".", LineWidth, |msg|);
    assert forall j :: 0 <= j < |d| ==> j % 1 == 0;
    d
  }

  /**
   * What Success and Failure write, without colours: the message, a space
   * and the dot leader, then the status between brackets and a newline.
   */
  function StatusLine(msg: string, status: string): (r: (string, string))
    ensures |r.0| == if |msg| < LineWidth then LineWidth + 1 else |msg| + 2
    ensures r.0[..|msg|] == msg && r.0[|msg|] == ' '
    ensures r.1 == "[" + status + "]\n"
  {
    (msg + " " + Dots(msg), "[" + status + "]\n")
  }

  /** Below 80 runes, every message puts its status bracket at the same column. */
  lemma StatusAligned(msg1: string, msg2: string, s1: string, s2: string)
    requires |msg1| < LineWidth && |msg2| < LineWidth
    ensures |StatusLine(msg1, s1).0| == |StatusLine(msg2, s2).0|
  {
  }
}
