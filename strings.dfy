/**
 * The parts of Go's `strings`, `strconv` and `fmt` packages that the drill
 * tool relies on, stated over Dafny strings (`seq<char>`, one char per rune).
 */
module Strings {
  import opened Wrappers

  /** `sep` occurs in `s` starting at position `j`. */
  predicate OccursAt(s: string, sep: string, j: int) {
    0 <= j && j + |sep| <= |s| && s[j..j + |sep|] == sep
  }

  /** First position at or after `from` where `sep` occurs, or -1 (strings.Index). */
  function IndexFrom(s: string, sep: string, from: nat): (r: int)
    requires from <= |s|
    ensures r == -1 || (from <= r && OccursAt(s, sep, r))
    ensures forall j :: from <= j && (r == -1 || j < r) ==> !OccursAt(s, sep, j)
    decreases |s| - from
  {
    if from + |sep| > |s| then -1
    else if s[from..from + |sep|] == sep then from
    else IndexFrom(s, sep, from + 1)
  }

  /** strings.Index: position of the first occurrence of `sep` in `s`, or -1. */
  function Index(s: string, sep: string): (r: int)
    ensures r == -1 || OccursAt(s, sep, r)
    ensures forall j :: 0 <= j && (r == -1 || j < r) ==> !OccursAt(s, sep, j)
  {
    IndexFrom(s, sep, 0)
  }

  /** strings.Contains. */
  predicate Contains(s: string, sep: string) {
    Index(s, sep) >= 0
  }

  /** The one-rune strings of `s`, which is what strings.Split does for an empty separator. */
  function Explode(s: string): (r: seq<string>)
    ensures |r| == |s|
    ensures forall k :: 0 <= k < |s| ==> r[k] == [s[k]]
  {
    if s == [] then [] else [[s[0]]] + Explode(s[1..])
  }

  /**
   * strings.Split: the pieces of `s` between the non-overlapping occurrences
   * of `sep`, scanned left to right; an empty `sep` splits after every rune.
   */
  function Split(s: string, sep: string): seq<string>
    decreases |s|
  {
    if sep == [] then Explode(s)
    else
      var i := Index(s, sep);
      if i < 0 then [s] else [s[..i]] + Split(s[i + |sep|..], sep)
  }

  /** strings.Join. */
  function Join(xs: seq<string>, sep: string): string
  {
    if |xs| == 0 then ""
    else if |xs| == 1 then xs[0]
    else xs[0] + sep + Join(xs[1..], sep)
  }

  lemma {:induction false} JoinExplode(s: string)
    ensures Join(Explode(s), "") == s
  {
    if |s| > 1 {
      JoinExplode(s[1..]);
    }
  }

  /** Splitting and joining back with the same separator gives the string that was split. */
  lemma {:induction false} SplitJoin(s: string, sep: string)
    ensures Join(Split(s, sep), sep) == s
    decreases |s|
  {
    if sep == [] {
      JoinExplode(s);
    } else if Index(s, sep) >= 0 {
      var i := Index(s, sep);
      SplitJoin(s[i + |sep|..], sep);
      SplitJoinStep(s, sep, i);
    }
  }

  /** One step of SplitJoin: the first piece, the separator, and the rest joined back. */
  lemma SplitJoinStep(s: string, sep: string, i: int)
    requires sep != [] && 0 <= i == Index(s, sep)
    requires Join(Split(s[i + |sep|..], sep), sep) == s[i + |sep|..]
    ensures Join(Split(s, sep), sep) == s
  {
    var rest := s[i + |sep|..];
    var parts := Split(rest, sep);
    assert Split(s, sep) == [s[..i]] + parts;
    SplitNonEmpty(rest, sep);
    JoinCons(s[..i], parts, sep);
    assert s[i..i + |sep|] == sep;
    assert s == s[..i] + s[i..i + |sep|] + rest;
  }

  /** Split never returns an empty list for a non-empty separator. */
  lemma SplitNonEmpty(s: string, sep: string)
    requires sep != []
    ensures |Split(s, sep)| >= 1
  {
  }

  /** Split yields exactly one piece iff the separator does not occur (a one-rune string for an empty separator). */
  lemma SplitSingleton(s: string, sep: string)
    ensures |Split(s, sep)| == 1 <==> (if sep == [] then |s| == 1 else !Contains(s, sep))
    ensures sep != [] && !Contains(s, sep) ==> Split(s, sep) == [s]
  {
    if sep != [] && Contains(s, sep) {
      SplitNonEmpty(s[Index(s, sep) + |sep|..], sep);
    }
  }

  /**
   * What strings.Split followed by strings.Join of the tail computes: with at
   * least two pieces, the first piece is the text before the first separator
   * and joining the others gives the text after it.
   */
  lemma SplitFirst(s: string, sep: string)
    requires |Split(s, sep)| >= 2
    ensures Split(s, sep)[0] + sep + Join(Split(s, sep)[1..], sep) == s
    ensures sep != [] ==> Split(s, sep)[0] == s[..Index(s, sep)]
  {
    var parts := Split(s, sep);
    SplitJoin(s, sep);
    assert Join(parts, sep) == parts[0] + sep + Join(parts[1..], sep);
  }

  /** The text before the first occurrence of `sep` does not contain it. */
  lemma PrefixFree(s: string, sep: string, i: int)
    requires sep != [] && 0 <= i <= |s|
    requires forall j :: 0 <= j < i ==> !OccursAt(s, sep, j)
    ensures !Contains(s[..i], sep)
  {
    var p := s[..i];
    var r := Index(p, sep);
    if r >= 0 {
      assert p[r..r + |sep|] == s[r..r + |sep|];
      assert OccursAt(s, sep, r);
    }
  }

  /** For a non-empty separator, no piece of Split contains it. */
  lemma {:induction false} SplitPiecesFree(s: string, sep: string, k: int)
    requires sep != [] && 0 <= k < |Split(s, sep)|
    ensures !Contains(Split(s, sep)[k], sep)
    decreases |s|
  {
    var i := Index(s, sep);
    if i < 0 {
      assert Split(s, sep) == [s];
    } else if k == 0 {
      assert Split(s, sep)[0] == s[..i];
      PrefixFree(s, sep, i);
    } else {
      var rest := Split(s[i + |sep|..], sep);
      assert Split(s, sep) == [s[..i]] + rest;
      assert Split(s, sep)[k] == rest[k - 1];
      SplitPiecesFree(s[i + |sep|..], sep, k - 1);
    }
  }

  // ---------------------------------------------------------------------
  // Splitting on a single character
  // ---------------------------------------------------------------------

  /** `c` does not occur in `s`. */
  predicate Free(s: string, c: char) {
    forall j :: 0 <= j < |s| ==> s[j] != c
  }

  lemma OccursAtChar(s: string, c: char, j: int)
    ensures OccursAt(s, [c], j) <==> 0 <= j < |s| && s[j] == c
  {
    if 0 <= j < |s| { assert s[j..j + 1] == [s[j]]; }
  }

  /** strings.Index of a character is the position of its first occurrence. */
  lemma IndexCharIs(s: string, c: char, i: int)
    requires 0 <= i < |s| && s[i] == c && Free(s[..i], c)
    ensures Index(s, [c]) == i
  {
    OccursAtChar(s, c, i);
    forall j | 0 <= j < i ensures !OccursAt(s, [c], j) {
      OccursAtChar(s, c, j);
      assert s[..i][j] == s[j];
    }
    var r := Index(s, [c]);
    if r != -1 && r != i {
      OccursAtChar(s, c, r);
    }
  }

  /** What strings.Index reports about a character, position by position. */
  lemma IndexCharFacts(s: string, c: char)
    ensures Index(s, [c]) == -1 <==> Free(s, c)
    ensures Index(s, [c]) >= 0 ==> s[Index(s, [c])] == c && Free(s[..Index(s, [c])], c)
  {
    var r := Index(s, [c]);
    if r >= 0 {
      OccursAtChar(s, c, r);
      forall j | 0 <= j < r ensures s[..r][j] != c {
        OccursAtChar(s, c, j);
      }
    } else {
      forall j | 0 <= j < |s| ensures s[j] != c {
        OccursAtChar(s, c, j);
      }
    }
    if Free(s, c) && r >= 0 {
      OccursAtChar(s, c, r);
    }
  }

  /** A string without the separator character is a single piece. */
  lemma SplitFree(s: string, c: char)
    requires Free(s, c)
    ensures Split(s, [c]) == [s]
  {
    IndexCharFacts(s, c);
  }

  /** Splitting at the first occurrence of the separator character. */
  lemma SplitCharAt(s: string, c: char, i: int)
    requires 0 <= i < |s| && s[i] == c && Free(s[..i], c)
    ensures Split(s, [c]) == [s[..i]] + Split(s[i + 1..], [c])
  {
    IndexCharIs(s, c, i);
  }

  /** Splitting `a c b` on the single character `c` splits `a` and `b` separately. */
  lemma {:induction false} SplitAppendChar(a: string, c: char, b: string)
    ensures Split(a + [c] + b, [c]) == Split(a, [c]) + Split(b, [c])
    decreases |a|
  {
    IndexCharFacts(a, c);
    var i := Index(a, [c]);
    if i < 0 {
      SplitAppendFree(a, c, b);
    } else {
      SplitAppendChar(a[i + 1..], c, b);
      SplitAppendAt(a, c, b, i);
    }
  }

  lemma SplitAppendFree(a: string, c: char, b: string)
    requires Free(a, c)
    ensures Split(a + [c] + b, [c]) == [a] + Split(b, [c])
  {
    var s := a + [c] + b;
    assert s[..|a|] == a && s[|a| + 1..] == b;
    SplitCharAt(s, c, |a|);
    SplitFree(a, c);
  }

  lemma SplitAppendAt(a: string, c: char, b: string, i: int)
    requires 0 <= i < |a| && a[i] == c && Free(a[..i], c)
    requires Split(a[i + 1..] + [c] + b, [c]) == Split(a[i + 1..], [c]) + Split(b, [c])
    ensures Split(a + [c] + b, [c]) == Split(a, [c]) + Split(b, [c])
  {
    var s := a + [c] + b;
    var rest := a[i + 1..];
    assert s[..i] == a[..i] && s[i + 1..] == rest + [c] + b by {
      TakeConcat(a + [c], b, i);
      TakeConcat(a, [c], i);
      DropConcat(a + [c], b, i + 1);
      DropConcat(a, [c], i + 1);
    }
    SplitCharAt(s, c, i);
    SplitCharAt(a, c, i);
    ConcatAssoc([a[..i]], Split(rest, [c]), Split(b, [c]));
  }

  lemma ConcatAssoc<T>(x: seq<T>, y: seq<T>, z: seq<T>)
    ensures x + (y + z) == (x + y) + z
  {
  }

  lemma TakeConcat<T>(a: seq<T>, b: seq<T>, i: nat)
    requires i <= |a|
    ensures (a + b)[..i] == a[..i]
  {
  }

  lemma SliceSnoc<T>(s: seq<T>, i: nat, j: nat)
    requires i <= j < |s|
    ensures s[i..j + 1] == s[i..j] + [s[j]]
  {
  }

  lemma DropConcat<T>(a: seq<T>, b: seq<T>, i: nat)
    requires i <= |a|
    ensures (a + b)[i..] == a[i..] + b
  {
  }

  /** Splitting what Join built, when no piece holds the separator, gives back the pieces. */
  lemma {:induction false} SplitJoinedPieces(ps: seq<string>, c: char)
    requires |ps| >= 1
    requires forall k :: 0 <= k < |ps| ==> Free(ps[k], c)
    ensures Split(Join(ps, [c]), [c]) == ps
  {
    SplitFree(ps[0], c);
    if |ps| > 1 {
      SplitJoinedPieces(ps[1..], c);
      SplitAppendChar(ps[0], c, Join(ps[1..], [c]));
    }
  }

  lemma JoinCons(x: string, xs: seq<string>, sep: string)
    requires xs != []
    ensures Join([x] + xs, sep) == x + sep + Join(xs, sep)
  {
    assert ([x] + xs)[1..] == xs;
  }

  /** strings.HasPrefix. */
  predicate HasPrefix(s: string, prefix: string) {
    |prefix| <= |s| && s[..|prefix|] == prefix
  }

  /** strings.TrimPrefix: drops `prefix` once if `s` starts with it. */
  function TrimPrefix(s: string, prefix: string): (r: string)
    ensures HasPrefix(s, prefix) ==> prefix + r == s
    ensures !HasPrefix(s, prefix) ==> r == s
  {
    if HasPrefix(s, prefix) then s[|prefix|..] else s
  }

  /** strings.Trim(s, " "): drops the leading and trailing spaces. */
  function TrimSpaces(s: string): (r: string)
    ensures |r| <= |s|
    ensures r != [] ==> r[0] != ' ' && r[|r| - 1] != ' '
    decreases |s|
  {
    if s == [] then s
    else if s[0] == ' ' then TrimSpaces(s[1..])
    else if s[|s| - 1] == ' ' then TrimSpaces(s[..|s| - 1])
    else s
  }

  /** strings.Repeat for a non-negative count. */
  function Repeat(pattern: string, count: nat): (r: string)
    ensures |r| == |pattern| * count
  {
    if count == 0 then "" else pattern + Repeat(pattern, count - 1)
  }

  // ---------------------------------------------------------------------
  // Decimal numbers: fmt's %d and strconv.Atoi, on unbounded integers.
  // ---------------------------------------------------------------------

  predicate IsDigit(c: char) {
    '0' <= c <= '9'
  }

  predicate AllDigits(s: string) {
    forall k :: 0 <= k < |s| ==> IsDigit(s[k])
  }

  function DigitChar(d: nat): (c: char)
    requires d < 10
    ensures IsDigit(c)
  {
    ('0' as int + d) as char
  }

  function DigitValue(c: char): (d: nat)
    requires IsDigit(c)
    ensures d < 10 && DigitChar(d) == c
  {
    (c as int - '0' as int) as nat
  }

  /** The value of a string of decimal digits, most significant first. */
  function DigitsValue(s: string): nat
    requires AllDigits(s)
  {
    if s == [] then 0 else DigitsValue(s[..|s| - 1]) * 10 + DigitValue(s[|s| - 1])
  }

  /** The decimal form of a natural number, without leading zeros. */
  function NatToDecimal(n: nat): (r: string)
    ensures |r| >= 1 && AllDigits(r)
  {
    if n < 10 then [DigitChar(n)] else NatToDecimal(n / 10) + [DigitChar(n % 10)]
  }

  /** fmt's %d (and strconv.Itoa): a minus sign for negative values, then the digits. */
  function IntToDecimal(i: int): string {
    if i < 0 then "-" + NatToDecimal(-i) else NatToDecimal(i)
  }

  lemma {:induction false} NatToDecimalValue(n: nat)
    ensures DigitsValue(NatToDecimal(n)) == n
  {
    if n >= 10 {
      NatToDecimalValue(n / 10);
      DigitsValueSnoc(NatToDecimal(n / 10), DigitChar(n % 10));
    }
  }

  /** Appending a digit multiplies the value by ten and adds the digit. */
  lemma DigitsValueSnoc(s: string, c: char)
    requires AllDigits(s) && IsDigit(c)
    ensures AllDigits(s + [c]) && DigitsValue(s + [c]) == DigitsValue(s) * 10 + DigitValue(c)
  {
    assert (s + [c])[..|s|] == s;
  }

  /** A string of `k` zero digits. */
  function Zeros(k: nat): (r: string)
    ensures |r| == k && AllDigits(r)
    ensures forall j :: 0 <= j < k ==> r[j] == '0'
  {
    if k == 0 then "" else "0" + Zeros(k - 1)
  }

  /** Leading zeros do not change the value of a digit string. */
  lemma {:induction false} LeadingZeros(k: nat, s: string)
    requires AllDigits(s)
    ensures AllDigits(Zeros(k) + s) && DigitsValue(Zeros(k) + s) == DigitsValue(s)
    decreases |s|
  {
    var z := Zeros(k) + s;
    assert AllDigits(z) by {
      forall j | 0 <= j < |z| ensures IsDigit(z[j]) {
        if j >= k { assert z[j] == s[j - k]; }
      }
    }
    if s == [] {
      assert z == Zeros(k);
      ZerosValue(k);
    } else {
      var init := s[..|s| - 1];
      LeadingZeros(k, init);
      assert z[..|z| - 1] == Zeros(k) + init;
    }
  }

  lemma {:induction false} ZerosValue(k: nat)
    ensures DigitsValue(Zeros(k)) == 0
  {
    if k > 0 {
      var z := Zeros(k);
      assert z[..k - 1] == Zeros(k - 1) by {
        assert forall j :: 0 <= j < k - 1 ==> z[j] == '0';
      }
      ZerosValue(k - 1);
    }
  }

  /**
   * strconv.Atoi over unbounded integers: an optional '+' or '-' followed by
   * at least one decimal digit; anything else is an error (None).
   */
  function Atoi(s: string): Option<int>
  {
    if s == [] then None
    else if s[0] == '+' || s[0] == '-' then
      var body := s[1..];
      if body == [] || !AllDigits(body) then None
      else
        var v: int := DigitsValue(body);
        if s[0] == '-' then Some(-v) else Some(v)
    else if AllDigits(s) then Some(DigitsValue(s))
    else None
  }

  /** Reading back the decimal form of any integer gives the integer (strconv.Atoi after %d). */
  lemma AtoiIntToDecimal(i: int)
    ensures Atoi(IntToDecimal(i)) == Some(i)
  {
    var n: nat := if i < 0 then -i else i;
    var d := NatToDecimal(n);
    NatToDecimalValue(n);
    AtoiSigned(d);
  }

  /** Atoi reads an unsigned or a '-'-signed string of digits. */
  lemma AtoiSigned(d: string)
    requires d != [] && AllDigits(d)
    ensures Atoi(d) == Some(DigitsValue(d) as int)
    ensures Atoi("-" + d) == Some(-(DigitsValue(d) as int))
  {
    var t := "-" + d;
    assert t[0] == '-' && t[1..] == d;
    assert IsDigit(d[0]);
  }

  // ---------------------------------------------------------------------
  // Byte length: Go's len on a string counts UTF-8 bytes, not runes.
  // ---------------------------------------------------------------------

  /** Number of bytes in the UTF-8 encoding of one rune. */
  function Utf8RuneLen(c: char): (n: nat)
    ensures 1 <= n <= 4
  {
    if c as int < 0x80 then 1
    else if c as int < 0x800 then 2
    else if c as int < 0x10000 then 3
    else 4
  }

  /** Go's len(s): the number of bytes of the UTF-8 encoding of `s`. */
  function ByteLen(s: string): (n: nat)
    ensures |s| <= n <= 4 * |s|
  {
    if s == [] then 0 else ByteLen(s[..|s| - 1]) + Utf8RuneLen(s[|s| - 1])
  }
}
