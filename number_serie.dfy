/**
 * The lesson-number series of `parsing/number-serie.go`: a string such as
 * "1:3:1,5,7:9" is validated and expanded into the list of integers it
 * denotes. Commas separate independent groups; inside a group, colons chain
 * ranges that run up or down.
 */
module NumberSerie {
  import opened Wrappers
  import opened Strings

  // ---------------------------------------------------------------------
  // Validation (containsOnlyAllowedCharacters)
  // ---------------------------------------------------------------------

  /**
   * `s` is a non-empty run of digits and separators from `seps` that starts
   * and ends with a digit and never has two separators side by side.
   */
  predicate Tokens(s: string, seps: set<char>) {
    && |s| >= 1 && IsDigit(s[0]) && IsDigit(s[|s| - 1])
    && (forall k :: 0 <= k < |s| ==> IsDigit(s[k]) || s[k] in seps)
    && (forall k :: 0 <= k < |s| - 1 ==> s[k] in seps ==> IsDigit(s[k + 1]))
  }

  predicate NoDigitSeparators(seps: set<char>) {
    forall c :: c in seps ==> !IsDigit(c)
  }

  /**
   * containsOnlyAllowedCharacters: the regular expression
   * ^([0-9]+([,:][0-9]+)*)+$ accepts exactly the digit runs separated by
   * single ',' or ':' characters.
   */
  predicate ContainsOnlyAllowedCharacters(s: string) {
    Tokens(s, {',', ':'})
  }

  /** The accepted and rejected strings of the validator's test table. */
  lemma AllowedExamples()
    ensures ContainsOnlyAllowedCharacters("1")
    ensures ContainsOnlyAllowedCharacters("1:4")
    ensures ContainsOnlyAllowedCharacters("1,2:5,10")
    ensures !ContainsOnlyAllowedCharacters("1:")
    ensures !ContainsOnlyAllowedCharacters(":1")
    ensures !ContainsOnlyAllowedCharacters("1s")
    ensures !ContainsOnlyAllowedCharacters(":")
  {
    assert !IsDigit('s');
  }

  /** Dropping a separator that does not occur keeps a token string a token string. */
  lemma TokensWithout(s: string, seps: set<char>, c: char)
    requires Tokens(s, seps) && Free(s, c)
    ensures Tokens(s, seps - {c})
  {
  }

  /** The text before a separator is a token string. */
  lemma TokensPrefix(s: string, seps: set<char>, i: int)
    requires Tokens(s, seps) && NoDigitSeparators(seps)
    requires 0 <= i < |s| && s[i] in seps
    ensures Tokens(s[..i], seps)
  {
    assert i >= 1;
    var p := s[..i];
    assert p[|p| - 1] == s[i - 1];
    forall j | 0 <= j < |p| ensures p[j] == s[j] { }
  }

  /** The text after a separator is a token string. */
  lemma TokensSuffix(s: string, seps: set<char>, i: int)
    requires Tokens(s, seps) && NoDigitSeparators(seps)
    requires 0 <= i < |s| && s[i] in seps
    ensures Tokens(s[i + 1..], seps)
  {
    var rest := s[i + 1..];
    assert IsDigit(rest[0]);
    assert rest[|rest| - 1] == s[|s| - 1];
    forall j | 0 <= j < |rest| ensures rest[j] == s[i + 1 + j] { }
  }

  /**
   * Splitting a token string on one of its separators gives pieces that are
   * token strings over the remaining separators.
   */
  lemma {:induction false} TokensSplit(s: string, seps: set<char>, c: char, k: int)
    requires Tokens(s, seps) && c in seps && NoDigitSeparators(seps)
    requires 0 <= k < |Split(s, [c])|
    ensures Tokens(Split(s, [c])[k], seps - {c})
    decreases |s|
  {
    IndexCharFacts(s, c);
    var i := Index(s, [c]);
    if i < 0 {
      SplitFree(s, c);
      TokensWithout(s, seps, c);
    } else {
      SplitCharAt(s, c, i);
      if k == 0 {
        TokensPrefix(s, seps, i);
        TokensWithout(s[..i], seps, c);
      } else {
        TokensSuffix(s, seps, i);
        TokensSplit(s[i + 1..], seps, c, k - 1);
      }
    }
  }

  /** Every ':' piece of every ',' group of an accepted serie is a non-empty string of digits. */
  lemma AllowedPieces(s: string, g: int, k: int)
    requires ContainsOnlyAllowedCharacters(s)
    requires 0 <= g < |Split(s, ",")|
    requires 0 <= k < |Split(Split(s, ",")[g], ":")|
    ensures var p := Split(Split(s, ",")[g], ":")[k]; p != [] && AllDigits(p)
  {
    TokensSplit(s, {',', ':'}, ',', g);
    assert {',', ':'} - {','} == {':'};
    TokensSplit(Split(s, ",")[g], {':'}, ':', k);
  }

  // ---------------------------------------------------------------------
  // Expansion (the specification of ParseNumberSerie)
  // ---------------------------------------------------------------------

  /** strconv.Atoi with its error ignored, as the source does: a malformed number reads as 0. */
  function AtoiOrZero(s: string): int {
    match Atoi(s)
    case Some(v) => v
    case None => 0
  }

  /** The numbers written in the ':' pieces of one group. */
  function Numbers(pieces: seq<string>): (r: seq<int>)
    ensures |r| == |pieces|
    ensures forall k :: 0 <= k < |pieces| ==> r[k] == AtoiOrZero(pieces[k])
  {
    seq(|pieces|, k requires 0 <= k < |pieces| => AtoiOrZero(pieces[k]))
  }

  /** Every integer from `from` to `to` inclusive, counting up or down. */
  function Segment(from: int, to: int): (r: seq<int>)
    ensures |r| >= 1 && r[0] == from && r[|r| - 1] == to
    decreases if from <= to then to - from else from - to
  {
    if from == to then [from]
    else if from < to then [from] + Segment(from + 1, to)
    else [from] + Segment(from - 1, to)
  }

  /**
   * Where the k-th range of a chain starts: the first range starts at its
   * left number, later ones one step past the shared endpoint.
   */
  function Start(nums: seq<int>, k: nat): int
    requires k + 1 < |nums|
  {
    if k >= 1 then (if nums[k] > nums[k + 1] then nums[k] - 1 else nums[k] + 1)
    else nums[k]
  }

  /** The ranges of a ':' chain from its k-th number on; an equal pair ends the chain. */
  function ChainFrom(nums: seq<int>, k: nat): seq<int>
    decreases |nums| - k
  {
    if k + 1 >= |nums| then []
    else if nums[k] == nums[k + 1] then []
    else Segment(Start(nums, k), nums[k + 1]) + ChainFrom(nums, k + 1)
  }

  /** A group of one number stands for itself; a longer one is a chain of ranges. */
  function GroupExpansion(nums: seq<int>): seq<int> {
    if |nums| == 1 then [nums[0]] else ChainFrom(nums, 0)
  }

  function ExpandGroup(group: string): seq<int> {
    GroupExpansion(Numbers(Split(group, ":")))
  }

  /** The expansion of each group, in the order the groups are written. */
  function Expansions(groups: seq<string>): (r: seq<seq<int>>)
    ensures |r| == |groups|
  {
    seq(|groups|, k requires 0 <= k < |groups| => ExpandGroup(groups[k]))
  }

  /** The lists of a sequence of lists, one after the other. */
  function Flatten(xss: seq<seq<int>>): seq<int> {
    if xss == [] then [] else Flatten(xss[..|xss| - 1]) + xss[|xss| - 1]
  }

  /** The expansions of the groups, concatenated in the order the groups are written. */
  function ExpandGroups(groups: seq<string>): seq<int> {
    Flatten(Expansions(groups))
  }

  /** The integers an accepted serie denotes, or None for a rejected one. */
  function ExpandSerie(s: string): Option<seq<int>> {
    if ContainsOnlyAllowedCharacters(s) then Some(ExpandGroups(Split(s, ","))) else None
  }

  // ---------------------------------------------------------------------
  // ParseNumberSerie
  // ---------------------------------------------------------------------

  /**
   * ParseNumberSerie: a rejected serie gives an error and an empty list;
   * an accepted one gives its expansion and no error.
   */
  method ParseNumberSerie(serie: string) returns (out: seq<int>, err: Option<string>)
    ensures err.Some? <==> !ContainsOnlyAllowedCharacters(serie)
    ensures err.Some? ==> out == []
    ensures err.None? ==> ExpandSerie(serie) == Some(out)
  {
    if !ContainsOnlyAllowedCharacters(serie) {
      return [], Some("the serie entered contained unauthorized characters");
    }
    out, err := [], None;
    var splitted := Split(serie, ",");
    var i := 0;
    while i < |splitted|
      invariant 0 <= i <= |splitted|
      invariant out == Flatten(Expansions(splitted)[..i])
    {
      var contiguous := Split(splitted[i], ":");
      if |contiguous| == 1 {
        var n := AtoiOrZero(contiguous[0]);
        out := out + [n];
      } else {
        out := AppendChain(out, contiguous);
      }
      assert Expansions(splitted)[..i + 1][..i] == Expansions(splitted)[..i];
      i := i + 1;
    }
    assert Expansions(splitted)[..i] == Expansions(splitted);
  }

  /**
   * The inner loop of ParseNumberSerie over the ':' pieces of one group: each
   * adjacent pair adds its range, and an equal pair leaves the group (the
   * source's `goto nextRound`).
   */
  method AppendChain(out0: seq<int>, contiguous: seq<string>) returns (out: seq<int>)
    ensures out == out0 + ChainFrom(Numbers(contiguous), 0)
  {
    var nums := Numbers(contiguous);
    out := AppendChainFrom(out0, nums);
  }

  /** The pair loop itself, over the numbers the pieces read as. */
  method AppendChainFrom(out0: seq<int>, nums: seq<int>) returns (out: seq<int>)
    ensures out == out0 + ChainFrom(nums, 0)
  {
    out := out0;
    if |nums| < 2 {
      return;
    }
    var k := 0;
    while k < |nums| - 1
      invariant 0 <= k <= |nums| - 1
      invariant out + ChainFrom(nums, k) == out0 + ChainFrom(nums, 0)
    {
      var min := nums[k];
      var max := nums[k + 1];
      if min == max {
        break;
      }
      if k >= 1 {
        if min > max {
          min := min - 1;
        } else {
          min := min + 1;
        }
      }
      assert min == Start(nums, k);
      ChainStep(nums, k);
      ghost var prev, seg, rest := out, Segment(min, max), ChainFrom(nums, k + 1);
      out := AppendRange(out, min, max);
      AppendAssoc(prev, seg, rest);
      k := k + 1;
    }
  }

  /** The two counting loops of ParseNumberSerie: append min..max, downwards when min > max. */
  method AppendRange(out0: seq<int>, min: int, max: int) returns (out: seq<int>)
    ensures out == out0 + Segment(min, max)
  {
    out := out0;
    if min > max {
      var j := min;
      while j >= max
        invariant max - 1 <= j <= min
        invariant j >= max ==> out0 + Segment(min, max) == out + Segment(j, max)
        invariant j < max ==> out0 + Segment(min, max) == out
      {
        SegmentFirst(j, max);
        out := out + [j];
        j := j - 1;
      }
    } else {
      var j := min;
      while j <= max
        invariant min <= j <= max + 1
        invariant j <= max ==> out0 + Segment(min, max) == out + Segment(j, max)
        invariant j > max ==> out0 + Segment(min, max) == out
      {
        SegmentFirst(j, max);
        out := out + [j];
        j := j + 1;
      }
    }
  }

  lemma AppendAssoc(a: seq<int>, b: seq<int>, c: seq<int>)
    ensures (a + b) + c == a + (b + c)
  {
  }

  /** One step of a chain whose k-th and (k+1)-th numbers differ. */
  lemma ChainStep(nums: seq<int>, k: nat)
    requires k + 1 < |nums| && nums[k] != nums[k + 1]
    ensures ChainFrom(nums, k) == Segment(Start(nums, k), nums[k + 1]) + ChainFrom(nums, k + 1)
  {
  }

  /** A range is its first number followed by the rest of the range. */
  lemma SegmentFirst(from: int, to: int)
    ensures from == to ==> Segment(from, to) == [from]
    ensures from < to ==> Segment(from, to) == [from] + Segment(from + 1, to)
    ensures from > to ==> Segment(from, to) == [from] + Segment(from - 1, to)
  {
  }

  // ---------------------------------------------------------------------
  // Properties of the expansion
  // ---------------------------------------------------------------------

  lemma {:induction false} FlattenAppend(xs: seq<seq<int>>, ys: seq<seq<int>>)
    ensures Flatten(xs + ys) == Flatten(xs) + Flatten(ys)
    decreases |ys|
  {
    if ys == [] {
      assert xs + ys == xs;
    } else {
      var xys := xs + ys;
      assert xys[..|xys| - 1] == xs + ys[..|ys| - 1];
      FlattenAppend(xs, ys[..|ys| - 1]);
    }
  }

  /** Groups written one after the other expand one after the other. */
  lemma ExpandGroupsAppend(x: seq<string>, y: seq<string>)
    ensures ExpandGroups(x + y) == ExpandGroups(x) + ExpandGroups(y)
  {
    assert Expansions(x + y) == Expansions(x) + Expansions(y);
    FlattenAppend(Expansions(x), Expansions(y));
  }

  /** The groups of a serie written with ',' between groups free of ',' are expanded one by one. */
  lemma ExpandJoinedGroups(gs: seq<string>)
    requires |gs| >= 1
    requires forall k :: 0 <= k < |gs| ==> Free(gs[k], ',')
    requires ContainsOnlyAllowedCharacters(Join(gs, ","))
    ensures ExpandSerie(Join(gs, ",")) == Some(ExpandGroups(gs))
  {
    SplitJoinedPieces(gs, ',');
  }

  /** A group written as its ':' pieces expands to the chain of the numbers they read as. */
  lemma ExpandJoinedPieces(ps: seq<string>)
    requires |ps| >= 1
    requires forall k :: 0 <= k < |ps| ==> Free(ps[k], ':')
    ensures ExpandGroup(Join(ps, ":")) == GroupExpansion(Numbers(ps))
  {
    SplitJoinedPieces(ps, ':');
  }

  /** Atoi of a plain digit string is its value. */
  lemma AtoiDigits(s: string)
    requires s != [] && AllDigits(s)
    ensures AtoiOrZero(s) == DigitsValue(s)
  {
    assert IsDigit(s[0]);
  }

  /** A lone number stands for itself. */
  lemma LoneNumber(s: string)
    requires s != [] && AllDigits(s)
    ensures ExpandSerie(s) == Some([DigitsValue(s)])
  {
    assert Free(s, ',') && Free(s, ':');
    assert ContainsOnlyAllowedCharacters(s);
    OneGroup(s);
    SplitFree(s, ':');
    assert Split(s, ":") == [s];
    AtoiDigits(s);
    assert Numbers([s]) == [DigitsValue(s)];
  }

  /** Two token strings joined by one of their separators form a token string. */
  lemma TokensConcat(a: string, b: string, seps: set<char>, c: char)
    requires Tokens(a, seps) && Tokens(b, seps) && c in seps && NoDigitSeparators(seps)
    ensures Tokens(a + [c] + b, seps)
  {
    var s := a + [c] + b;
    forall k | 0 <= k < |s| ensures IsDigit(s[k]) || s[k] in seps {
      if k < |a| { assert s[k] == a[k]; }
      else if k > |a| { assert s[k] == b[k - |a| - 1]; }
    }
    forall k | 0 <= k < |s| - 1 && s[k] in seps ensures IsDigit(s[k + 1]) {
      if k < |a| - 1 { assert s[k] == a[k] && s[k + 1] == a[k + 1]; }
      else if k == |a| { assert s[k + 1] == b[0]; }
      else if k > |a| { assert s[k] == b[k - |a| - 1] && s[k + 1] == b[k - |a|]; }
    }
    assert s[|s| - 1] == b[|b| - 1];
    assert s[|a| - 1] == a[|a| - 1];
  }

  /**
   * Comma groups are expanded independently: two accepted series joined by
   * ',' form an accepted serie whose expansion is the first expansion
   * followed by the second.
   */
  lemma CommaConcatenation(a: string, b: string)
    requires ContainsOnlyAllowedCharacters(a) && ContainsOnlyAllowedCharacters(b)
    ensures ContainsOnlyAllowedCharacters(a + "," + b)
    ensures ExpandSerie(a + "," + b) == Some(ExpandSerie(a).value + ExpandSerie(b).value)
  {
    assert a + "," + b == a + [','] + b;
    TokensConcat(a, b, {',', ':'}, ',');
    SplitAppendChar(a, ',', b);
    ExpandGroupsAppend(Split(a, ","), Split(b, ","));
  }

  /** Digit strings joined by a separator form a token string over that separator. */
  lemma {:induction false} JoinedDigitsTokens(ps: seq<string>, c: char)
    requires |ps| >= 1 && !IsDigit(c)
    requires forall k :: 0 <= k < |ps| ==> ps[k] != [] && AllDigits(ps[k])
    ensures Tokens(Join(ps, [c]), {c})
  {
    if |ps| > 1 {
      JoinedDigitsTokens(ps[1..], c);
      TokensConcat(ps[0], Join(ps[1..], [c]), {c}, c);
    }
  }

  /**
   * A serie written as digit strings joined by ':' is one group: it expands
   * to the chain of the values of those digit strings.
   */
  lemma ChainOfPieces(ps: seq<string>, vals: seq<int>, s: string)
    requires 2 <= |ps| == |vals|
    requires forall k :: 0 <= k < |ps| ==> ps[k] != [] && AllDigits(ps[k]) && DigitsValue(ps[k]) == vals[k]
    requires s == Join(ps, ":")
    ensures ContainsOnlyAllowedCharacters(s)
    ensures ExpandSerie(s) == Some(ChainFrom(vals, 0))
  {
    JoinedDigitsTokens(ps, ':');
    assert Free(s, ',') by {
      forall j | 0 <= j < |s| ensures s[j] != ',' {
        assert IsDigit(s[j]) || s[j] == ':';
      }
    }
    forall k | 0 <= k < |ps| ensures Free(ps[k], ':') && AtoiOrZero(ps[k]) == vals[k] {
      assert forall j :: 0 <= j < |ps[k]| ==> IsDigit(ps[k][j]);
      AtoiDigits(ps[k]);
    }
    ExpandJoinedPieces(ps);
    assert Numbers(ps) == vals;
    OneGroup(s);
  }

  /** A range holds every integer from `from` to `to`, one step apart, in order. */
  lemma {:induction false} SegmentElements(from: int, to: int)
    ensures |Segment(from, to)| == (if from <= to then to - from else from - to) + 1
    ensures forall k :: 0 <= k < |Segment(from, to)| ==>
      Segment(from, to)[k] == (if from <= to then from + k else from - k)
    decreases if from <= to then to - from else from - to
  {
    if from < to {
      SegmentElements(from + 1, to);
    } else if from > to {
      SegmentElements(from - 1, to);
    }
  }

  /** Consecutive numbers of a range differ by exactly one. */
  lemma SegmentSteps(from: int, to: int, k: int)
    requires 0 <= k < |Segment(from, to)| - 1
    ensures Segment(from, to)[k + 1] - Segment(from, to)[k] == (if from <= to then 1 else -1)
  {
    SegmentElements(from, to);
  }

  /** "n:m" is every integer from n to m, ascending or descending; "n:n" is nothing. */
  lemma RangeGroup(a: string, b: string)
    requires a != [] && AllDigits(a) && b != [] && AllDigits(b)
    ensures ExpandGroup(a + ":" + b) ==
      (if DigitsValue(a) == DigitsValue(b) then [] else Segment(DigitsValue(a), DigitsValue(b)))
  {
    assert Free(a, ':') && Free(b, ':');
    assert Join([a, b], ":") == a + ":" + b;
    ExpandJoinedPieces([a, b]);
    AtoiDigits(a);
    AtoiDigits(b);
    var nums := Numbers([a, b]);
    assert nums == [DigitsValue(a), DigitsValue(b)];
    assert ChainFrom(nums, 1) == [];
  }

  /** Numbers between `lo` and `hi`. */
  predicate Within(xs: seq<int>, lo: int, hi: int) {
    forall k :: 0 <= k < |xs| ==> lo <= xs[k] <= hi
  }

  lemma SegmentWithin(from: int, to: int, lo: int, hi: int)
    requires lo <= from <= hi && lo <= to <= hi
    ensures Within(Segment(from, to), lo, hi)
  {
    SegmentElements(from, to);
  }

  /** Every number of a chain lies between the smallest and the largest number written in it. */
  lemma {:induction false} ChainWithin(nums: seq<int>, k: nat, lo: int, hi: int)
    requires Within(nums, lo, hi)
    ensures Within(ChainFrom(nums, k), lo, hi)
    decreases |nums| - k
  {
    if k + 1 < |nums| && nums[k] != nums[k + 1] {
      SegmentWithin(Start(nums, k), nums[k + 1], lo, hi);
      ChainWithin(nums, k + 1, lo, hi);
    }
  }

  lemma GroupWithin(nums: seq<int>, lo: int, hi: int)
    requires Within(nums, lo, hi)
    ensures Within(GroupExpansion(nums), lo, hi)
  {
    if |nums| != 1 {
      ChainWithin(nums, 0, lo, hi);
    }
  }

  /**
   * An equal adjacent pair ends its group: the chain keeps the ranges before
   * the pair and drops every number written after it.
   */
  lemma {:induction false} ChainStopsAtEqualPair(nums: seq<int>, j: nat, k: nat)
    requires j <= k && k + 1 < |nums| && nums[k] == nums[k + 1]
    ensures ChainFrom(nums, j) == ChainFrom(nums[..k + 1], j)
    decreases k - j
  {
    if j < k && nums[j] != nums[j + 1] {
      ChainStopsAtEqualPair(nums, j + 1, k);
      assert Start(nums, j) == Start(nums[..k + 1], j);
    }
  }

  // ---------------------------------------------------------------------
  // The expansions of the test table
  // ---------------------------------------------------------------------

  /** `s` is a decimal numeral, possibly with leading zeros, of value `v`. */
  predicate Numeral(s: string, v: int) {
    s != [] && AllDigits(s) && DigitsValue(s) == v
  }

  /** The numerals of the test table. */
  lemma TableNumerals()
    ensures Numeral("1", 1) && Numeral("2", 2) && Numeral("3", 3) && Numeral("4", 4)
    ensures Numeral("5", 5) && Numeral("7", 7) && Numeral("10", 10)
  {
    assert "10"[..1] == "1";
  }

  lemma SingleGroup(g: string)
    ensures ExpandGroups([g]) == ExpandGroup(g)
  {
    var e := Expansions([g]);
    assert e[..0] == [] && e[0] == ExpandGroup(g);
    assert Flatten(e) == Flatten(e[..0]) + e[0];
  }

  /** A serie without ',' is a single group. */
  lemma OneGroup(g: string)
    requires Free(g, ',') && ContainsOnlyAllowedCharacters(g)
    ensures ExpandSerie(g) == Some(ExpandGroup(g))
  {
    SplitFree(g, ',');
    assert Split(g, ",") == [g];
    SingleGroup(g);
  }

  /*
   * The test table's series, stated for any numerals of the values it uses
   * (TableNumerals shows that its own digit strings are such numerals).
   */

  /** "n:m" for two numerals of values `from` and `to`. */
  lemma RangeExample(n: string, m: string, from: int, to: int)
    requires Numeral(n, from) && Numeral(m, to)
    ensures ExpandSerie(n + ":" + m) == Some(if from == to then [] else Segment(from, to))
  {
    PairTokens(n, m);
    ColonTokens(n + ":" + m);
    OneGroup(n + ":" + m);
    RangeGroup(n, m);
  }

  /** "1" and "1,3" of the test table: a lone number, and two of them side by side. */
  lemma LoneExamples(one: string, three: string)
    requires Numeral(one, 1) && Numeral(three, 3)
    ensures ExpandSerie(one) == Some([1])
    ensures ExpandSerie(one + "," + three) == Some([1, 3])
  {
    LoneNumber(one);
    LoneNumber(three);
    CommaConcatenation(one, three);
    assert [1] + [3] == [1, 3];
  }

  /** "1:4" of the test table. */
  lemma RangeUpExample(one: string, four: string)
    requires Numeral(one, 1) && Numeral(four, 4)
    ensures ExpandSerie(one + ":" + four) == Some([1, 2, 3, 4])
  {
    SegmentElements(1, 4);
    assert Segment(1, 4) == [1, 2, 3, 4];
    RangeExample(one, four, 1, 4);
  }

  /** "1:1": an equal pair yields nothing. */
  lemma EqualPairExample(one: string)
    requires Numeral(one, 1)
    ensures ExpandSerie(one + ":" + one) == Some([])
  {
    RangeExample(one, one, 1, 1);
  }

  /** A token string over ':' alone is an accepted serie of one group. */
  lemma ColonTokens(g: string)
    requires Tokens(g, {':'})
    ensures ContainsOnlyAllowedCharacters(g) && Free(g, ',')
  {
    assert forall j :: 0 <= j < |g| ==> IsDigit(g[j]) || g[j] == ':';
  }

  /** "n:m" is a token string over ':'. */
  lemma PairTokens(n: string, m: string)
    requires n != [] && AllDigits(n) && m != [] && AllDigits(m)
    ensures Tokens(n + ":" + m, {':'})
  {
    JoinCons(n, [m], ":");
    JoinedDigitsTokens([n, m], ':');
  }

  /** A group of one numeral stands for its value. */
  lemma LoneGroup(s: string, v: int)
    requires Numeral(s, v)
    ensures ExpandGroup(s) == [v]
  {
    assert Free(s, ':');
    SplitFree(s, ':');
    AtoiDigits(s);
    assert Numbers([s]) == [v];
  }

  /** "1:3,5:7,10" is accepted. */
  lemma GroupsAllowed(a: string, b: string, c: string)
    requires Tokens(a, {':'}) && Tokens(b, {':'}) && c != [] && AllDigits(c)
    ensures ContainsOnlyAllowedCharacters(a + "," + b + "," + c)
    ensures Join([a, b, c], ",") == a + "," + b + "," + c
  {
    ColonTokens(a);
    ColonTokens(b);
    TokensConcat(a, b, {',', ':'}, ',');
    assert a + "," + b == a + [','] + b;
    TokensConcat(a + "," + b, c, {',', ':'}, ',');
    assert a + "," + b + "," + c == (a + "," + b) + [','] + c;
    JoinCons(b, [c], ",");
    JoinCons(a, [b, c], ",");
  }

  /** "1:3,5:7,10" of the test table. */
  lemma GroupsExample(one: string, three: string, five: string, seven: string, ten: string)
    requires Numeral(one, 1) && Numeral(three, 3) && Numeral(five, 5) && Numeral(seven, 7)
    requires Numeral(ten, 10)
    ensures ExpandSerie(one + ":" + three + "," + five + ":" + seven + "," + ten) ==
      Some([1, 2, 3, 5, 6, 7, 10])
  {
    var a, b := one + ":" + three, five + ":" + seven;
    var gs := [a, b, ten];
    assert one + ":" + three + "," + five + ":" + seven + "," + ten == a + "," + b + "," + ten;
    PairTokens(one, three);
    PairTokens(five, seven);
    ColonTokens(a);
    ColonTokens(b);
    assert Free(ten, ',');
    GroupsAllowed(a, b, ten);
    ExpandJoinedGroups(gs);
    RangeGroup(one, three);
    RangeGroup(five, seven);
    LoneGroup(ten, 10);
    GroupsValues(Expansions(gs));
  }

  lemma GroupsValues(e: seq<seq<int>>)
    requires |e| == 3 && e[0] == Segment(1, 3) && e[1] == Segment(5, 7) && e[2] == [10]
    ensures Flatten(e) == [1, 2, 3, 5, 6, 7, 10]
  {
    SegmentElements(1, 3);
    SegmentElements(5, 7);
    assert e[..2][..1] == [e[0]] && e[..2][..1][..0] == [];
    assert Flatten(e) == Flatten(e[..2]) + e[2];
    assert Flatten(e[..2]) == Flatten(e[..2][..1]) + e[1];
    assert Flatten(e[..2][..1]) == Flatten([]) + e[0];
  }

  /** "1:3:1:3" of the test table: later ranges start one past the shared endpoint. */
  lemma ChainExample(one: string, three: string)
    requires Numeral(one, 1) && Numeral(three, 3)
    ensures ExpandSerie(one + ":" + three + ":" + one + ":" + three) == Some([1, 2, 3, 2, 1, 2, 3])
  {
    var ps := [one, three, one, three];
    JoinCons(one, [three], ":");
    JoinCons(three, [one, three], ":");
    JoinCons(one, [three, one, three], ":");
    assert one + ":" + three + ":" + one + ":" + three == Join(ps, ":");
    ChainOfPieces(ps, [1, 3, 1, 3], Join(ps, ":"));
    ChainValues();
  }

  /** "1:3:2" of the test table. */
  lemma ShortChainExample(one: string, two: string, three: string)
    requires Numeral(one, 1) && Numeral(two, 2) && Numeral(three, 3)
    ensures ExpandSerie(one + ":" + three + ":" + two) == Some([1, 2, 3, 2])
  {
    var ps := [one, three, two];
    JoinCons(three, [two], ":");
    JoinCons(one, [three, two], ":");
    assert one + ":" + three + ":" + two == Join(ps, ":");
    ChainOfPieces(ps, [1, 3, 2], Join(ps, ":"));
    ShortChainValues();
  }

  lemma ChainValues()
    ensures ChainFrom([1, 3, 1, 3], 0) == [1, 2, 3, 2, 1, 2, 3]
  {
    SegmentElements(1, 3);
    SegmentElements(2, 1);
    SegmentElements(2, 3);
  }

  lemma ShortChainValues()
    ensures ChainFrom([1, 3, 2], 0) == [1, 2, 3, 2]
  {
    SegmentElements(1, 3);
  }
}
