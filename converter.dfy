/**
 * ConvertToStringsArray of `tools/converter.go`: each integer written in
 * decimal with fmt's "%0*d", that is left-padded with zeros (after the
 * sign) to at least the given number of characters.
 *
 * fmt's handling of the `*` width is modelled as the fmt package does it:
 * a negative width means left-justification padded with spaces (the zero
 * flag does not apply to the right), and a width beyond one million in
 * magnitude is rejected with the text "%!(BADWIDTH)" before the unpadded
 * number.
 */
module Converter {
  import opened Wrappers
  import opened Strings

  /** What fmt writes for a width argument it refuses. */
  const BadWidth: string := "%!(BADWIDTH)"

  /** The largest width magnitude fmt accepts. */
  const MaxWidth: int := 1000000

  /** The padding needed to bring `len` characters up to `width`. */
  function Pad(width: int, len: nat): nat {
    if width > len then width - len else 0
  }

  /** `k` spaces. */
  function Spaces(k: nat): (r: string)
    ensures |r| == k && forall j :: 0 <= j < k ==> r[j] == ' '
  {
    seq(k, _ => ' ')
  }

  /** The magnitude of `v`. */
  function Abs(v: int): nat {
    if v < 0 then -v else v
  }

  /** fmt.Sprintf("%0*d", width, v). */
  function Format0Width(v: int, width: int): string
  {
    if width > MaxWidth || width < -MaxWidth then BadWidth + IntToDecimal(v)
    else if width < 0 then
      var d := IntToDecimal(v);
      d + Spaces(Pad(-width, |d|))
    else
      var digits := NatToDecimal(Abs(v));
      var slots := if v < 0 then width - 1 else width;
      var zeros := Zeros(Pad(slots, |digits|));
      if v < 0 then "-" + (zeros + digits) else zeros + digits
  }

  /** The length of the unpadded decimal form. */
  lemma DecimalLength(v: int)
    ensures |IntToDecimal(v)| == |NatToDecimal(Abs(v))| + if v < 0 then 1 else 0
  {
  }

  /**
   * For a width in range, the entry has exactly as many characters as the
   * larger of the width and the unpadded number: at least the width, and
   * never truncated.
   */
  lemma PaddedLength(v: int, width: int)
    requires 0 <= width <= MaxWidth
    ensures |Format0Width(v, width)| == if width > |IntToDecimal(v)| then width else |IntToDecimal(v)|
  {
    DecimalLength(v);
  }

  /** A number with at least `width` characters comes out as it is, unpadded and untruncated. */
  lemma WideEnough(v: int, width: int)
    requires 0 <= width <= |IntToDecimal(v)| && width <= MaxWidth
    ensures Format0Width(v, width) == IntToDecimal(v)
  {
    DecimalLength(v);
    var digits := NatToDecimal(Abs(v));
    assert Zeros(0) + digits == digits;
  }

  /** The padding is made of zeros, between the sign and the digits. */
  lemma ZeroPadded(v: int, width: int)
    requires 0 <= width <= MaxWidth
    ensures var r := Format0Width(v, width);
      var sign := if v < 0 then 1 else 0;
      var z := |r| - |NatToDecimal(Abs(v))|;
      && sign <= z <= |r|
      && (v < 0 ==> r[0] == '-')
      && (forall j :: sign <= j < z ==> r[j] == '0')
      && r[z..] == NatToDecimal(Abs(v))
  {
    var digits := NatToDecimal(Abs(v));
    var slots := if v < 0 then width - 1 else width;
    var zeros := Zeros(Pad(slots, |digits|));
    var r := Format0Width(v, width);
    if v < 0 {
      assert r == "-" + (zeros + digits);
      assert r[1 + |zeros|..] == digits;
      forall j | 1 <= j < 1 + |zeros| ensures r[j] == '0' {
        assert r[j] == zeros[j - 1];
      }
    } else {
      assert r == zeros + digits;
      assert r[|zeros|..] == digits;
    }
  }

  /** For a width in range, strconv.Atoi reads every entry back as the number it came from. */
  lemma ReadBack(v: int, width: int)
    requires 0 <= width <= MaxWidth
    ensures Atoi(Format0Width(v, width)) == Some(v)
  {
    var digits := NatToDecimal(Abs(v));
    var slots := if v < 0 then width - 1 else width;
    var k := Pad(slots, |digits|);
    var zeros := Zeros(k);
    LeadingZeros(k, digits);
    NatToDecimalValue(Abs(v));
    AtoiSigned(zeros + digits);
    assert zeros + digits != [];
  }

  /** A negative width left-justifies: the number first, then spaces up to the width's magnitude. */
  lemma LeftJustified(v: int, width: int)
    requires -MaxWidth <= width < 0
    ensures var r := Format0Width(v, width);
      && |r| == (if -width > |IntToDecimal(v)| then -width else |IntToDecimal(v)|)
      && r[..|IntToDecimal(v)|] == IntToDecimal(v)
      && forall j :: |IntToDecimal(v)| <= j < |r| ==> r[j] == ' '
  {
  }

  /** ConvertToStringsArray: the for loop filling the pre-allocated output. */
  method ConvertToStringsArray(v: seq<int>, numberOfDigits: int) returns (output: seq<string>)
    ensures |output| == |v|
    ensures forall i :: 0 <= i < |v| ==> output[i] == Format0Width(v[i], numberOfDigits)
    ensures 0 <= numberOfDigits <= MaxWidth ==>
      forall i :: 0 <= i < |v| ==> Atoi(output[i]) == Some(v[i]) && |output[i]| >= numberOfDigits
  {
    var out := new string[|v|];
    for i := 0 to |v|
      invariant forall j :: 0 <= j < i ==> out[j] == Format0Width(v[j], numberOfDigits)
    {
      out[i] := Format0Width(v[i], numberOfDigits);
    }
    output := out[..];
    if 0 <= numberOfDigits <= MaxWidth {
      forall i | 0 <= i < |v|
        ensures Atoi(output[i]) == Some(v[i]) && |output[i]| >= numberOfDigits
      {
        ReadBack(v[i], numberOfDigits);
        PaddedLength(v[i], numberOfDigits);
      }
    }
  }
}
