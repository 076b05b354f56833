/** Field encoders used by the text codec (HepMC/StreamHelpers.h,
    `detail::output`), and a reference decoder for integer fields. */
module StreamHelpers {
  import opened Wrappers

  /** An output stream: the text written so far and its state flag;
      `good == false` models a stream whose failbit or badbit is set. */
  datatype OStream = OStream(text: string, good: bool)

  /** The decimal digits of a natural number, most significant first. */
  function Digits(n: nat): (s: string)
    ensures |s| >= 1 && AllDigits(s)
  {
    if n < 10 then [DigitChar(n)] else Digits(n / 10) + [DigitChar(n % 10)]
  }

  function DigitChar(d: nat): (c: char)
    requires d < 10
    ensures '0' <= c <= '9'
  {
    "0123456789"[d]
  }

  predicate AllDigits(s: string)
  {
    forall k :: 0 <= k < |s| ==> '0' <= s[k] <= '9'
  }

  /** How `operator<<` renders an `int` or `long`: optional minus sign, then
      the digits. */
  function DecimalString(i: int): (s: string)
    ensures |s| >= 1 && ' ' !in s
  {
    if i < 0 then "-" + Digits(-i) else Digits(i)
  }

  /** Write a double or a float. An exact zero is written as the integer 0,
      so its text does not depend on the stream's precision; any other value
      is written through `render`, the stream's own formatting. Nothing is
      written to a failed stream. */
  function OutputReal(os: OStream, d: real, render: real -> string): (r: OStream)
    ensures !os.good ==> r == os
    ensures os.good ==> r.good && |r.text| > |os.text| && r.text[..|os.text| + 1] == os.text + " "
    ensures os.good && d == 0.0 ==> r.text == os.text + " 0"
    ensures os.good && d != 0.0 ==> r.text == os.text + " " + render(d)
  {
    if os.good then
      if d == 0.0 then OStream(os.text + " " + DecimalString(0), true)
      else OStream(os.text + " " + render(d), true)
    else os
  }

  /** Write an int or a long: a space, then the decimal form (zero takes a
      separate branch in the source that prints the same " 0"). */
  function OutputInt(os: OStream, i: int): (r: OStream)
    ensures !os.good ==> r == os
    ensures os.good ==> r.good && r.text == os.text + " " + DecimalString(i)
  {
    if os.good then
      if i == 0 then OStream(os.text + " " + DecimalString(0), true)
      else OStream(os.text + " " + DecimalString(i), true)
    else os
  }

  /** Write a single char: the char itself with no separator, except that a
      NUL char is written as a space. */
  function OutputChar(os: OStream, c: char): (r: OStream)
    ensures !os.good ==> r == os
    ensures os.good ==> r.good && |r.text| == |os.text| + 1 && r.text[..|os.text|] == os.text
    ensures os.good ==> r.text[|os.text|] != '\0'
    ensures os.good && c != '\0' ==> r.text[|os.text|] == c
    ensures os.good && c == '\0' ==> r.text == os.text + " "
  {
    if os.good then
      if c != '\0' then OStream(os.text + [c], true)
      else OStream(os.text + [' '], true)
    else os
  }

  /** Writing a char loses only the difference between NUL and a space:
      two chars give the same text exactly when they are equal or are NUL
      and space. */
  lemma OutputCharInjective(os: OStream, c1: char, c2: char)
    requires os.good
    ensures OutputChar(os, c1) == OutputChar(os, c2) <==>
      c1 == c2 || (c1 == '\0' && c2 == ' ') || (c1 == ' ' && c2 == '\0')
  {
    var n := |os.text|;
    if OutputChar(os, c1) == OutputChar(os, c2) {
      assert OutputChar(os, c1).text[n] == OutputChar(os, c2).text[n];
    }
  }

  /** `render` writes `d` as a single token that `parse` reads back. */
  ghost predicate ReadsBack(d: real, render: real -> string, parse: string -> Option<real>)
  {
    |render(d)| >= 1 && ' ' !in render(d) && parse(render(d)) == Some(d)
  }

  /** Reads one real field: a separating space, then a token handed to
      `parse` (the stream's own extraction); returns the value and the text
      after the token. */
  function ReadReal(s: string, parse: string -> Option<real>): Option<(real, string)>
  {
    if |s| == 0 || s[0] != ' ' then None
    else
      var n := TokenLength(s[1..]);
      match parse(s[1..][..n])
      case None => None
      case Some(d) => Some((d, s[1..][n..]))
  }

  /** Round trip: the field written for `d` reads back as `d`, leaving the
      text that follows, provided the renderer reads back for non-zero values
      and the zero token "0" reads as zero. */
  lemma OutputRealRoundTrip(os: OStream, d: real, render: real -> string, parse: string -> Option<real>, rest: string)
    requires os.good
    requires d != 0.0 ==> ReadsBack(d, render, parse)
    requires parse("0") == Some(0.0)
    requires rest == "" || rest[0] == ' '
    ensures ReadReal(OutputReal(os, d, render).text[|os.text|..] + rest, parse) == Some((d, rest))
  {
    var tok := if d == 0.0 then "0" else render(d);
    var s := OutputReal(os, d, render).text[|os.text|..] + rest;
    assert OutputReal(os, d, render).text == os.text + (" " + tok);
    assert s == " " + (tok + rest);
    assert s[1..] == tok + rest;
    TokenPrefix(tok, rest);
    assert s[1..][..|tok|] == tok && s[1..][|tok|..] == rest;
  }

  /** With a renderer that reads back, the text written for a real
      determines the real, the zero special case included. */
  lemma OutputRealInjective(os: OStream, d1: real, d2: real, render: real -> string, parse: string -> Option<real>)
    requires os.good
    requires d1 != 0.0 ==> ReadsBack(d1, render, parse)
    requires d2 != 0.0 ==> ReadsBack(d2, render, parse)
    requires parse("0") == Some(0.0)
    requires OutputReal(os, d1, render) == OutputReal(os, d2, render)
    ensures d1 == d2
  {
    OutputRealRoundTrip(os, d1, render, parse, "");
    OutputRealRoundTrip(os, d2, render, parse, "");
  }

  /** Writes a sequence of integer fields one after the other. */
  function OutputInts(os: OStream, xs: seq<int>): (r: OStream)
    ensures r.good == os.good
    ensures os.good ==> r.text == os.text + Encoding(xs)
    decreases |xs|
  {
    if |xs| == 0 then os
    else
      EncodingStep(os.text, xs);
      OutputInts(OutputInt(os, xs[0]), xs[1..])
  }

  // ---------------------------------------------------------------------
  // Reference decoder: splits text at spaces and parses each token.

  /** The value of a non-empty run of decimal digits. */
  function DigitsValue(s: string): nat
    requires |s| >= 1 && AllDigits(s)
  {
    if |s| == 1 then (s[0] as int - '0' as int)
    else DigitsValue(s[..|s| - 1]) * 10 + (s[|s| - 1] as int - '0' as int)
  }

  /** Parses an integer token: digits with an optional leading minus. */
  function ParseDecimal(tok: string): Option<int>
  {
    if |tok| >= 2 && tok[0] == '-' && AllDigits(tok[1..]) then Some(0 - DigitsValue(tok[1..]) as int)
    else if |tok| >= 1 && AllDigits(tok) then Some(DigitsValue(tok))
    else None
  }

  /** Length of the leading run of non-space characters. */
  function TokenLength(s: string): (n: nat)
    ensures n <= |s|
    ensures forall k :: 0 <= k < n ==> s[k] != ' '
    ensures n < |s| ==> s[n] == ' '
  {
    if |s| == 0 || s[0] == ' ' then 0 else 1 + TokenLength(s[1..])
  }

  /** Reads every space-separated integer token of a text. */
  function ReadInts(s: string): Option<seq<int>>
    decreases |s|
  {
    if |s| == 0 then Some([])
    else if s[0] == ' ' then ReadInts(s[1..])
    else
      var n := TokenLength(s);
      match ParseDecimal(s[..n])
      case None => None
      case Some(x) =>
        match ReadInts(s[n..])
        case None => None
        case Some(rest) => Some([x] + rest)
  }

  lemma {:induction false} DigitsRoundTrip(n: nat)
    ensures DigitsValue(Digits(n)) == n
    decreases n
  {
    if n >= 10 {
      var s := Digits(n);
      assert s[..|s| - 1] == Digits(n / 10);
      DigitsRoundTrip(n / 10);
    }
  }

  lemma DecimalRoundTrip(i: int)
    ensures ParseDecimal(DecimalString(i)) == Some(i)
  {
    if i < 0 {
      ParseNegative(i);
    } else {
      ParseNonNegative(i);
    }
  }

  lemma ParseNegative(i: int)
    requires i < 0
    ensures ParseDecimal(DecimalString(i)) == Some(i)
  {
    var n: nat := -i;
    DigitsRoundTrip(n);
    ParseSigned(Digits(n), n);
    assert DecimalString(i) == "-" + Digits(n);
  }

  lemma ParseNonNegative(i: int)
    requires i >= 0
    ensures ParseDecimal(DecimalString(i)) == Some(i)
  {
    var n: nat := i;
    DigitsRoundTrip(n);
    ParseUnsigned(Digits(n), n);
    assert DecimalString(i) == Digits(n);
  }

  /** A minus sign followed by digits of value `v` parses to `-v`. */
  lemma ParseSigned(d: string, v: nat)
    requires |d| >= 1 && AllDigits(d) && DigitsValue(d) == v
    ensures ParseDecimal("-" + d) == Some(0 - v)
  {
    var tok := "-" + d;
    assert tok[0] == '-' && tok[1..] == d;
  }

  /** Digits of value `v` parse to `v`. */
  lemma ParseUnsigned(d: string, v: nat)
    requires |d| >= 1 && AllDigits(d) && DigitsValue(d) == v
    ensures ParseDecimal(d) == Some(v as int)
  {
    assert '0' <= d[0] <= '9';
  }

  /** What a good stream holds after the integer fields are written. */
  function Encoding(xs: seq<int>): string
  {
    if |xs| == 0 then "" else " " + (DecimalString(xs[0]) + Encoding(xs[1..]))
  }

  /** Writing the first field, then the encoding of the rest, gives the
      encoding of all of them. */
  lemma EncodingStep(t: string, xs: seq<int>)
    requires |xs| > 0
    ensures t + " " + DecimalString(xs[0]) + Encoding(xs[1..]) == t + Encoding(xs)
  {
  }

  lemma {:induction false} ReadEncoding(xs: seq<int>)
    ensures ReadInts(Encoding(xs)) == Some(xs)
    decreases |xs|
  {
    if |xs| > 0 {
      var x, ys := xs[0], xs[1..];
      var tok, rest := DecimalString(x), Encoding(ys);
      assert ReadInts(tok + rest) == Some([x] + ys) by {
        ReadEncoding(ys);
        EncodingLeadsWithSpace(ys);
        DecimalRoundTrip(x);
        ReadToken(tok, rest, x);
      }
      assert ReadInts(Encoding(xs)) == ReadInts(tok + rest) by {
        assert Encoding(xs) == " " + (tok + rest);
        SkipSpace(tok + rest);
      }
      assert [x] + ys == xs;
    }
  }

  /** Every field is written after a separating space. */
  lemma EncodingLeadsWithSpace(xs: seq<int>)
    ensures Encoding(xs) == "" || Encoding(xs)[0] == ' '
  {
  }

  lemma SkipSpace(s: string)
    ensures ReadInts(" " + s) == ReadInts(s)
  {
    assert (" " + s)[1..] == s;
  }

  lemma ReadToken(tok: string, rest: string, x: int)
    requires |tok| >= 1 && ' ' !in tok
    requires rest == "" || rest[0] == ' '
    requires ParseDecimal(tok) == Some(x)
    ensures ReadInts(tok + rest) ==
      match ReadInts(rest)
      case None => None
      case Some(ys) => Some([x] + ys)
  {
    var s := tok + rest;
    TokenPrefix(tok, rest);
    assert s[0] == tok[0];
    assert s[..|tok|] == tok && s[|tok|..] == rest;
  }

  lemma {:induction false} TokenPrefix(tok: string, rest: string)
    requires |tok| >= 1 && ' ' !in tok
    requires rest == "" || rest[0] == ' '
    ensures TokenLength(tok + rest) == |tok|
    decreases |tok|
  {
    if |tok| > 1 {
      assert (tok + rest)[1..] == tok[1..] + rest;
      TokenPrefix(tok[1..], rest);
    } else {
      assert (tok + rest)[1..] == rest;
    }
  }

  /** Round trip: integer fields written to a fresh stream read back as the
      same integers, in order. */
  lemma OutputIntsRoundTrip(xs: seq<int>)
    ensures ReadInts(OutputInts(OStream("", true), xs).text) == Some(xs)
  {
    assert "" + Encoding(xs) == Encoding(xs);
    ReadEncoding(xs);
  }
}
