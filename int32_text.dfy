/**
 * Decimal text of `int`: `Int32.Parse(string)` (number style Integer,
 * invariant culture) and `Int32.ToString()`.
 *
 * Parse accepts optional leading white space, an optional `+` or `-` sign,
 * one or more decimal digits and optional trailing white space, and fails
 * (throws, here `None`) on anything else or on a value outside the `int`
 * range. Digits, signs and white space are the ASCII ones.
 */
module Int32Text {
  import opened Options
  import opened CSharpInt

  predicate IsDigit(c: char) {
    '0' <= c <= '9'
  }

  /** The white space NumberStyles.AllowLeadingWhite/AllowTrailingWhite skip: U+0009 to U+000D and U+0020. */
  predicate IsWhite(c: char) {
    c == ' ' || '\t' <= c <= '\r'
  }

  predicate AllDigits(s: string) {
    forall i :: 0 <= i < |s| ==> IsDigit(s[i])
  }

  predicate AllWhite(s: string) {
    forall i :: 0 <= i < |s| ==> IsWhite(s[i])
  }

  function DigitValue(c: char): nat
    requires IsDigit(c)
  {
    c as int - '0' as int
  }

  function DigitChar(d: nat): (c: char)
    requires d < 10
    ensures IsDigit(c) && DigitValue(c) == d
  {
    ('0' as int + d) as char
  }

  /** The number a run of decimal digits denotes, most significant digit first. */
  function DigitsValue(s: string): nat
    requires AllDigits(s)
  {
    if s == [] then 0 else DigitsValue(s[..|s| - 1]) * 10 + DigitValue(s[|s| - 1])
  }

  /** The two classes of characters the scanner skips over. */
  datatype CharClass = White | Digit
  {
    predicate Has(c: char) {
      match this
      case White => IsWhite(c)
      case Digit => IsDigit(c)
    }
  }

  /** The length of the longest prefix of `s` whose characters all belong to `k`. */
  function Span(s: string, k: CharClass): (n: nat)
    ensures n <= |s|
  {
    if s == [] || !k.Has(s[0]) then 0 else 1 + Span(s[1..], k)
  }

  /** `Span` measures a run of the class that is followed by the end or by a character outside it. */
  lemma {:induction false} SpanIsMaximalRun(s: string, k: CharClass)
    ensures forall i :: 0 <= i < Span(s, k) ==> k.Has(s[i])
    ensures Span(s, k) < |s| ==> !k.Has(s[Span(s, k)])
  {
    if s != [] && k.Has(s[0]) {
      SpanIsMaximalRun(s[1..], k);
      assert forall i :: 1 <= i < Span(s, k) ==> s[i] == s[1..][i - 1];
    }
  }

  /** A maximal run followed by a character outside the class has exactly the run's length. */
  lemma {:induction false} SpanOfRun(run: string, rest: string, k: CharClass)
    requires forall i :: 0 <= i < |run| ==> k.Has(run[i])
    requires rest == [] || !k.Has(rest[0])
    ensures Span(run + rest, k) == |run|
  {
    if run != [] {
      assert (run + rest)[1..] == run[1..] + rest;
      SpanOfRun(run[1..], rest, k);
    }
  }

  /** The four parts of a string `Int32.Parse` accepts. */
  datatype Numeral = Numeral(lead: string, sign: string, digits: string, trail: string)
  {
    ghost predicate Valid() {
      && AllWhite(lead)
      && (sign == "" || sign == "+" || sign == "-")
      && digits != []
      && AllDigits(digits)
      && AllWhite(trail)
    }

    function Text(): string {
      lead + (sign + (digits + trail))
    }

    function Denotes(): int
      requires AllDigits(digits)
    {
      var v: int := DigitsValue(digits);
      if sign == "-" then -v else v
    }
  }

  lemma SplitAt(s: string, i: nat)
    requires i <= |s|
    ensures s[..i] + s[i..] == s
  {
  }

  /** Splits off an optional leading sign. */
  function ScanSign(s: string): (r: (string, string))
    ensures r.0 == "" || r.0 == "+" || r.0 == "-"
    ensures r.0 + r.1 == s
  {
    var g := if s != [] && (s[0] == '+' || s[0] == '-') then 1 else 0;
    SplitAt(s, g);
    (s[..g], s[g..])
  }

  /** Splits a non-empty run of digits followed only by white space into the two. */
  function ScanDigits(s: string): (r: Option<(string, string)>)
    ensures r.Some? ==> r.value.0 != [] && AllDigits(r.value.0) && AllWhite(r.value.1)
    ensures r.Some? ==> r.value.0 + r.value.1 == s
  {
    var d := Span(s, Digit);
    if d > 0 && AllWhite(s[d..]) then
      SplitAt(s, d);
      SpanIsMaximalRun(s, Digit);
      Some((s[..d], s[d..]))
    else
      None
  }

  /** Splits `s` into the parts of a numeral, if it is one. */
  function Scan(s: string): Option<Numeral> {
    var w := Span(s, White);
    var (sign, body) := ScanSign(s[w..]);
    match ScanDigits(body)
    case Some((digits, trail)) => Some(Numeral(s[..w], sign, digits, trail))
    case None => None
  }

  /** What the scanner splits off are the parts of a numeral spelling `s`. */
  lemma ScanSound(s: string)
    requires Scan(s).Some?
    ensures Scan(s).value.Valid() && Scan(s).value.Text() == s
  {
    SplitAt(s, Span(s, White));
    SpanIsMaximalRun(s, White);
  }

  lemma ScanSignOf(sign: string, body: string)
    requires sign == "" || sign == "+" || sign == "-"
    requires body != [] && IsDigit(body[0])
    ensures ScanSign(sign + body) == (sign, body)
  {
    var r := ScanSign(sign + body);
    assert |r.0| == |sign|;
    assert r.0 + r.1 == sign + body;
    assert r.0 == (sign + body)[..|sign|] == sign;
    assert r.1 == (sign + body)[|sign|..] == body;
  }

  lemma {:induction false} ScanDigitsOf(digits: string, trail: string)
    requires digits != [] && AllDigits(digits) && AllWhite(trail)
    ensures ScanDigits(digits + trail) == Some((digits, trail))
  {
    assert trail != [] ==> !Digit.Has(trail[0]) by {
      if trail != [] { assert IsWhite(trail[0]); }
    }
    SpanOfRun(digits, trail, Digit);
    var s := digits + trail;
    assert s[..|digits|] == digits;
    assert s[|digits|..] == trail;
  }

  /** Every numeral is scanned back into its own parts. */
  lemma {:induction false} ScanNumeral(x: Numeral)
    requires x.Valid()
    ensures Scan(x.Text()) == Some(x)
  {
    var s := x.Text();
    var afterLead := x.sign + (x.digits + x.trail);
    assert afterLead[0] == if x.sign == "" then x.digits[0] else x.sign[0];
    SpanOfRun(x.lead, afterLead, White);
    assert s[..|x.lead|] == x.lead;
    assert s[|x.lead|..] == afterLead;
    ScanSignOf(x.sign, x.digits + x.trail);
    ScanDigitsOf(x.digits, x.trail);
  }

  /** `Int32.Parse(s)`: `None` where it throws a FormatException or an OverflowException. */
  function Parse(s: string): Option<int32> {
    match Scan(s)
    case Some(x) => if InRange(x.Denotes()) then Some(x.Denotes() as int32) else None
    case None => None
  }

  /** Whatever parses is a numeral whose value is the result. */
  lemma ParseSound(s: string)
    requires Parse(s).Some?
    ensures exists x: Numeral :: x.Valid() && x.Text() == s && x.Denotes() == Parse(s).value
  {
    ScanSound(s);
    var x := Scan(s).value;
    assert x.Valid() && x.Text() == s && x.Denotes() == Parse(s).value;
  }

  /** Conversely, every numeral whose value is an `int` parses to that value, and any other fails. */
  lemma {:induction false} ParseNumeral(x: Numeral)
    requires x.Valid()
    ensures Parse(x.Text()) == if InRange(x.Denotes()) then Some(x.Denotes()) else None
  {
    ScanNumeral(x);
  }

  /** Decimal digits of `n` without leading zeros. */
  function NatToDecimal(n: nat): (s: string)
    ensures s != [] && AllDigits(s) && DigitsValue(s) == n
    ensures s[0] == '0' ==> n == 0 && |s| == 1
  {
    if n < 10 then [DigitChar(n)]
    else
      var s := NatToDecimal(n / 10) + [DigitChar(n % 10)];
      assert s[..|s| - 1] == NatToDecimal(n / 10);
      s
  }

  /** `Int32.ToString()`: a `-` for negative values, then the digits of the magnitude. */
  function Format(x: int): string {
    if x < 0 then "-" + NatToDecimal(-x) else NatToDecimal(x)
  }

  /** Formatting an `int` and parsing the text gives the `int` back. */
  lemma {:induction false} ParseFormat(x: int32)
    ensures Parse(Format(x)) == Some(x)
  {
    var n := Numeral("", if x < 0 then "-" else "", NatToDecimal(Abs(x)), "");
    assert n.Text() == Format(x);
    ParseNumeral(n);
  }

  /** Formatted text is a sign and digits only, and never empty. */
  lemma FormatAlphabet(x: int)
    ensures Format(x) != []
    ensures forall i :: 0 <= i < |Format(x)| ==> IsDigit(Format(x)[i]) || Format(x)[i] == '-'
  {
  }

  /** Text made of digits alone parses exactly when it is non-empty and its value is an `int`. */
  lemma {:induction false} ParseDigits(s: string)
    requires AllDigits(s)
    ensures Parse(s).Some? <==> s != [] && InRange(DigitsValue(s))
    ensures Parse(s).Some? ==> Parse(s).value == DigitsValue(s)
  {
    if s == [] {
      assert Span(s, White) == 0;
    } else {
      var n := Numeral("", "", s, "");
      assert n.Text() == s;
      ParseNumeral(n);
    }
  }
}
