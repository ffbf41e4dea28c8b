/** The text of a profile: numbers as printed and parsed by the C library, and lines of the form key=value. */
module ProfileText {
  import opened Options

  // ----- Characters

  /** Printable text without a separator, as the profile demands of every key and value. */
  predicate SafeText(s: string) {
    0 < |s| <= 256 && SafeChars(s)
  }

  predicate SafeChars(s: string) {
    forall i | 0 <= i < |s| :: SafeChar(s[i])
  }

  predicate SafeChar(c: char) {
    c as int >= 0x20 && c as int != 0x7f && c != '='
  }

  /** From one to 256 characters, none of them a control character, a delete or an equals sign. */
  lemma SafeTextExactly(s: string)
    ensures SafeText(s) <==>
              && 1 <= |s| < 257
              && forall i | 0 <= i < |s| :: 31 < s[i] as int && s[i] != (127 as char) && s[i] != '='
  {
  }

  predicate IsDigit(c: char) { '0' <= c <= '9' }

  predicate AllDigits(s: string) { forall i | 0 <= i < |s| :: IsDigit(s[i]) }

  function Digit(d: nat): (c: char)
    requires d < 10
    ensures IsDigit(c) && DigitValue(c) == d
  {
    (d + '0' as int) as char
  }

  function DigitValue(c: char): (d: nat)
    requires IsDigit(c)
    ensures d < 10
  {
    c as int - '0' as int
  }

  // ----- Natural numbers

  function Pow10(k: nat): (r: int)
    ensures r > 0
  {
    if k == 0 then 1 else 10 * Pow10(k - 1)
  }

  /** Decimal notation without leading zeros. */
  function Digits(n: nat): (s: string)
    ensures s != [] && AllDigits(s)
  {
    if n < 10 then [Digit(n)] else Digits(n / 10) + [Digit(n % 10)]
  }

  /** Zeros in front, up to a width. */
  function ZeroFill(s: string, width: nat): (r: string)
    requires AllDigits(s)
    ensures AllDigits(r) && |r| == if |s| < width then width else |s|
    decreases width - |s|
  {
    if |s| >= width then s else ZeroFill("0" + s, width)
  }

  function Value(s: string): nat
    requires AllDigits(s)
  {
    if s == [] then 0 else Value(s[..|s| - 1]) * 10 + DigitValue(s[|s| - 1])
  }

  lemma {:induction false} ValueOfDigits(n: nat)
    ensures Value(Digits(n)) == n
  {
    if n >= 10 {
      ValueOfDigits(n / 10);
      assert Digits(n)[..|Digits(n)| - 1] == Digits(n / 10);
    } else {
      assert Digits(n)[..0] == [];
    }
  }

  lemma {:induction false} ValueOfZero(s: string)
    requires AllDigits(s)
    ensures AllDigits("0" + s) && Value("0" + s) == Value(s)
  {
    if s == [] {
      assert ("0" + s)[..0] == [];
    } else {
      var front := s[..|s| - 1];
      ValueOfZero(front);
      assert ("0" + s)[..|s|] == "0" + front;
    }
  }

  lemma {:induction false} ValueOfFilled(s: string, width: nat)
    requires AllDigits(s)
    ensures Value(ZeroFill(s, width)) == Value(s)
    decreases width - |s|
  {
    if |s| < width {
      ValueOfZero(s);
      ValueOfFilled("0" + s, width);
    }
  }

  /** A number below a power of ten has no more digits than the exponent. */
  lemma {:induction false} DigitCount(n: nat, k: nat)
    requires k > 0 && n < Pow10(k)
    ensures |Digits(n)| <= k
  {
    if n >= 10 {
      DigitCount(n / 10, k - 1);
    }
  }

  // ----- Signed numbers

  /** What `strtoll` and `strtod` skip and read first: blanks and a sign. */
  function SkipBlanks(s: string): string {
    if s != [] && s[0] == ' ' then SkipBlanks(s[1..]) else s
  }

  function Signed(s: string): (bool, string) {
    if s != [] && s[0] == '-' then (true, s[1..])
    else if s != [] && s[0] == '+' then (false, s[1..])
    else (false, s)
  }

  function Negated(minus: bool, n: int): int { if minus then -n else n }

  const INT64_MAX := 0x7fff_ffff_ffff_ffff

  function PrintInt(n: int): string { if n < 0 then "-" + Digits(-n) else Digits(n) }

  /** `parseInt64`: the whole text is one number in range. */
  function ParseInt(s: string): Option<int> {
    var (minus, body) := Signed(SkipBlanks(s));
    if body == [] || !AllDigits(body) then None
    else
      var v := Negated(minus, Value(body));
      if -INT64_MAX - 1 <= v <= INT64_MAX then Some(v) else None
  }

  function Blanks(k: nat): string {
    if k == 0 then "" else " " + Blanks(k - 1)
  }

  lemma {:induction false} BlanksSkipped(k: nat, s: string)
    requires s == [] || s[0] != ' '
    ensures SkipBlanks(Blanks(k) + s) == s
  {
    if k > 0 {
      assert (Blanks(k) + s)[1..] == Blanks(k - 1) + s;
      BlanksSkipped(k - 1, s);
    } else {
      assert Blanks(0) + s == s;
    }
  }

  /** The value of digits behind a sign, where it fits 64 bits. */
  function InRange(v: int): Option<int> {
    if -9223372036854775808 <= v < 9223372036854775808 then Some(v) else None
  }

  lemma ParsedBody(s: string, minus: bool, body: string)
    requires body != [] && AllDigits(body) && Signed(SkipBlanks(s)) == (minus, body)
    ensures ParseInt(s) == InRange(if minus then 0 - Value(body) else Value(body))
  {
  }

  lemma SignOf(body: string)
    requires body != [] && AllDigits(body)
    ensures Signed(body) == (false, body) && Signed("+" + body) == (false, body) && Signed("-" + body) == (true, body)
  {
    assert IsDigit(body[0]);
    assert ("+" + body)[1..] == body && ("-" + body)[1..] == body;
  }

  /** Blanks, an optional sign and digits are read as their number, in the range of 64 bits. */
  lemma ParsedWithSign(k: nat, body: string)
    requires body != [] && AllDigits(body)
    ensures ParseInt(Blanks(k) + body) == InRange(Value(body))
    ensures ParseInt(Blanks(k) + ("+" + body)) == InRange(Value(body))
    ensures ParseInt(Blanks(k) + ("-" + body)) == InRange(0 - Value(body))
  {
    assert IsDigit(body[0]);
    SignOf(body);
    BlanksSkipped(k, body);
    BlanksSkipped(k, "+" + body);
    BlanksSkipped(k, "-" + body);
    ParsedBody(Blanks(k) + body, false, body);
    ParsedBody(Blanks(k) + ("+" + body), false, body);
    ParsedBody(Blanks(k) + ("-" + body), true, body);
  }

  /** Nothing else is read. */
  lemma {:induction false} ParsedOnly(s: string) returns (k: nat, sign: string, body: string)
    requires ParseInt(s).Some?
    ensures s == Blanks(k) + (sign + body) && sign in {"", "+", "-"} && body != [] && AllDigits(body)
    decreases |s|
  {
    if s != [] && s[0] == ' ' {
      k, sign, body := ParsedOnly(s[1..]);
      assert s == " " + s[1..];
      assert " " + (Blanks(k) + (sign + body)) == Blanks(k + 1) + (sign + body);
      k := k + 1;
    } else {
      k := 0;
      sign := if s[0] == '-' then "-" else if s[0] == '+' then "+" else "";
      body := Signed(s).1;
      assert s == sign + body && Blanks(0) + s == s;
    }
  }

  /** Printed digits are read with the sign before them. */
  lemma SignRead(body: string)
    requires body != [] && IsDigit(body[0])
    ensures Signed(SkipBlanks(body)) == (false, body) && Signed(SkipBlanks("-" + body)) == (true, body)
  {
    assert ("-" + body)[1..] == body;
  }

  lemma SafeDigits(s: string)
    requires AllDigits(s)
    ensures SafeChars(s) && SafeChars("-" + s)
  {
    forall i | 0 <= i < |s|
      ensures SafeChar(s[i])
    {
      assert IsDigit(s[i]);
    }
    assert forall i | 0 <= i < |"-" + s| :: ("-" + s)[i] == if i == 0 then '-' else s[i - 1];
  }

  lemma IntRoundTrip(n: int)
    requires -INT64_MAX - 1 <= n <= INT64_MAX
    ensures ParseInt(PrintInt(n)) == Some(n) && SafeChars(PrintInt(n)) && PrintInt(n) != []
    ensures n >= 0 ==> PrintInt(n) == Digits(n)
  {
    var digits := Digits(if n < 0 then -n else n);
    ValueOfDigits(if n < 0 then -n else n);
    SafeDigits(digits);
    SignRead(digits);
  }

  lemma IntLength(n: int)
    requires -INT64_MAX - 1 <= n <= INT64_MAX
    ensures |PrintInt(n)| <= 20
  {
    Scale(0);
    Scale(6);
    Scale(12);
    assert Pow10(19) == 10000000000000000000;
    DigitCount(if n < 0 then -n else n, 19);
  }

  /** "%.6f" of a number given in millionths. */
  function PrintMicro(v: int): string {
    if v < 0 then "-" + PrintPositive(-v) else PrintPositive(v)
  }

  function PrintPositive(n: nat): string { Digits(n / 1000000) + "." + ZeroFill(Digits(n % 1000000), 6) }

  /** What fits the print buffer of 64 bytes. */
  function Buffered(s: string): string { if |s| <= 63 then s else s[..63] }

  /** Where `c` first occurs; the length if it does not. */
  function Find(s: string, c: char): (i: nat)
    ensures i <= |s| && (forall k | 0 <= k < i :: s[k] != c) && (i < |s| ==> s[i] == c)
  {
    FindFrom(s, c, 0)
  }

  function FindFrom(s: string, c: char, from: nat): (i: nat)
    requires from <= |s|
    ensures from <= i <= |s| && (forall k | from <= k < i :: s[k] != c) && (i < |s| ==> s[i] == c)
    decreases |s| - from
  {
    if from == |s| || s[from] == c then from else FindFrom(s, c, from + 1)
  }

  ghost predicate Lacks(s: string, c: char) { forall k | 0 <= k < |s| :: s[k] != c }

  lemma FindAfter(a: string, c: char, b: string)
    requires Lacks(a, c)
    ensures Find(a + [c] + b, c) == |a|
  {
    var s := a + [c] + b;
    assert s[|a|] == c && forall k | 0 <= k < |a| :: s[k] == a[k];
  }

  /** Decimals not written are zeros. */
  function FillDecimals(s: string, width: nat): (r: string)
    requires AllDigits(s)
    ensures AllDigits(r) && (|s| >= width ==> r == s)
  {
    if |s| >= width then s else s + seq(width - |s|, i => '0')
  }

  /** `parseDouble` on plain decimal notation with at most six decimals, in millionths. */
  function ParseMicro(s: string): Option<int> {
    var (minus, body) := Signed(SkipBlanks(s));
    ParseDecimal(minus, body)
  }

  function ParseDecimal(minus: bool, body: string): Option<int> { Decimal(minus, Before(body, '.'), Behind(body, '.')) }

  function Decimal(minus: bool, whole: string, part: string): Option<int> {
    if |whole| + |part| == 0 || |part| > 6 || !AllDigits(whole) || !AllDigits(part) then None
    else Some(Negated(minus, Value(whole) * 1000000 + Value(FillDecimals(part, 6))))
  }

  /** The text before and behind the first `c`. */
  function Before(s: string, c: char): string { s[..Find(s, c)] }

  function Behind(s: string, c: char): string { if Find(s, c) < |s| then s[Find(s, c) + 1..] else [] }

  lemma SplitAt(a: string, c: char, b: string)
    requires Lacks(a, c)
    ensures Before(a + [c] + b, c) == a && Behind(a + [c] + b, c) == b
  {
    FindAfter(a, c, b);
  }

  lemma SplitDecimal(whole: string, part: string)
    requires AllDigits(whole)
    ensures Before(whole + "." + part, '.') == whole && Behind(whole + "." + part, '.') == part
  {
    SplitAt(whole, '.', part);
  }

  lemma DecimalValue(minus: bool, whole: string, part: string)
    requires AllDigits(whole) && AllDigits(part) && |part| == 6 && whole != []
    ensures Decimal(minus, whole, part) == Some(Negated(minus, Value(whole) * 1000000 + Value(part)))
  {
  }

  lemma SafeDecimal(whole: string, part: string)
    requires AllDigits(whole) && AllDigits(part)
    ensures SafeChars(whole + "." + part) && SafeChars("-" + (whole + "." + part))
  {
    SafeDigits(whole);
    SafeDigits(part);
    var body := whole + "." + part;
    forall i | 0 <= i < |body|
      ensures SafeChar(body[i])
    {
      assert body[i] == if i < |whole| then whole[i] else if i == |whole| then '.' else part[i - |whole| - 1];
    }
    assert forall i | 0 <= i < |"-" + body| :: ("-" + body)[i] == if i == 0 then '-' else body[i - 1];
  }

  lemma MicroValue(n: nat)
    ensures Value(Digits(n / 1000000)) * 1000000 + Value(ZeroFill(Digits(n % 1000000), 6)) == n
  {
    ValueOfDigits(n / 1000000);
    ValueOfDigits(n % 1000000);
    ValueOfFilled(Digits(n % 1000000), 6);
  }

  /** Reading finds the parts. */
  lemma PartsFound(whole: string, part: string)
    requires AllDigits(whole) && whole != []
    ensures ParseMicro(whole + "." + part) == Decimal(false, whole, part)
    ensures ParseMicro("-" + (whole + "." + part)) == Decimal(true, whole, part)
  {
    var body := whole + "." + part;
    assert body[0] == whole[0];
    SignRead(body);
    SplitDecimal(whole, part);
  }

  /** The parts of a number in millionths. */
  lemma MicroParts(n: nat)
    ensures |ZeroFill(Digits(n % 1000000), 6)| == 6
    ensures Value(Digits(n / 1000000)) * 1000000 + Value(ZeroFill(Digits(n % 1000000), 6)) == n
  {
    MicroValue(n);
    Scale(0);
    DigitCount(n % 1000000, 6);
  }

  /** The value of the parts. */
  function Reading(minus: bool, n: int): Option<int>
    requires n >= 0
  {
    Decimal(minus, Digits(n / 1000000), ZeroFill(Digits(n % 1000000), 6))
  }

  lemma ReadingIsExact(minus: bool, n: int)
    requires n >= 0
    ensures Reading(minus, n) == Some(if minus then -n else n)
  {
    MicroParts(n);
    DecimalValue(minus, Digits(n / 1000000), ZeroFill(Digits(n % 1000000), 6));
  }

  lemma PrintedIsRead(n: int)
    requires n >= 0
    ensures ParseMicro(PrintPositive(n)) == Reading(false, n) && ParseMicro("-" + PrintPositive(n)) == Reading(true, n)
  {
    PartsFound(Digits(n / 1000000), ZeroFill(Digits(n % 1000000), 6));
  }

  lemma PrintedIsSafe(v: int)
    ensures SafeChars(PrintMicro(v)) && PrintMicro(v) != []
  {
    var n := if v < 0 then -v else v;
    SafeDecimal(Digits(n / 1000000), ZeroFill(Digits(n % 1000000), 6));
  }

  lemma MicroRoundTrip(v: int)
    ensures ParseMicro(PrintMicro(v)) == Some(v) && SafeChars(PrintMicro(v)) && PrintMicro(v) != []
  {
    var n := if v < 0 then -v else v;
    PrintedIsSafe(v);
    PrintedIsRead(n);
    ReadingIsExact(v < 0, n);
  }

  /** A number of at most 56 digits before the point, or 55 and a sign, fits the buffer. */
  lemma MicroLength(v: int)
    requires -Pow10(61) < v < Pow10(62)
    ensures |PrintMicro(v)| <= 63
  {
    var n := if v < 0 then -v else v;
    var k := if v < 0 then 55 else 56;
    Scale(k);
    Scale(0);
    DigitCount(n / 1000000, k);
    DigitCount(n % 1000000, 6);
  }

  // ----- What the print buffer cuts off

  /** No digit before the point and no decimal but zeros is cut off. */
  predicate Survives(n: nat) {
    var text := PrintPositive(n);
    |Digits(n / 1000000)| <= 63 && forall i | 63 <= i < |text| :: text[i] in {'.', '0'}
  }

  lemma {:induction false} ValueInjective(s: string, t: string)
    requires |s| == |t| && AllDigits(s) && AllDigits(t) && Value(s) == Value(t)
    ensures s == t
  {
    if s != [] {
      var m := |s| - 1;
      assert DigitValue(s[m]) == DigitValue(t[m]);
      ValueInjective(s[..m], t[..m]);
      assert s == s[..m] + [s[m]] && t == t[..m] + [t[m]];
    }
  }

  lemma {:induction false} ValueBound(s: string)
    requires AllDigits(s)
    ensures Value(s) < Pow10(|s|)
  {
    if s != [] {
      ValueBound(s[..|s| - 1]);
    }
  }

  /** Filling with zeros gives back decimals of which only zeros were cut off, and no others. */
  lemma FillCut(part: string, k: nat)
    requires AllDigits(part) && k <= |part|
    ensures |FillDecimals(part[..k], |part|)| == |part|
    ensures forall i | 0 <= i < |part| :: FillDecimals(part[..k], |part|)[i] == if i < k then part[i] else '0'
  {
  }

  lemma CutDecimals(part: string, k: nat)
    requires AllDigits(part) && |part| == 6 && k <= 6
    ensures Value(FillDecimals(part[..k], 6)) == Value(part) <==> forall i | k <= i < 6 :: part[i] == '0'
  {
    var filled := FillDecimals(part[..k], 6);
    FillCut(part, k);
    if Value(filled) == Value(part) {
      ValueInjective(filled, part);
    }
    if forall i | k <= i < 6 :: part[i] == '0' {
      assert filled == part;
    }
  }

  lemma DecimalFilled(whole: string, part: string)
    requires AllDigits(whole) && whole != [] && AllDigits(part) && |part| <= 6
    ensures Decimal(false, whole, part) == Some(Value(whole) * 1000000 + Value(FillDecimals(part, 6)))
  {
  }

  /** A number that was cut after some of its decimals. */
  lemma CutBehindPoint(whole: string, part: string)
    requires AllDigits(whole) && whole != [] && AllDigits(part) && |part| <= 6
    ensures ParseMicro(whole + "." + part) == Some(Value(whole) * 1000000 + Value(FillDecimals(part, 6)))
  {
    PartsFound(whole, part);
    DecimalFilled(whole, part);
  }

  /** A number that was cut right before its point. */
  lemma CutAtPoint(whole: string, none: string)
    requires AllDigits(whole) && whole != [] && none == []
    ensures ParseMicro(whole) == Some(Value(whole) * 1000000 + Value(FillDecimals(none, 6)))
  {
    WholeFound(whole);
    DecimalFilled(whole, none);
  }

  lemma WholeFound(whole: string)
    requires AllDigits(whole) && whole != []
    ensures ParseMicro(whole) == Decimal(false, whole, [])
  {
    SignRead(whole);
    NoPoint(whole);
  }

  lemma NoPoint(whole: string)
    requires AllDigits(whole)
    ensures Before(whole, '.') == whole && Behind(whole, '.') == []
  {
  }

  /** The text that is left of a number, with `k` decimals or without its point. */
  lemma CutText(whole: string, part: string, text: string, cut: string)
    requires AllDigits(whole) && AllDigits(part) && |part| == 6 && 57 <= |whole| <= 63
    requires text == (whole + "." + part)[..63] && cut == part[..if |whole| == 63 then 0 else 62 - |whole|]
    ensures ParseMicro(text).Some?
    ensures ParseMicro(text).value == Value(whole) * 1000000 + Value(FillDecimals(cut, 6))
  {
    CutShape(whole, part);
    if |whole| == 63 {
      CutAtPoint(whole, cut);
    } else {
      CutBehindPoint(whole, cut);
    }
  }

  lemma CutShape(whole: string, part: string)
    requires |part| == 6 && 57 <= |whole| <= 63
    ensures |whole| == 63 ==> (whole + "." + part)[..63] == whole && part[..0] == []
    ensures |whole| < 63 ==> (whole + "." + part)[..63] == whole + "." + part[..62 - |whole|]
  {
  }

  /** A printed number is read back exactly when nothing of it is lost in the buffer. */
  lemma ReadBackExactly(n: int)
    requires n >= 0
    ensures ParseMicro(Buffered(PrintMicro(n))) == Some(n) <==> Survives(n)
    ensures SafeChars(Buffered(PrintMicro(n))) && Buffered(PrintMicro(n)) != []
  {
    PrintedIsSafe(n);
    MicroParts(n);
    var whole, part := Digits(n / 1000000), ZeroFill(Digits(n % 1000000), 6);
    if |whole| <= 56 {
      MicroRoundTrip(n);
    } else if |whole| <= 63 {
      CutExactly(whole, part, n);
      assert Buffered(PrintMicro(n)) == (whole + "." + part)[..63];
    } else {
      LostDigits(n, whole);
      assert (whole + "." + part)[..63] == whole[..63];
    }
  }

  /** A number with 57 to 63 digits before its point is read back exactly when only zeros are cut off. */
  lemma CutExactly(whole: string, part: string, n: int)
    requires AllDigits(whole) && AllDigits(part) && |part| == 6 && 57 <= |whole| <= 63
    requires n == Value(whole) * 1000000 + Value(part)
    ensures var text := whole + "." + part;
      ParseMicro(text[..63]) == Some(n) <==> forall i | 63 <= i < |text| :: text[i] in {'.', '0'}
  {
    var k := if |whole| == 63 then 0 else 62 - |whole|;
    CutMeans(whole, part, n, (whole + "." + part)[..63], part[..k]);
    CutDecimals(part, k);
    CutZeros(whole, part, k);
  }

  lemma SameSum(v: int, a: int, x: int, y: int, n: int)
    requires v == a + x && n == a + y
    ensures v == n <==> x == y
  {
  }

  lemma CutMeans(whole: string, part: string, n: int, text: string, cut: string)
    requires AllDigits(whole) && AllDigits(part) && |part| == 6 && 57 <= |whole| <= 63
    requires text == (whole + "." + part)[..63] && cut == part[..if |whole| == 63 then 0 else 62 - |whole|]
    requires n == Value(whole) * 1000000 + Value(part)
    ensures ParseMicro(text).Some? && (ParseMicro(text).value == n <==> Value(FillDecimals(cut, 6)) == Value(part))
  {
    CutText(whole, part, text, cut);
    SameSum(ParseMicro(text).value, Value(whole) * 1000000, Value(FillDecimals(cut, 6)), Value(part), n);
  }

  lemma CutZeros(whole: string, part: string, k: nat)
    requires |part| == 6 && 57 <= |whole| <= 63 && k == if |whole| == 63 then 0 else 62 - |whole|
    requires AllDigits(part)
    ensures var text := whole + "." + part;
      (forall i | 63 <= i < |text| :: text[i] in {'.', '0'}) <==> forall i | k <= i < 6 :: part[i] == '0'
  {
    var text := whole + "." + part;
    assert forall i | 0 <= i < 6 :: text[|whole| + 1 + i] == part[i] && IsDigit(part[i]);
    if forall i | 63 <= i < |text| :: text[i] in {'.', '0'} {
      forall i | k <= i < 6
        ensures part[i] == '0'
      {
        assert text[|whole| + 1 + i] in {'.', '0'};
      }
    }
    if forall i | k <= i < 6 :: part[i] == '0' {
      forall i | 63 <= i < |text|
        ensures text[i] in {'.', '0'}
      {
        if i > |whole| {
          assert text[i] == part[i - |whole| - 1];
        }
      }
    }
  }

  /** Where a digit before the point is lost, the number read is smaller. */
  lemma LostDigits(n: int, whole: string)
    requires n >= 0 && whole == Digits(n / 1000000) && |whole| > 63
    ensures ParseMicro(whole[..63]) != Some(n)
  {
    var cut := whole[..63];
    CutAtPoint(cut, []);
    FillCut("000000", 0);
    ValueBound(cut);
    if n / 1000000 < Pow10(63) {
      DigitCount(n / 1000000, 63);
    }
    ValueBound(FillDecimals([], 6));
    Scale(0);
  }

  /** A whole number loses nothing exactly below 10^63: its decimals are zeros. */
  lemma WholeSurvives(n: nat)
    requires n % 1000000 == 0
    ensures Survives(n) <==> n < Pow10(63) * 1000000
  {
    var w := n / 1000000;
    MicroParts(n);
    if w < Pow10(63) {
      DigitCount(w, 63);
    } else {
      ManyDigits(w, 63);
    }
    ZerosFilled(Digits(0), 6);
    var text := PrintPositive(n);
    assert forall i | |Digits(w)| < i < |text| :: text[i] == '0';
  }

  lemma {:induction false} ZerosFilled(s: string, width: nat)
    requires forall i | 0 <= i < |s| :: s[i] == '0'
    ensures forall i | 0 <= i < |ZeroFill(s, width)| :: ZeroFill(s, width)[i] == '0'
    decreases width - |s|
  {
    if |s| < width {
      ZerosFilled("0" + s, width);
    }
  }

  lemma Scale21(k: nat)
    ensures Pow10(k + 21) == Pow10(k) * 1_000000_000000_000000_000
  {
    Scale(k);
    Scale(k + 6);
    Scale(k + 12);
    assert Pow10(k + 21) == 10 * Pow10(k + 20);
    assert Pow10(k + 20) == 10 * Pow10(k + 19);
    assert Pow10(k + 19) == 10 * Pow10(k + 18);
  }

  lemma Scale63(k: nat)
    ensures Pow10(k + 63)
            == Pow10(k) * 1_000000_000000_000000_000 * 1_000000_000000_000000_000 * 1_000000_000000_000000_000
  {
    Scale21(k);
    Scale21(k + 21);
    Scale21(k + 42);
  }

  lemma ManyDigits(w: nat, e: nat)
    requires w >= Pow10(e)
    ensures |Digits(w)| > e
  {
    ValueOfDigits(w);
    ValueBound(Digits(w));
    if |Digits(w)| <= e {
      Pow10Grows(|Digits(w)|, e);
    }
  }

  lemma {:induction false} Pow10Grows(j: nat, k: nat)
    requires j <= k
    ensures Pow10(j) <= Pow10(k)
  {
    if j < k {
      Pow10Grows(j, k - 1);
    }
  }

  lemma Scale(k: nat)
    ensures Pow10(k + 6) == Pow10(k) * 1000000
  {
    assert Pow10(k + 6) == 10 * Pow10(k + 5);
    assert Pow10(k + 5) == 10 * Pow10(k + 4);
    assert Pow10(k + 4) == 10 * Pow10(k + 3);
    assert Pow10(k + 3) == 10 * Pow10(k + 2);
    assert Pow10(k + 2) == 10 * Pow10(k + 1);
    assert Pow10(k + 1) == 10 * Pow10(k);
  }
}
