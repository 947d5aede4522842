/** Character classes and the lexical forms of the numbers the component
    format carries: Python's whitespace test, its base-10 `int()` and
    `float()` literal grammars, `str()` of an integer, and `str.join`. */
module Text {
  import opened Results

  /** Python's `str.isspace` for one character: the ASCII controls 9-13 and
      28-31, the space, and the Unicode separators Python counts as space. */
  predicate IsSpace(c: char) {
    var n := c as int;
    || (9 <= n <= 13) || (28 <= n <= 32)
    || n == 0x85 || n == 0xA0 || n == 0x1680
    || (0x2000 <= n <= 0x200A)
    || n == 0x2028 || n == 0x2029 || n == 0x202F || n == 0x205F || n == 0x3000
  }

  /** A token as the tokenizer produces it: non-empty, without whitespace. */
  predicate IsWord(t: string) {
    |t| > 0 && forall i | 0 <= i < |t| :: !IsSpace(t[i])
  }

  predicate IsDigit(c: char) {
    '0' <= c <= '9'
  }

  function DigitValue(c: char): (d: nat)
    requires IsDigit(c)
    ensures d < 10
  {
    (c as int) - ('0' as int)
  }

  function DigitChar(d: nat): (c: char)
    requires d < 10
    ensures IsDigit(c) && DigitValue(c) == d
  {
    ((('0' as int) + d) as char)
  }

  // ---------------------------------------------------------------------------
  // Integers
  // ---------------------------------------------------------------------------

  /** Decimal digits of `n`, most significant first, no leading zeros. */
  function ShowNat(n: nat): (s: string)
    ensures |s| > 0
    ensures forall i | 0 <= i < |s| :: IsDigit(s[i])
    decreases n
  {
    if n < 10 then [DigitChar(n)] else ShowNat(n / 10) + [DigitChar(n % 10)]
  }

  /** Python's `str(i)` for an integer. */
  function ShowInt(i: int): string {
    if i < 0 then "-" + ShowNat(-i) else ShowNat(i)
  }

  /** A run of digits in which single underscores may separate two digits
      (the digit-part of Python's numeric literals). */
  predicate DigitPart(s: string) {
    && |s| > 0 && IsDigit(s[0]) && IsDigit(s[|s| - 1])
    && (forall i | 0 <= i < |s| :: IsDigit(s[i]) || s[i] == '_')
    && (forall i | 0 <= i < |s| - 1 :: SingleUnderscore(s, i))
  }

  /** No underscore at `i` is followed by another. */
  predicate SingleUnderscore(s: string, i: nat)
    requires i + 1 < |s|
  {
    s[i] == '_' ==> s[i + 1] != '_'
  }

  /** The number a digit-part denotes; underscores carry no weight. */
  function DigitsValue(s: string): nat
    decreases |s|
  {
    if |s| == 0 then 0
    else if IsDigit(s[|s| - 1]) then 10 * DigitsValue(s[..|s| - 1]) + DigitValue(s[|s| - 1])
    else DigitsValue(s[..|s| - 1])
  }

  /** Python's `int(t)` on a whitespace-free token: an optional sign followed
      by a digit-part; `None` where Python raises. */
  function ParseInt(t: string): (r: Option<int>)
    ensures r.Some? ==> |t| > 0
    ensures r.Some? ==> forall i | 0 <= i < |t| ::
              IsDigit(t[i]) || t[i] == '_' || (i == 0 && (t[i] == '-' || t[i] == '+'))
  {
    if |t| > 0 && (t[0] == '-' || t[0] == '+') then
      if DigitPart(t[1..]) then
        var v: int := DigitsValue(t[1..]);
        Some(if t[0] == '-' then -v else v)
      else None
    else if DigitPart(t) then Some(DigitsValue(t))
    else None
  }

  lemma {:induction false} ShowNatValue(n: nat)
    ensures DigitsValue(ShowNat(n)) == n
    decreases n
  {
    if n >= 10 {
      var s := ShowNat(n);
      assert s[..|s| - 1] == ShowNat(n / 10);
      ShowNatValue(n / 10);
    }
  }

  lemma ShowNatDigitPart(n: nat)
    ensures DigitPart(ShowNat(n))
  {
  }

  /** The digits of a natural number are a digit-part denoting it. */
  lemma ShowNatReadsBack(n: nat)
    ensures DigitPart(ShowNat(n)) && DigitsValue(ShowNat(n)) == n
  {
    ShowNatDigitPart(n);
    ShowNatValue(n);
  }

  /** `int(str(i)) == i`: the integer text the naming rules produce reads
      back as the same integer. */
  lemma ParseShowInt(i: int)
    ensures ParseInt(ShowInt(i)) == Some(i)
  {
    var s := ShowInt(i);
    if i < 0 {
      var d := ShowNat(-i);
      assert s[0] == '-' && s[1..] == d;
      ShowNatReadsBack(-i);
    } else {
      assert IsDigit(s[0]);
      ShowNatReadsBack(i);
    }
  }

  /** The printed integer is one non-empty whitespace-free word. */
  lemma ShowIntHasNoSpace(i: int)
    ensures IsWord(ShowInt(i))
  {
    var w := ShowInt(i);
    if i < 0 {
      assert forall k | 1 <= k < |w| :: w[k] == ShowNat(-i)[k - 1];
    }
  }

  /** Distinct integers print differently. */
  lemma ShowIntInjective(a: int, b: int)
    ensures ShowInt(a) == ShowInt(b) <==> a == b
  {
    if ShowInt(a) == ShowInt(b) {
      ParseShowInt(a);
      ParseShowInt(b);
    }
  }

  // ---------------------------------------------------------------------------
  // Floats
  // ---------------------------------------------------------------------------

  /** A floating-point element as written in the file. Its numeric value
      (and float32 rounding) is not modelled; the lexeme has passed
      `FloatLit`, so Python's `float()` accepts it. */
  datatype Float = Float(lexeme: string)

  function LowerAscii(c: char): char {
    if 'A' <= c <= 'Z' then ((c as int) + 32) as char else c
  }

  /** `s` spells the lower-case word `w` up to ASCII case. */
  predicate SpellsIgnoringCase(s: string, w: string) {
    |s| == |w| && forall i | 0 <= i < |s| :: LowerAscii(s[i]) == w[i]
  }

  /** `s` without one leading sign character. */
  function Unsigned(s: string): (u: string)
    ensures |u| <= |s|
  {
    if |s| > 0 && (s[0] == '+' || s[0] == '-') then s[1..] else s
  }

  /** Index of the first `a` or `b` in `s`, or `|s|` when there is none. */
  function FirstOf(s: string, a: char, b: char): (k: nat)
    ensures k <= |s|
    ensures forall i | 0 <= i < k :: s[i] != a && s[i] != b
    ensures k < |s| ==> s[k] == a || s[k] == b
    decreases |s|
  {
    if |s| == 0 then 0
    else if s[0] == a || s[0] == b then 0
    else 1 + FirstOf(s[1..], a, b)
  }

  /** Digits with at most one decimal point and at least one digit. */
  predicate Mantissa(m: string) {
    var d := FirstOf(m, '.', '.');
    if d < |m| then
      var whole, frac := m[..d], m[d + 1..];
      && (|whole| > 0 || |frac| > 0)
      && (|whole| == 0 || DigitPart(whole))
      && (|frac| == 0 || DigitPart(frac))
    else DigitPart(m)
  }

  /** The lexical grammar of Python's `float()` on a whitespace-free token. */
  predicate FloatLit(t: string) {
    var u := Unsigned(t);
    || SpellsIgnoringCase(u, "inf")
    || SpellsIgnoringCase(u, "infinity")
    || SpellsIgnoringCase(u, "nan")
    || (var e := FirstOf(u, 'e', 'E');
        if e < |u| then Mantissa(u[..e]) && DigitPart(Unsigned(u[e + 1..]))
        else Mantissa(u))
  }

  /** Python's `float(t)`, keeping the lexeme; `None` where Python raises. */
  function ParseFloat(t: string): (r: Option<Float>)
    ensures r.Some? <==> FloatLit(t)
    ensures r.Some? ==> r.value.lexeme == t
  {
    if FloatLit(t) then Some(Float(t)) else None
  }

  /** A one-character token that is no digit, sign, point or letter is no number. */
  lemma OddCharIsNotNumber(c: char)
    requires !IsDigit(c) && c != '+' && c != '-' && c != '.' && c != '_'
    requires !('a' <= c <= 'z') && !('A' <= c <= 'Z')
    ensures !FloatLit([c]) && ParseInt([c]) == None
  {
    var t := [c];
    assert Unsigned(t) == t;
    assert !SpellsIgnoringCase(t, "inf") && !SpellsIgnoringCase(t, "infinity");
    assert !SpellsIgnoringCase(t, "nan") by {
      assert |t| != |"nan"|;
    }
    assert FirstOf(t, 'e', 'E') == 1 by {
      assert FirstOf(t[1..], 'e', 'E') == 0;
    }
    assert FirstOf(t, '.', '.') == 1 by {
      assert FirstOf(t[1..], '.', '.') == 0;
    }
    assert !DigitPart(t);
  }

  /** Neither bracket token is a number, so the readers never take one for an element. */
  lemma BracketsAreNotNumbers()
    ensures !FloatLit("[") && !FloatLit("]")
    ensures ParseInt("[") == None && ParseInt("]") == None
  {
    OddCharIsNotNumber('[');
    OddCharIsNotNumber(']');
  }

  lemma NoCharInDigitPart(s: string, a: char, b: char)
    requires DigitPart(s)
    requires !IsDigit(a) && a != '_' && !IsDigit(b) && b != '_'
    ensures FirstOf(s, a, b) == |s|
  {
  }

  /** Every token `int()` accepts, `float()` accepts too. */
  lemma IntLiteralIsFloatLiteral(t: string)
    requires ParseInt(t).Some?
    ensures FloatLit(t)
  {
    var u := Unsigned(t);
    assert DigitPart(u);
    NoCharInDigitPart(u, 'e', 'E');
    NoCharInDigitPart(u, '.', '.');
  }

  // ---------------------------------------------------------------------------
  // Joining
  // ---------------------------------------------------------------------------

  /** Python's `sep.join(parts)`. */
  function Join(sep: string, parts: seq<string>): string
    decreases |parts|
  {
    if |parts| == 0 then ""
    else if |parts| == 1 then parts[0]
    else parts[0] + sep + Join(sep, parts[1..])
  }

  /** Joining one more part appends the separator and that part. */
  lemma {:induction false} JoinSnoc(sep: string, parts: seq<string>, last: string)
    requires |parts| > 0
    ensures Join(sep, parts + [last]) == Join(sep, parts) + sep + last
    decreases |parts|
  {
    if |parts| == 1 {
      assert parts + [last] == [parts[0], last];
      assert [parts[0], last][1..] == [last];
    } else {
      assert (parts + [last])[1..] == parts[1..] + [last];
      JoinSnoc(sep, parts[1..], last);
    }
  }
}
