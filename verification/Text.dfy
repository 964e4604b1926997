/** C strings, character classes of the "C" locale, and the two number conversions the
    variable store and the arithmetic evaluator rest on: `strtol(text, &end, 0)` and the
    decimal formatter. */
module Text {
  import opened CLong
  import opened Common

  /** `s[i]` of a NUL-terminated string. */
  function At(s: string, i: nat): char {
    if i < |s| then s[i] else '\0'
  }

  predicate IsSpace(c: char) {
    c == ' ' || c == '\t' || c == '\n' || c == '\r' || c == 11 as char || c == 12 as char
  }

  predicate IsDigit(c: char) {
    '0' <= c <= '9'
  }

  predicate IsAlpha(c: char) {
    'a' <= c <= 'z' || 'A' <= c <= 'Z'
  }

  predicate IsNameStart(c: char) {
    IsAlpha(c) || c == '_'
  }

  predicate IsNameChar(c: char) {
    IsNameStart(c) || IsDigit(c)
  }

  predicate IsName(s: string) {
    |s| > 0 && IsNameStart(s[0]) && forall i :: 0 <= i < |s| ==> IsNameChar(s[i])
  }

  function SpaceEnd(s: string, i: nat): (e: nat)
    requires i <= |s|
    ensures i <= e <= |s|
    ensures !IsSpace(At(s, e))
    ensures forall k :: i <= k < e ==> IsSpace(s[k])
    decreases |s| - i
  {
    if i < |s| && IsSpace(s[i]) then SpaceEnd(s, i + 1) else i
  }

  function NameEnd(s: string, i: nat): (e: nat)
    requires i <= |s|
    ensures i <= e <= |s|
    ensures !IsNameChar(At(s, e))
    ensures forall k :: i <= k < e ==> IsNameChar(s[k])
    decreases |s| - i
  {
    if i < |s| && IsNameChar(s[i]) then NameEnd(s, i + 1) else i
  }

  /** A scan that stops at the first character outside its class is determined by where it stops. */
  lemma {:induction false} SpaceEndIs(s: string, i: nat, e: nat)
    requires i <= e <= |s| && !IsSpace(At(s, e))
    requires forall k :: i <= k < e ==> IsSpace(s[k])
    ensures SpaceEnd(s, i) == e
    decreases e - i
  {
    if i < e {
      SpaceEndIs(s, i + 1, e);
    }
  }

  lemma {:induction false} NameEndIs(s: string, i: nat, e: nat)
    requires i <= e <= |s| && !IsNameChar(At(s, e))
    requires forall k :: i <= k < e ==> IsNameChar(s[k])
    ensures NameEnd(s, i) == e
    decreases e - i
  {
    if i < e {
      NameEndIs(s, i + 1, e);
    }
  }

  // ---------- digits ----------

  /** The value of a digit or letter, or 99 where there is none. */
  function DigitOf(c: char): (d: nat) {
    if IsDigit(c) then c as int - '0' as int
    else if 'a' <= c <= 'z' then c as int - 'a' as int + 10
    else if 'A' <= c <= 'Z' then c as int - 'A' as int + 10
    else 99
  }

  function DigitEnd(s: string, i: nat, base: nat): (e: nat)
    requires i <= |s| && base <= 36
    ensures i <= e <= |s|
    ensures DigitOf(At(s, e)) >= base
    ensures forall k :: i <= k < e ==> DigitOf(s[k]) < base
    decreases |s| - i
  {
    if i < |s| && DigitOf(s[i]) < base then DigitEnd(s, i + 1, base) else i
  }

  lemma {:induction false} DigitEndIs(s: string, i: nat, e: nat, base: nat)
    requires i <= e <= |s| && base <= 36 && DigitOf(At(s, e)) >= base
    requires forall k :: i <= k < e ==> DigitOf(s[k]) < base
    ensures DigitEnd(s, i, base) == e
    decreases e - i
  {
    if i < e {
      DigitEndIs(s, i + 1, e, base);
    }
  }

  /** The number whose digits are `s[i..e]`, most significant first. */
  function Magnitude(s: string, i: nat, e: nat, base: nat): nat
    requires i <= e <= |s|
  {
    if i == e then 0 else Magnitude(s, i, e - 1, base) * base + DigitOf(s[e - 1])
  }

  lemma {:induction false} MagnitudeShift(s: string, t: string, i: nat, j: nat, n: nat, base: nat)
    requires i + n <= |s| && j + n <= |t| && s[i..i + n] == t[j..j + n]
    ensures Magnitude(s, i, i + n, base) == Magnitude(t, j, j + n, base)
  {
    if n > 0 {
      assert s[i..i + n - 1] == s[i..i + n][..n - 1] == t[j..j + n][..n - 1] == t[j..j + n - 1];
      assert s[i + n - 1] == s[i..i + n][n - 1] == t[j..j + n][n - 1] == t[j + n - 1];
      MagnitudeShift(s, t, i, j, n - 1, base);
    }
  }

  // ---------- strtol(text + i, &end, 0) ----------

  /** `end` is where the conversion stopped; it is `i` itself when there was nothing to convert.
      `range` is the ERANGE flag. */
  datatype Conversion = Conversion(value: Long, end: nat, range: bool)

  /** The digits after an optional sign, in base 16, 8 or 10 by their prefix. */
  datatype Digits = Digits(start: nat, base: nat)

  function DigitsAt(s: string, k: nat): (d: Digits)
    requires k <= |s|
    ensures k <= d.start <= |s| && d.base in {8, 10, 16}
  {
    if At(s, k) == '0' && At(s, k + 1) in {'x', 'X'} && DigitOf(At(s, k + 2)) < 16 then
      Digits(k + 2, 16)
    else if At(s, k) == '0' then Digits(k, 8)
    else Digits(k, 10)
  }

  function Unsigned(s: string, k: nat): (r: (nat, nat))
    requires k <= |s|
    ensures k <= r.1 <= |s|
    ensures r.1 > k <==> IsDigit(At(s, k))
  {
    var d := DigitsAt(s, k);
    var e := DigitEnd(s, d.start, d.base);
    (Magnitude(s, d.start, e, d.base), e)
  }

  function Strtol(s: string, i: nat): (c: Conversion)
    requires i <= |s|
    ensures i <= c.end <= |s|
  {
    var j := SpaceEnd(s, i);
    var signed := At(s, j) in {'+', '-'};
    var k := if signed then j + 1 else j;
    var (m, e) := Unsigned(s, k);
    if e == k then Conversion(0, i, false)
    else
      var v: int := if At(s, j) == '-' then -(m as int) else m;
      if LONG_MIN <= v <= LONG_MAX then Conversion(v, e, false)
      else Conversion(if v < 0 then LONG_MIN else LONG_MAX, e, true)
  }

  /** `vars_parse_long_value`: the whole text must be one number in range. */
  function ParseLong(text: string): Option<Long> {
    if text == "" then None
    else
      var c := Strtol(text, 0);
      if c.end == 0 || c.end < |text| || c.range then None else Some(c.value)
  }

  // ---------- decimal text ----------

  function DigitChar(d: nat): (c: char)
    requires d < 10
    ensures IsDigit(c) && DigitOf(c) == d
  {
    '0' + d as char
  }

  /** The digits of `n`, most significant first, without a superfluous zero. */
  function Decimal(n: nat): (s: string)
    ensures |s| > 0
    ensures forall k :: 0 <= k < |s| ==> IsDigit(s[k])
    ensures s[0] == '0' <==> n == 0
    ensures n == 0 ==> |s| == 1
  {
    if n < 10 then [DigitChar(n)] else Decimal(n / 10) + [DigitChar(n % 10)]
  }

  function LongText(v: Long): (s: string)
    ensures |s| > 0
  {
    if v < 0 then "-" + Decimal(Abs(v)) else Decimal(Abs(v))
  }

  lemma {:induction false} DecimalMagnitude(n: nat, s: string, i: nat)
    requires i + |Decimal(n)| <= |s| && s[i..i + |Decimal(n)|] == Decimal(n)
    ensures Magnitude(s, i, i + |Decimal(n)|, 10) == n
  {
    var d := Decimal(n);
    assert s[i + |d| - 1] == s[i..i + |d|][|d| - 1] == d[|d| - 1];
    if n < 10 {
      assert Magnitude(s, i, i, 10) == 0;
    } else {
      var p := Decimal(n / 10);
      assert d == p + [DigitChar(n % 10)];
      assert s[i..i + |p|] == s[i..i + |d|][..|p|] == p;
      DecimalMagnitude(n / 10, s, i);
    }
  }

  lemma {:induction false} DecimalLength(n: nat, k: nat)
    requires k > 0 && n < Pow10(k)
    ensures |Decimal(n)| <= k
  {
    if n >= 10 {
      DecimalLength(n / 10, k - 1);
    }
  }

  function Pow10(k: nat): nat {
    if k == 0 then 1 else 10 * Pow10(k - 1)
  }

  /** Reading back decimal digits that stand anywhere in a text and are not followed by a digit or letter. */
  lemma UnsignedDecimal(s: string, k: nat, n: nat)
    requires k + |Decimal(n)| <= |s| && s[k..k + |Decimal(n)|] == Decimal(n)
    requires !IsNameChar(At(s, k + |Decimal(n)|))
    ensures Unsigned(s, k) == (n, k + |Decimal(n)|)
  {
    var d := Decimal(n);
    var e := k + |d|;
    forall i | k <= i < e ensures s[i] == d[i - k] && IsDigit(s[i]) {
      assert s[i] == s[k..e][i - k];
    }
    if n == 0 {
      assert At(s, k + 1) == At(s, e);
      DigitEndIs(s, k, e, 8);
      assert Magnitude(s, k, k, 8) == 0;
    } else {
      DigitEndIs(s, k, e, 10);
      DecimalMagnitude(n, s, k);
    }
  }

  lemma StrtolSigned(s: string, i: nat, v: Long)
    requires i <= |s| && s[i..] == LongText(v)
    ensures Strtol(s, i) == Conversion(v, |s|, false)
  {
    hide Unsigned, Decimal;
    var k := if v < 0 then i + 1 else i;
    var d := Decimal(Abs(v));
    assert s[i] == s[i..][0];
    assert s[k..] == s[i..][k - i..] == d;
    assert s[k..k + |d|] == d;
    SpaceEndIs(s, i, i);
    UnsignedDecimal(s, k, Abs(v));
  }

  /** Formatting and parsing undo each other for every long, LONG_MIN included. */
  lemma ParseFormatted(v: Long)
    ensures ParseLong(LongText(v)) == Some(v)
  {
    hide Strtol, LongText;
    var s := LongText(v);
    assert s[0..] == s;
    StrtolSigned(s, 0, v);
  }

  /** Digits, sign and terminator fit in a buffer of `3 + 3 * sizeof(long)` bytes. */
  lemma FormattedFits(v: Long)
    ensures |LongText(v)| + 1 <= 3 + 3 * 8
  {
    var n := Abs(v);
    assert Pow10(5) == 100000;
    assert Pow10(10) == 100000 * Pow10(5);
    assert Pow10(15) == 100000 * Pow10(10);
    assert Pow10(20) == 100000 * Pow10(15);
    DecimalLength(n, 20);
  }

  lemma {:induction false} DecimalInjective(m: nat, n: nat)
    requires Decimal(m) == Decimal(n)
    ensures m == n
  {
    DecimalMagnitude(m, Decimal(m), 0);
    DecimalMagnitude(n, Decimal(n), 0);
  }

  // ---------- vars_format_long_decimal ----------

  /** The digits of `n`, least significant first: the order in which the formatter produces them. */
  function ReversedDecimal(n: nat): (s: string)
    ensures |s| > 0
  {
    if n < 10 then [DigitChar(n)] else [DigitChar(n % 10)] + ReversedDecimal(n / 10)
  }

  function Reverse(s: string): (r: string)
    ensures |r| == |s|
    ensures forall k :: 0 <= k < |s| ==> r[k] == s[|s| - 1 - k]
  {
    if s == "" then "" else Reverse(s[1..]) + [s[0]]
  }

  lemma {:induction false} ReversedDecimalIsReverse(n: nat)
    ensures Reverse(ReversedDecimal(n)) == Decimal(n)
  {
    if n < 10 {
      assert ReversedDecimal(n)[1..] == "";
    } else {
      ReversedDecimalIsReverse(n / 10);
      assert ReversedDecimal(n)[1..] == ReversedDecimal(n / 10);
    }
  }

  lemma ReverseWithSign(s: string)
    ensures Reverse(s + "-") == "-" + Reverse(s)
  {
    var r := Reverse(s + "-");
    assert |r| == |s| + 1;
    forall k | 0 <= k < |r| ensures r[k] == ("-" + Reverse(s))[k] {
    }
  }

  /** The first loop of the formatter: the digits of the magnitude, least significant first. */
  method EmitDigits(magnitude: nat, buf: array<char>) returns (pos: nat)
    requires |ReversedDecimal(magnitude)| <= buf.Length
    modifies buf
    ensures pos <= buf.Length && buf[..pos] == ReversedDecimal(magnitude)
  {
    var rest: nat := magnitude / 10;
    buf[0] := DigitChar(magnitude % 10);
    pos := 1;
    while rest != 0
      invariant 1 <= pos <= buf.Length
      invariant ReversedDecimal(magnitude) == buf[..pos] + (if rest == 0 then "" else ReversedDecimal(rest))
    {
      ghost var before := buf[..pos];
      ghost var tail := ReversedDecimal(rest);
      assert |before + tail| <= buf.Length;
      buf[pos] := DigitChar(rest % 10);
      pos := pos + 1;
      assert buf[..pos] == before + [DigitChar(rest % 10)];
      assert tail == [DigitChar(rest % 10)] + (if rest / 10 == 0 then "" else ReversedDecimal(rest / 10));
      rest := rest / 10;
    }
  }

  /** The second loop of the formatter: the first `pos` characters turned round in place. */
  method ReversePrefix(buf: array<char>, pos: nat)
    requires pos <= buf.Length
    modifies buf
    ensures buf[..pos] == Reverse(old(buf[..pos]))
    ensures buf[pos..] == old(buf[pos..])
  {
    for i := 0 to pos / 2
      invariant forall k :: 0 <= k < i ==> buf[k] == old(buf[pos - 1 - k]) && buf[pos - 1 - k] == old(buf[k])
      invariant forall k :: i <= k < pos - i || pos <= k < buf.Length ==> buf[k] == old(buf[k])
    {
      buf[i], buf[pos - 1 - i] := buf[pos - 1 - i], buf[i];
    }
    ghost var was := old(buf[..pos]);
    assert forall k :: 0 <= k < pos ==> buf[..pos][k] == was[pos - 1 - k];
  }

  lemma {:induction false} ReversedDecimalLength(n: nat)
    ensures |ReversedDecimal(n)| == |Decimal(n)|
  {
    if n >= 10 {
      ReversedDecimalLength(n / 10);
    }
  }

  /** Digits in reverse order followed by the sign, turned round, are the text of the long. */
  lemma FormatPlan(value: Long, raw: string)
    requires raw == ReversedDecimal(Abs(value)) + (if value < 0 then "-" else "")
    ensures Reverse(raw) == LongText(value) && |raw| + 1 <= 3 + 3 * 8
  {
    FormattedFits(value);
    ReversedDecimalLength(Abs(value));
    ReversedDecimalIsReverse(Abs(value));
    ReverseWithSign(ReversedDecimal(Abs(value)));
    assert value >= 0 ==> raw == ReversedDecimal(Abs(value));
  }

  /** Fills `buf` with the decimal text of `value` and a terminator: digits and sign, then reversed in place. */
  method FormatLongDecimal(value: Long, buf: array<char>) returns (pos: nat)
    requires buf.Length == 3 + 3 * 8
    modifies buf
    ensures pos < buf.Length
    ensures buf[..pos] == LongText(value) && buf[pos] == '\0'
  {
    hide Reverse, LongText;
    ghost var digits := ReversedDecimal(Abs(value));
    ghost var raw := digits + (if value < 0 then "-" else "");
    FormatPlan(value, raw);
    pos := EmitDigits(Abs(value), buf);
    if value < 0 {
      buf[pos] := '-';
      pos := pos + 1;
    }
    assert buf[..pos] == raw;
    ReversePrefix(buf, pos);
    buf[pos] := '\0';
    assert buf[..pos] == LongText(value);
  }
}
