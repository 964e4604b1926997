/** Numbers in octal and hexadecimal, as `strtol` reads them with base 0. */
module TextBases {
  import opened CLong
  import opened Common
  import opened Text

  function BaseOf(hex: bool): (b: nat)
    ensures b in {8, 16}
  {
    if hex then 16 else 8
  }

  /** All digits but the last, and the last. */
  function Split(n: nat, hex: bool): (r: (nat, nat))
    ensures r.1 < BaseOf(hex) && n == r.0 * BaseOf(hex) + r.1
    ensures n >= BaseOf(hex) ==> r.0 < n
    ensures n < BaseOf(hex) ==> r.1 == n
  {
    if hex then (n / 16, n % 16) else (n / 8, n % 8)
  }

  function BaseDigit(d: nat, upper: bool): (c: char)
    requires d < 16
    ensures DigitOf(c) == d
  {
    if d < 10 then '0' + d as char else (if upper then 'A' else 'a') + (d - 10) as char
  }

  /** The digits of `n` in hexadecimal or octal, most significant first, with letters of either case. */
  function InBase(n: nat, hex: bool, upper: bool): (s: string)
    ensures |s| > 0
  {
    var (front, last) := Split(n, hex);
    if n < BaseOf(hex) then [BaseDigit(last, upper)] else InBase(front, hex, upper) + [BaseDigit(last, upper)]
  }

  lemma {:induction false} BaseDigits(n: nat, hex: bool, upper: bool, s: string, i: nat)
    requires i + |InBase(n, hex, upper)| <= |s| && s[i..i + |InBase(n, hex, upper)|] == InBase(n, hex, upper)
    ensures (var e := i + |InBase(n, hex, upper)|;
             && Magnitude(s, i, e, BaseOf(hex)) == n
             && forall k :: i <= k < e ==> DigitOf(s[k]) < BaseOf(hex))
  {
    hide DigitOf, Split, BaseOf, BaseDigit;
    var d := InBase(n, hex, upper);
    var e := i + |d|;
    assert s[e - 1] == s[i..e][|d| - 1] == d[|d| - 1];
    if n < BaseOf(hex) {
      assert Magnitude(s, i, i, BaseOf(hex)) == 0;
    } else {
      var front := Split(n, hex).0;
      var p := InBase(front, hex, upper);
      assert s[i..i + |p|] == s[i..e][..|p|] == p;
      BaseDigits(front, hex, upper, s, i);
    }
  }

  lemma DigitsOf(n: nat, hex: bool, upper: bool, s: string, i: nat)
    requires i <= |s| && s[i..] == InBase(n, hex, upper)
    ensures DigitEnd(s, i, BaseOf(hex)) == |s| && Magnitude(s, i, |s|, BaseOf(hex)) == n
    ensures i < |s| && DigitOf(s[i]) < BaseOf(hex)
  {
    hide DigitOf, InBase, BaseOf, Magnitude, DigitEnd;
    assert i + |InBase(n, hex, upper)| == |s| && s[i..|s|] == s[i..];
    BaseDigits(n, hex, upper, s, i);
    NoDigit(BaseOf(hex));
    DigitEndIs(s, i, |s|, BaseOf(hex));
  }

  lemma NoDigit(base: nat)
    requires base <= 36
    ensures DigitOf('\0') >= base
  {
  }

  function BasedText(n: nat, hex: bool, upper: bool): (s: string)
    ensures |s| > 0
  {
    if hex then (if upper then "0X" else "0x") + InBase(n, true, upper) else "0" + InBase(n, false, upper)
  }

  lemma BasedRead(s: string, k: nat, n: nat, hex: bool, upper: bool)
    requires k <= |s|
    requires s[k..] == BasedText(n, hex, upper)
    ensures Unsigned(s, k) == (n, |s|) && k < |s|
  {
    hide InBase, DigitOf;
    var d := if hex then 2 else 1;
    assert s[k] == s[k..][0] == '0';
    assert s[k + d..] == s[k..][d..];
    if hex {
      assert s[k + 1] == s[k..][1];
      DigitsOf(n, true, upper, s, k + 2);
    } else {
      assert s[k + 1..] == InBase(n, false, upper);
      DigitsOf(n, false, upper, s, k + 1);
      XIsNoOctal();
      LeadingZero(s, k);
    }
  }

  lemma XIsNoOctal()
    ensures DigitOf('x') >= 8 && DigitOf('X') >= 8 && DigitOf('0') == 0
  {
  }

  /** A zero in front changes neither the end nor the value of octal digits. */
  lemma LeadingZero(s: string, k: nat)
    requires k < |s| && s[k] == '0' && DigitEnd(s, k + 1, 8) == |s|
    ensures DigitEnd(s, k, 8) == |s| && Magnitude(s, k, |s|, 8) == Magnitude(s, k + 1, |s|, 8)
  {
    ZeroInFront(s, k, |s|);
  }

  lemma {:induction false} ZeroInFront(s: string, k: nat, e: nat)
    requires k < e <= |s| && s[k] == '0'
    ensures Magnitude(s, k, e, 8) == Magnitude(s, k + 1, e, 8)
    decreases e
  {
    if k + 1 < e {
      ZeroInFront(s, k, e - 1);
    } else {
      assert Magnitude(s, k, k, 8) == 0;
    }
  }

  /** Numbers are read in octal behind `0`, and in hexadecimal behind `0x` or `0X`, in either case, with a sign or
      without. */
  lemma BasesRead(n: Long, hex: bool, upper: bool, sign: string)
    requires n >= 0 && sign in ["", "+", "-"]
    ensures ParseLong(sign + BasedText(n, hex, upper)) == Some(if sign == "-" then -n else n)
  {
    var digits := BasedText(n, hex, upper);
    assert digits[0] == '0';
    hide *;
    var s, k := sign + digits, |sign|;
    assert s[k..] == digits;
    assert s[k] == '0' && (sign != "" ==> s[0] == sign[0]);
    BasedRead(s, k, n, hex, upper);
    SignedRead(s, k, n);
  }

  lemma SignedRead(s: string, k: nat, n: Long)
    requires k < |s| && s[k] == '0' && n >= 0 && Unsigned(s, k) == (n, |s|)
    requires k == 0 || (k == 1 && s[0] in {'+', '-'})
    ensures ParseLong(s) == Some(if s[0] == '-' then -n else n)
  {
    hide Unsigned;
    SpaceEndIs(s, 0, 0);
  }

  /** A text that begins with a letter is no number. */
  lemma LettersAreNoNumber(s: string)
    requires s != "" && IsNameStart(s[0])
    ensures ParseLong(s) == None
  {
    SpaceEndIs(s, 0, 0);
  }
}
