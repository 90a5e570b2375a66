/** String operations the source takes from JavaScript: decimal digits,
    zero-padded decimal text (as Date.prototype.toISOString prints fields),
    parseInt, String.prototype.trim and toLowerCase. */
module Text {
  import opened Common

  predicate IsDigit(c: char) { '0' <= c <= '9' }

  predicate AllDigits(s: string) { forall i :: 0 <= i < |s| ==> IsDigit(s[i]) }

  function DigitValue(c: char): (d: nat)
    requires IsDigit(c)
    ensures d < 10
  {
    (c as int) - ('0' as int)
  }

  function DigitChar(d: nat): (c: char)
    requires d < 10
    ensures IsDigit(c) && DigitValue(c) == d
  {
    (('0' as int) + d) as char
  }

  /** The value of a string of decimal digits, most significant first. */
  function DigitsValue(s: string): nat
    requires AllDigits(s)
  {
    if s == [] then 0 else 10 * DigitsValue(s[..|s| - 1]) + DigitValue(s[|s| - 1])
  }

  /** Shortest decimal text of n. */
  function Decimal(n: nat): (r: string)
    ensures |r| >= 1 && AllDigits(r)
  {
    if n < 10 then [DigitChar(n)] else Decimal(n / 10) + [DigitChar(n % 10)]
  }

  function Zeros(k: int): (r: string)
    ensures |r| == if k <= 0 then 0 else k
    ensures forall i :: 0 <= i < |r| ==> r[i] == '0'
    ensures AllDigits(r)
  {
    if k <= 0 then [] else Zeros(k - 1) + ['0']
  }

  /** Decimal text of n left-padded with zeros to width w (longer when n
      needs more than w digits). */
  function Pad(n: nat, w: nat): (r: string)
    ensures AllDigits(r) && |r| >= w
  {
    Zeros(w - |Decimal(n)|) + Decimal(n)
  }

  function Pow10(k: nat): nat { if k == 0 then 1 else 10 * Pow10(k - 1) }

  lemma {:induction false} DecimalValue(n: nat)
    ensures DigitsValue(Decimal(n)) == n
  {
    if n >= 10 {
      DecimalValue(n / 10);
      var r := Decimal(n);
      assert r[..|r| - 1] == Decimal(n / 10);
    }
  }

  lemma {:induction false} DecimalLength(n: nat, k: nat)
    requires 1 <= k && n < Pow10(k)
    ensures |Decimal(n)| <= k
  {
    if n >= 10 {
      DecimalLength(n / 10, k - 1);
    }
  }

  lemma {:induction false} LeadingZerosValue(k: int, s: string)
    requires AllDigits(s)
    ensures AllDigits(Zeros(k) + s) && DigitsValue(Zeros(k) + s) == DigitsValue(s)
    decreases |s|
  {
    var z := Zeros(k) + s;
    if s == [] {
      assert z == Zeros(k);
      ZerosValue(k);
    } else {
      assert z[..|z| - 1] == Zeros(k) + s[..|s| - 1];
      LeadingZerosValue(k, s[..|s| - 1]);
    }
  }

  lemma {:induction false} AllZerosValue(s: string)
    requires forall i :: 0 <= i < |s| ==> s[i] == '0'
    ensures AllDigits(s) && DigitsValue(s) == 0
  {
    if s != [] {
      AllZerosValue(s[..|s| - 1]);
    }
  }

  lemma ZerosValue(k: int)
    ensures DigitsValue(Zeros(k)) == 0
  {
    AllZerosValue(Zeros(k));
  }

  /** Reading back a padded field gives the number. */
  lemma PadValue(n: nat, w: nat)
    ensures DigitsValue(Pad(n, w)) == n
  {
    LeadingZerosValue(w - |Decimal(n)|, Decimal(n));
    DecimalValue(n);
  }

  /** Padding a field of k >= 1 digits: once a digit is appended. */
  lemma {:induction false} PadAppend(v: nat, d: nat, k: nat)
    requires d < 10 && (k >= 1 || v > 0)
    ensures Pad(10 * v + d, k + 1) == Pad(v, k) + [DigitChar(d)]
  {
    var n := 10 * v + d;
    if v == 0 {
      assert Decimal(n) == [DigitChar(d)];
      assert Decimal(0) == "0";
      assert Zeros(k) == Zeros(k - 1) + ['0'];
    } else {
      assert n / 10 == v && n % 10 == d;
      assert Decimal(n) == Decimal(v) + [DigitChar(d)];
    }
  }

  /** Every all-digit string is the padded text of its own value: the way to
      print a field back is unique. */
  lemma {:induction false} DigitsPadRoundTrip(s: string)
    requires AllDigits(s) && s != []
    ensures Pad(DigitsValue(s), |s|) == s
  {
    var init := s[..|s| - 1];
    var d := DigitValue(s[|s| - 1]);
    assert s == init + [s[|s| - 1]];
    assert DigitChar(d) == s[|s| - 1];
    if init == [] {
      assert DigitsValue(s) == d;
      assert Decimal(d) == [DigitChar(d)];
    } else {
      DigitsPadRoundTrip(init);
      PadAppend(DigitsValue(init), d, |init|);
    }
  }

  /** Pad gives exactly w characters when n fits. */
  lemma PadWidth(n: nat, w: nat)
    requires 1 <= w && n < Pow10(w)
    ensures |Pad(n, w)| == w
  {
    DecimalLength(n, w);
  }

  // parseInt(s) with no radix, for decimal text

  /** StrWhiteSpaceChar of ECMAScript: WhiteSpace and LineTerminator. This is
      the set both String.prototype.trim and parseInt skip. */
  predicate IsWhitespace(c: char) {
    || c == '\t' || c == '\n' || c == '\U{000B}' || c == '\U{000C}' || c == '\r'
    || c == ' ' || c == '\U{00A0}' || c == '\U{1680}'
    || ('\U{2000}' <= c <= '\U{200A}')
    || c == '\U{2028}' || c == '\U{2029}' || c == '\U{202F}' || c == '\U{205F}'
    || c == '\U{3000}' || c == '\U{FEFF}'
  }

  /** Number of white-space characters at the start of s. */
  function LeadingSpace(s: string): (k: nat)
    ensures k <= |s|
    ensures forall i :: 0 <= i < k ==> IsWhitespace(s[i])
    ensures k < |s| ==> !IsWhitespace(s[k])
  {
    if s != [] && IsWhitespace(s[0]) then 1 + LeadingSpace(s[1..]) else 0
  }

  /** Number of white-space characters at the end of s. */
  function TrailingSpace(s: string): (k: nat)
    ensures k <= |s|
    ensures forall i :: |s| - k <= i < |s| ==> IsWhitespace(s[i])
    ensures k < |s| ==> !IsWhitespace(s[|s| - k - 1])
  {
    if s != [] && IsWhitespace(s[|s| - 1]) then 1 + TrailingSpace(s[..|s| - 1]) else 0
  }

  function TrimStart(s: string): string {
    s[LeadingSpace(s)..]
  }

  /** String.prototype.trim: drops leading and trailing white space. */
  function Trim(s: string): (r: string)
    ensures r == [] || (!IsWhitespace(r[0]) && !IsWhitespace(r[|r| - 1]))
    ensures LeadingSpace(s) + |r| <= |s| && r == s[LeadingSpace(s)..LeadingSpace(s) + |r|]
  {
    var t := TrimStart(s);
    t[..|t| - TrailingSpace(t)]
  }

  lemma SpaceOfUnspaced(s: string)
    requires s == [] || (!IsWhitespace(s[0]) && !IsWhitespace(s[|s| - 1]))
    ensures LeadingSpace(s) == 0 && TrailingSpace(s) == 0
  {
  }

  /** Trimming twice is trimming once. */
  lemma TrimIdempotent(s: string)
    ensures Trim(Trim(s)) == Trim(s)
  {
    SpaceOfUnspaced(Trim(s));
  }

  /** Trim(s) is empty exactly when s is all white space. */
  lemma TrimEmptyIff(s: string)
    ensures Trim(s) == [] <==> forall i :: 0 <= i < |s| ==> IsWhitespace(s[i])
  {
    var k := LeadingSpace(s);
    var t := TrimStart(s);
    if k < |s| {
      assert t[0] == s[k];
      assert TrailingSpace(t) < |t|;
    }
  }

  /** Longest prefix of decimal digits. */
  function LeadingDigits(s: string): (r: string)
    ensures AllDigits(r) && |r| <= |s| && r == s[..|r|]
    ensures |r| < |s| ==> !IsDigit(s[|r|])
  {
    if s != [] && IsDigit(s[0]) then [s[0]] + LeadingDigits(s[1..]) else []
  }

  /** parseInt(s) for radix 10: skip white space, an optional sign, then the
      longest run of digits; no digit at all is NaN (None). */
  function ParseInt(s: string): Option<int> {
    var t := TrimStart(s);
    var negative := t != [] && t[0] == '-';
    var body := if t != [] && (t[0] == '-' || t[0] == '+') then t[1..] else t;
    var digits := LeadingDigits(body);
    var v: int := if digits == [] then 0 else DigitsValue(digits);
    if digits == [] then None else Some(if negative then -v else v)
  }

  lemma {:induction false} LeadingDigitsOfDigits(s: string)
    requires AllDigits(s)
    ensures LeadingDigits(s) == s
  {
    if s != [] {
      LeadingDigitsOfDigits(s[1..]);
    }
  }

  /** parseInt reads back what Decimal prints. */
  lemma ParseIntDecimal(n: nat)
    ensures ParseInt(Decimal(n)) == Some(n)
  {
    var s := Decimal(n);
    assert !IsWhitespace(s[0]) && s[0] != '-' && s[0] != '+';
    assert TrimStart(s) == s;
    LeadingDigitsOfDigits(s);
    DecimalValue(n);
  }

  // toLowerCase

  function LowerChar(c: char): char {
    if 'A' <= c <= 'Z' then ((c as int) + 32) as char else c
  }

  /** String.prototype.toLowerCase on the ASCII letters. */
  function Lower(s: string): (r: string)
    ensures |r| == |s|
    ensures forall i :: 0 <= i < |s| ==> r[i] == LowerChar(s[i])
  {
    if s == [] then [] else [LowerChar(s[0])] + Lower(s[1..])
  }

  /** `t` occurs in `s` as a contiguous piece. */
  predicate Occurs(t: string, s: string) {
    exists i, j :: 0 <= i <= j <= |s| && s[i..j] == t
  }

  lemma OccursSelf(t: string)
    ensures Occurs(t, t)
  {
    assert t[0..|t|] == t;
  }

  lemma OccursBefore(t: string, s: string, q: string)
    requires Occurs(t, s)
    ensures Occurs(t, s + q)
  {
    var i, j :| 0 <= i <= j <= |s| && s[i..j] == t;
    assert (s + q)[i..j] == t;
  }

  lemma OccursAfter(t: string, p: string, s: string)
    requires Occurs(t, s)
    ensures Occurs(t, p + s)
  {
    var i, j :| 0 <= i <= j <= |s| && s[i..j] == t;
    assert (p + s)[|p| + i..|p| + j] == t;
  }
}
