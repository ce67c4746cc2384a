/** `std::stoul(str, nullptr, 16)`: it hands the string to `strtoul` with base 16
    (section 7.22.1.4 of ISO/IEC 9899:2011) and turns its two failure reports into
    exceptions: no conversion becomes `std::invalid_argument`, a value that does not
    fit `unsigned long` becomes `std::out_of_range`. `unsigned long` is 64 bits wide. */
module Strtoul {

  /** Largest value of a 64-bit `unsigned long`. */
  const ULONG_MAX: nat := 0xFFFF_FFFF_FFFF_FFFF

  /** White space of the "C" locale: space, \t, \n, \v, \f and \r. */
  predicate IsSpace(c: char) {
    c == ' ' || '\t' <= c <= '\r'
  }

  predicate IsHexDigit(c: char) {
    '0' <= c <= '9' || 'a' <= c <= 'f' || 'A' <= c <= 'F'
  }

  predicate IsSign(c: char) {
    c == '+' || c == '-'
  }

  function DigitValue(c: char): (d: nat)
    requires IsHexDigit(c)
    ensures d < 16
  {
    if '0' <= c <= '9' then c as int - '0' as int
    else if 'a' <= c <= 'f' then c as int - 'a' as int + 10
    else c as int - 'A' as int + 10
  }

  predicate AllHexDigits(s: string) {
    forall i :: 0 <= i < |s| ==> IsHexDigit(s[i])
  }

  /** Length of the longest prefix of `s` whose characters all satisfy `p`. */
  function Span(s: string, p: char -> bool): (n: nat)
    ensures n <= |s|
    ensures forall i :: 0 <= i < n ==> p(s[i])
    ensures n < |s| ==> !p(s[n])
  {
    if s != [] && p(s[0]) then 1 + Span(s[1..], p) else 0
  }

  function Pow16(n: nat): (p: nat)
    ensures p >= 1
  {
    if n == 0 then 1 else 16 * Pow16(n - 1)
  }

  /** Value of a run of hex digits, most significant first, accumulated as
      strtoul does: value * 16 + digit. */
  function HexValue(digits: string): (v: nat)
    requires AllHexDigits(digits)
    ensures v < Pow16(|digits|)
  {
    if digits == [] then 0
    else 16 * HexValue(digits[..|digits| - 1]) + DigitValue(digits[|digits| - 1])
  }

  /** Index just past the leading white space and the optional sign. */
  function SignEnd(s: string): (j: nat)
    ensures j <= |s|
  {
    var i := Span(s, IsSpace);
    if i < |s| && IsSign(s[i]) then i + 1 else i
  }

  /** True when the character just past the white space is a minus sign. */
  predicate IsNegative(s: string) {
    var i := Span(s, IsSpace);
    i < |s| && s[i] == '-'
  }

  /** Length of a `0x` or `0X` prefix at the front of `t`: taken only when a
      hex digit follows it. */
  function PrefixLength(t: string): (n: nat)
    ensures n <= |t|
  {
    if 2 < |t| && t[0] == '0' && (t[1] == 'x' || t[1] == 'X') && IsHexDigit(t[2]) then 2 else 0
  }

  /** Index of the first digit: past the white space, the sign and the prefix. */
  function DigitsStart(s: string): (k: nat)
    ensures k <= |s|
  {
    var j := SignEnd(s);
    j + PrefixLength(s[j..])
  }

  /** The subject sequence strtoul recognises: its sign and the value of the
      longest run of hex digits; whatever follows the run is ignored. */
  datatype Subject = NoDigits | Digits(negative: bool, magnitude: nat)

  /** The longest run of hex digits at the front of `s`. */
  function HexRun(s: string): (d: string)
    ensures AllHexDigits(d) && d <= s
    ensures |d| < |s| ==> !IsHexDigit(s[|d|])
  {
    s[..Span(s, IsHexDigit)]
  }

  function ParseSubject(s: string): Subject {
    var d := HexRun(s[DigitsStart(s)..]);
    if d == [] then NoDigits else Digits(IsNegative(s), HexValue(d))
  }

  datatype Conversion = Converted(value: nat) | InvalidArgument | OutOfRange

  /** `std::stoul(s, nullptr, 16)`. A negative subject is negated in
      `unsigned long` arithmetic (modulo ULONG_MAX + 1), so "-1" gives ULONG_MAX
      and "-0" gives 0. */
  function Stoul16(s: string): (r: Conversion)
    ensures r.Converted? ==> r.value <= ULONG_MAX
  {
    match ParseSubject(s)
    case NoDigits => InvalidArgument
    case Digits(negative, m) =>
      if m > ULONG_MAX then OutOfRange
      else if negative then Converted(if m == 0 then 0 else ULONG_MAX + 1 - m)
      else Converted(m)
  }

  /** True when a hex digit follows the leading white space and optional sign. */
  predicate HasLeadingDigit(s: string) {
    SignEnd(s) < |s| && IsHexDigit(s[SignEnd(s)])
  }

  /** No conversion happens exactly when no hex digit follows the white space and
      the sign; the `0x` prefix never decides it, since its `0` is itself a digit. */
  lemma InvalidArgumentIffNoLeadingDigit(s: string)
    ensures Stoul16(s) == InvalidArgument <==> !HasLeadingDigit(s)
  {
    var j, k := SignEnd(s), DigitsStart(s);
    if k == j + 2 {
      assert s[k..][0] == s[j + 2];
    } else if k < |s| {
      assert s[k..][0] == s[k];
    }
  }

  /** The lower-case hex spelling of `n`, without leading zeros. */
  function ToHex(n: nat): (s: string)
    ensures |s| >= 1 && AllHexDigits(s)
  {
    if n < 16 then [HexChar(n)] else ToHex(n / 16) + [HexChar(n % 16)]
  }

  function HexChar(d: nat): (c: char)
    requires d < 16
    ensures IsHexDigit(c) && DigitValue(c) == d
  {
    if d < 10 then ('0' as int + d) as char else ('a' as int + d - 10) as char
  }

  lemma {:induction false} ToHexValue(n: nat)
    ensures HexValue(ToHex(n)) == n
  {
    if n >= 16 {
      var s := ToHex(n);
      assert s[..|s| - 1] == ToHex(n / 16);
      ToHexValue(n / 16);
    }
  }

  /** True when `rest` cannot extend the digits spelled `lead`: it does not
      start with a hex digit, nor, after a lone "0", with the `x` or `X` that
      would make that "0" a prefix. */
  predicate Stops(lead: string, rest: string) {
    rest == [] || (!IsHexDigit(rest[0]) && (lead == "0" ==> rest[0] != 'x' && rest[0] != 'X'))
  }

  /** Parsing inverts spelling: the hex spelling of any `unsigned long` value,
      followed by anything that cannot extend it, converts back to that value. */
  lemma ToHexRoundTrip(n: nat, rest: string)
    requires n <= ULONG_MAX
    requires Stops(ToHex(n), rest)
    ensures Stoul16(ToHex(n) + rest) == Converted(n)
  {
    var h := ToHex(n);
    var s := h + rest;
    assert s[0] == h[0];
    assert Span(s, IsSpace) == 0;
    assert SignEnd(s) == 0;
    if |h| == 1 {
      assert h == [h[0]];
      assert s[1..] == rest;
    } else {
      assert s[1] == h[1];
    }
    assert DigitsStart(s) == 0;
    assert s[0..] == s;
    HexRunOfDigits(h, rest);
    ToHexValue(n);
  }

  /** A prefix whose characters all satisfy `p`, followed by one that does not,
      is exactly what `Span` measures. */
  lemma {:induction false} SpanOfPrefix(u: string, t: string, p: char -> bool)
    requires forall i :: 0 <= i < |u| ==> p(u[i])
    requires t == [] || !p(t[0])
    ensures Span(u + t, p) == |u|
  {
    if u == [] {
      assert u + t == t;
    } else {
      assert (u + t)[0] == u[0];
      assert (u + t)[1..] == u[1..] + t;
      SpanOfPrefix(u[1..], t, p);
    }
  }

  /** A run of digits followed by a non-digit is exactly the run the parser takes. */
  lemma HexRunOfDigits(h: string, rest: string)
    requires AllHexDigits(h)
    requires rest == [] || !IsHexDigit(rest[0])
    ensures HexRun(h + rest) == h
  {
    var s := h + rest;
    SpanOfPrefix(h, rest, IsHexDigit);
    assert h == s[..|h|];
  }

  /** The same with the optional `0x` prefix in front. */
  lemma PrefixedRoundTrip(n: nat, x: char, rest: string)
    requires n <= ULONG_MAX
    requires x == 'x' || x == 'X'
    requires rest == [] || !IsHexDigit(rest[0])
    ensures Stoul16(['0', x] + ToHex(n) + rest) == Converted(n)
  {
    var h := ToHex(n);
    var s := ['0', x] + h + rest;
    assert Span(s, IsSpace) == 0;
    assert SignEnd(s) == 0;
    assert s[2] == h[0];
    assert DigitsStart(s) == 2;
    assert s[2..] == h + rest;
    HexRunOfDigits(h, rest);
    ToHexValue(n);
  }

  predicate AllSpace(w: string) {
    forall i :: 0 <= i < |w| ==> IsSpace(w[i])
  }

  predicate AllZeros(z: string) {
    forall i :: 0 <= i < |z| ==> z[i] == '0'
  }

  /** Leading zeros add nothing to the value. */
  lemma {:induction false} LeadingZerosIgnored(zeros: string, h: string)
    requires AllZeros(zeros) && AllHexDigits(h)
    ensures AllHexDigits(zeros + h) && HexValue(zeros + h) == HexValue(h)
    decreases |zeros| + |h|
  {
    var s := zeros + h;
    if h == [] {
      assert s == zeros;
      if zeros != [] {
        var z' := zeros[..|zeros| - 1];
        LeadingZerosIgnored(z', []);
        assert z' + [] == z';
        assert s[..|s| - 1] == z';
      }
    } else {
      var h' := h[..|h| - 1];
      LeadingZerosIgnored(zeros, h');
      assert s[..|s| - 1] == zeros + h';
      assert s[|s| - 1] == h[|h| - 1];
    }
  }

  /** The lower-case form of a hex digit; any other character is kept. */
  function LowerDigit(c: char): (l: char)
    ensures IsHexDigit(c) ==> IsHexDigit(l) && DigitValue(l) == DigitValue(c)
    ensures 'a' <= l <= 'f' || l == c
  {
    if 'A' <= c <= 'F' then (c as int - 'A' as int + 'a' as int) as char else c
  }

  /** `s` with its upper-case hex digits turned to lower case. */
  function Lower(s: string): (l: string)
    ensures |l| == |s|
  {
    if s == [] then [] else Lower(s[..|s| - 1]) + [LowerDigit(s[|s| - 1])]
  }

  /** strtoul reads 'A'..'F' as 'a'..'f': the case of the digits does not
      change their value. */
  lemma {:induction false} CaseIgnored(d: string)
    requires AllHexDigits(d)
    ensures AllHexDigits(Lower(d)) && HexValue(Lower(d)) == HexValue(d)
  {
    if d != [] {
      var d' := d[..|d| - 1];
      CaseIgnored(d');
      var l := Lower(d);
      assert l[..|l| - 1] == Lower(d');
      assert forall i :: 0 <= i < |l| - 1 ==> l[i] == Lower(d')[i];
    }
  }

  /** White space and an optional plus sign in front of a character that is
      neither: the sign ends right after them and the subject is not negative. */
  lemma UnsignedLead(w: string, sign: string, tail: string)
    requires AllSpace(w)
    requires sign == "" || sign == "+"
    requires tail != [] && !IsSpace(tail[0]) && !IsSign(tail[0])
    ensures SignEnd(w + sign + tail) == |w| + |sign|
    ensures !IsNegative(w + sign + tail)
    ensures (w + sign + tail)[|w| + |sign|..] == tail
  {
    var body := sign + tail;
    var s := w + body;
    assert s == w + sign + tail;
    assert body[0] == (if sign != [] then '+' else tail[0]);
    SpanOfPrefix(w, body, IsSpace);
    assert s[|w|] == body[0];
    assert s[|w| + |sign|..] == tail;
  }

  /** After an optional prefix come the digits, then a character that cannot
      extend them: the prefix is skipped and the digits are the run taken. */
  lemma PrefixedDigits(prefix: string, digits: string, rest: string)
    requires prefix == "" || prefix == "0x" || prefix == "0X"
    requires digits != [] && AllHexDigits(digits)
    requires Stops(prefix + digits, rest)
    ensures PrefixLength(prefix + digits + rest) == |prefix|
    ensures (prefix + digits + rest)[|prefix|..] == digits + rest
    ensures HexRun(digits + rest) == digits
  {
    var t := prefix + digits + rest;
    assert t[|prefix|..] == digits + rest;
    if prefix == "" {
      assert prefix + digits == digits;
      if 1 < |t| {
        assert t[1] == (if |digits| > 1 then digits[1] else rest[0]);
        assert |digits| == 1 ==> digits == [digits[0]];
      }
    } else {
      assert t[2] == digits[0];
    }
    HexRunOfDigits(digits, rest);
  }

  /** The subject of an unsigned spelling is the run of digits after its lead
      and prefix. */
  lemma UnsignedSubject(s: string, tail: string, digits: string, rest: string)
    requires !IsNegative(s) && s[SignEnd(s)..] == tail
    requires tail[PrefixLength(tail)..] == digits + rest
    requires digits != [] && AllHexDigits(digits) && HexRun(digits + rest) == digits
    ensures ParseSubject(s) == Digits(false, HexValue(digits))
  {
    var j := SignEnd(s);
    assert s[DigitsStart(s)..] == s[j..][PrefixLength(tail)..];
  }

  /** Regroups a spelling into its lead and the part after the sign. */
  lemma Regroup(lead: string, prefix: string, zeros: string, h: string, rest: string)
    ensures lead + prefix + zeros + h + rest == lead + (prefix + (zeros + h) + rest)
  {
    assert lead + prefix + zeros + h == lead + prefix + (zeros + h);
    assert lead + prefix + (zeros + h) == lead + (prefix + (zeros + h));
    assert lead + (prefix + (zeros + h)) + rest == lead + (prefix + (zeros + h) + rest);
  }

  /** The subject of an unsigned spelling is its digit run, leading zeros
      included. */
  lemma SpelledSubject(w: string, sign: string, prefix: string, digits: string, rest: string)
    requires AllSpace(w)
    requires sign == "" || sign == "+"
    requires prefix == "" || prefix == "0x" || prefix == "0X"
    requires digits != [] && AllHexDigits(digits)
    requires Stops(prefix + digits, rest)
    ensures ParseSubject(w + sign + (prefix + digits + rest)) == Digits(false, HexValue(digits))
  {
    var tail := prefix + digits + rest;
    assert tail[0] == (if prefix != [] then '0' else digits[0]);
    UnsignedLead(w, sign, tail);
    PrefixedDigits(prefix, digits, rest);
    UnsignedSubject(w + sign + tail, tail, digits, rest);
  }

  /** An unsigned subject that fits converts to its own value. */
  lemma ConvertedSubject(s: string, n: nat)
    requires ParseSubject(s) == Digits(false, n) && n <= ULONG_MAX
    ensures Stoul16(s) == Converted(n)
  {
  }

  /** Every spelling of `n` that strtoul reads back as `n`: white space, an
      optional plus sign, an optional `0x`/`0X` prefix, leading zeros, the hex
      digits `d` in either case, then anything that cannot extend them. */
  lemma SpellingRoundTrip(w: string, sign: string, prefix: string, zeros: string, d: string, n: nat,
                          rest: string)
    requires AllSpace(w)
    requires sign == "" || sign == "+"
    requires prefix == "" || prefix == "0x" || prefix == "0X"
    requires AllZeros(zeros)
    requires AllHexDigits(d) && Lower(d) == ToHex(n)
    requires n <= ULONG_MAX
    requires Stops(prefix + zeros + d, rest)
    ensures Stoul16(w + sign + prefix + zeros + d + rest) == Converted(n)
  {
    LeadingZerosIgnored(zeros, d);
    CaseIgnored(d);
    ToHexValue(n);
    Regroup(w + sign, prefix, zeros, d, rest);
    assert prefix + zeros + d == prefix + (zeros + d);
    SpelledSubject(w, sign, prefix, zeros + d, rest);
    ConvertedSubject(w + sign + (prefix + (zeros + d) + rest), n);
  }

  /** A minus sign is applied in unsigned arithmetic: "-m" converts to
      ULONG_MAX + 1 - m for every non-zero `m` that fits. */
  lemma NegativeWraps(m: nat)
    requires 0 < m <= ULONG_MAX
    ensures Stoul16(['-'] + ToHex(m)) == Converted(ULONG_MAX + 1 - m)
  {
    var h := ToHex(m);
    var s := ['-'] + h;
    assert Span(s, IsSpace) == 0;
    assert SignEnd(s) == 1;
    assert s[1..] == h;
    assert s[1] == h[0];
    if |h| >= 2 {
      assert s[2] == h[1];
    }
    assert DigitsStart(s) == 1;
    assert s[1..] == h + [];
    HexRunOfDigits(h, []);
    ToHexValue(m);
  }
}
