/**
 The C string helpers the loader relies on: whitespace removal (`rm_whitesp`),
 cutting a value at its first comment marker (`strcspn` followed by `strncpy`
 into a zeroed buffer), and decimal conversion with `atoi` as section 7.22.1.2
 of ISO C11 defines it (leading white space skipped, an optional sign, then
 decimal digits up to the first non-digit; no digits gives 0).
 */
module CString {

  /** The characters `isspace` accepts in the "C" locale. */
  predicate IsSpace(c: char) {
    c == ' ' || c == '\t' || c == '\n' || c == '\U{B}' || c == '\U{C}' || c == '\r'
  }

  predicate AllSpace(s: string) {
    forall i :: 0 <= i < |s| ==> IsSpace(s[i])
  }

  predicate NoSpace(s: string) {
    forall i :: 0 <= i < |s| ==> !IsSpace(s[i])
  }

  /**
   `rm_whitesp`: the line with every white-space character removed (the
   lemmas below show that nothing else is removed).
   */
  function RmWhitesp(s: string): (r: string)
    ensures NoSpace(r)
    ensures |r| <= |s|
  {
    if s == [] then []
    else
      assert s == [s[0]] + s[1..];
      if IsSpace(s[0]) then RmWhitesp(s[1..]) else [s[0]] + RmWhitesp(s[1..])
  }

  /** Every character other than white space occurs in the result as often as in the line. */
  lemma {:induction false} RmWhitespKeeps(s: string, c: char)
    requires !IsSpace(c)
    ensures multiset(RmWhitesp(s))[c] == multiset(s)[c]
  {
    if s != [] {
      assert s == [s[0]] + s[1..];
      RmWhitespKeeps(s[1..], c);
    }
  }

  /** A string without white space is left as it is (and so the order of its characters too). */
  lemma {:induction false} RmWhitespOfNoSpace(s: string)
    requires NoSpace(s)
    ensures RmWhitesp(s) == s
  {
    if s != [] {
      RmWhitespOfNoSpace(s[1..]);
    }
  }

  /** Stripping white space twice is the same as stripping it once. */
  lemma RmWhitespIdempotent(s: string)
    ensures RmWhitesp(RmWhitesp(s)) == RmWhitesp(s)
  {
    RmWhitespOfNoSpace(RmWhitesp(s));
  }

  /** Removing white space from two pieces and joining them is removing it from the joined line. */
  lemma {:induction false} RmWhitespAppend(a: string, b: string)
    ensures RmWhitesp(a + b) == RmWhitesp(a) + RmWhitesp(b)
  {
    if a == [] {
      assert a + b == b;
    } else {
      assert (a + b)[0] == a[0];
      assert (a + b)[1..] == a[1..] + b;
      RmWhitespAppend(a[1..], b);
    }
  }

  /** A run of white space disappears entirely. */
  lemma {:induction false} RmWhitespOfAllSpace(s: string)
    requires AllSpace(s)
    ensures RmWhitesp(s) == []
  {
    if s != [] {
      RmWhitespOfAllSpace(s[1..]);
    }
  }

  /**
   `strcspn(s, reject)` with a one-character reject set: the length of the
   longest prefix of `s` that does not contain `c`.
   */
  function Strcspn(s: string, c: char): (n: nat)
    ensures n <= |s|
    ensures forall i :: 0 <= i < n ==> s[i] != c
    ensures n < |s| ==> s[n] == c
  {
    if s == [] || s[0] == c then 0 else 1 + Strcspn(s[1..], c)
  }

  /**
   The value part of a line: the characters before its first `#`, or the
   whole line when it has none (`strcspn` then `strncpy` into a buffer
   that `memset` has cleared).
   */
  function StripComment(s: string): (r: string)
    ensures r <= s
    ensures '#' !in r
    ensures |r| < |s| ==> s[|r|] == '#'
    ensures '#' !in s ==> r == s
  {
    s[..Strcspn(s, '#')]
  }

  /** The value part of `v`, a comment marker and anything after it, is `v`. */
  lemma StripCommentOfComment(v: string, rest: string)
    requires '#' !in v
    ensures StripComment(v + ['#'] + rest) == v
  {
    var s := v + ['#'] + rest;
    assert s[|v|] == '#';
    assert s[..|v|] == v;
  }

  predicate IsDigit(c: char) {
    '0' <= c <= '9'
  }

  predicate AllDigits(s: string) {
    forall i :: 0 <= i < |s| ==> IsDigit(s[i])
  }

  function DigitValue(c: char): nat
    requires IsDigit(c)
  {
    c as int - '0' as int
  }

  function DigitChar(d: nat): (c: char)
    requires d < 10
    ensures IsDigit(c) && DigitValue(c) == d
  {
    ('0' as int + d) as char
  }

  /** The leading white space `atoi` skips. */
  function SkipSpaces(s: string): (r: string)
    ensures |r| <= |s|
    ensures r == [] || !IsSpace(r[0])
  {
    if s != [] && IsSpace(s[0]) then SkipSpaces(s[1..]) else s
  }

  /**
   The first character `rm_whitesp` keeps is the first non-blank character
   of the line; a line with none strips to the empty string.
   */
  lemma {:induction false} RmWhitespStartsAtFirstNonSpace(s: string)
    ensures SkipSpaces(s) == [] ==> RmWhitesp(s) == []
    ensures SkipSpaces(s) != [] ==> RmWhitesp(s) != [] && RmWhitesp(s)[0] == SkipSpaces(s)[0]
  {
    if s != [] && IsSpace(s[0]) {
      RmWhitespStartsAtFirstNonSpace(s[1..]);
    }
  }

  /** The longest prefix of decimal digits. */
  function LeadingDigits(s: string): (d: string)
    ensures d <= s && AllDigits(d)
    ensures |d| < |s| ==> !IsDigit(s[|d|])
  {
    if s != [] && IsDigit(s[0]) then [s[0]] + LeadingDigits(s[1..]) else []
  }

  /** The number a run of decimal digits denotes, most significant first. */
  function DigitsValue(d: string): nat
    requires AllDigits(d)
  {
    if d == [] then 0 else DigitsValue(d[..|d| - 1]) * 10 + DigitValue(d[|d| - 1])
  }

  /** What `atoi` reads its digits from: the text after the leading white space and an optional sign. */
  function AfterSign(s: string): string {
    var t := SkipSpaces(s);
    if t != [] && (t[0] == '-' || t[0] == '+') then t[1..] else t
  }

  /**
   `atoi`: skip white space, read an optional `+` or `-`, then the longest
   run of decimal digits. A string with no such digits converts to 0, and
   only a leading `-` gives a negative result.
   */
  function Atoi(s: string): (r: int)
    ensures AfterSign(s) == [] || !IsDigit(AfterSign(s)[0]) ==> r == 0
    ensures r < 0 ==> SkipSpaces(s) != [] && SkipSpaces(s)[0] == '-'
  {
    var t := SkipSpaces(s);
    var n := DigitsValue(LeadingDigits(AfterSign(s)));
    if t != [] && t[0] == '-' then -(n as int) else n
  }

  /** The decimal numeral of `n`, without sign or leading zeros. */
  function Decimal(n: nat): (d: string)
    ensures d != [] && AllDigits(d)
  {
    if n < 10 then [DigitChar(n)] else Decimal(n / 10) + [DigitChar(n % 10)]
  }

  lemma {:induction false} LeadingDigitsOfDigits(d: string, rest: string)
    requires AllDigits(d)
    requires rest == [] || !IsDigit(rest[0])
    ensures LeadingDigits(d + rest) == d
  {
    if d != [] {
      assert (d + rest)[1..] == d[1..] + rest;
      LeadingDigitsOfDigits(d[1..], rest);
    }
  }

  lemma {:induction false} DigitsValueOfDecimal(n: nat)
    ensures DigitsValue(Decimal(n)) == n
  {
    if n >= 10 {
      var d := Decimal(n);
      assert d[..|d| - 1] == Decimal(n / 10);
      DigitsValueOfDecimal(n / 10);
    }
  }

  /** `atoi` of a string that starts with a digit is the value of its leading digits. */
  lemma AtoiOfUnsigned(u: string)
    requires u != [] && IsDigit(u[0])
    ensures Atoi(u) == DigitsValue(LeadingDigits(u))
  {
    assert SkipSpaces(u) == u;
  }

  /** `atoi` of a sign followed by a digit: the leading digits' value, negated for `-`. */
  lemma AtoiOfSigned(sign: char, u: string)
    requires sign == '-' || sign == '+'
    requires u != [] && IsDigit(u[0])
    ensures Atoi([sign] + u) == if sign == '-' then -(DigitsValue(LeadingDigits(u)) as int)
                                else DigitsValue(LeadingDigits(u))
  {
    var t := [sign] + u;
    assert t[0] == sign && t[1..] == u;
    assert SkipSpaces(t) == t;
    assert AfterSign(t) == u;
  }

  /** `atoi` reads a run of digits up to the first non-digit. */
  lemma AtoiOfDigits(d: string, rest: string)
    requires d != [] && AllDigits(d)
    requires rest == [] || !IsDigit(rest[0])
    ensures Atoi(d + rest) == DigitsValue(d)
  {
    LeadingDigitsOfDigits(d, rest);
    AtoiOfUnsigned(d + rest);
  }

  /** `atoi` reads a sign and a run of digits up to the first non-digit. */
  lemma AtoiOfSignedDigits(sign: char, d: string, rest: string)
    requires sign == '-' || sign == '+'
    requires d != [] && AllDigits(d)
    requires rest == [] || !IsDigit(rest[0])
    ensures Atoi([sign] + d + rest) == if sign == '-' then -(DigitsValue(d) as int) else DigitsValue(d)
  {
    var u := d + rest;
    LeadingDigitsOfDigits(d, rest);
    assert [sign] + d + rest == [sign] + u;
    AtoiOfSigned(sign, u);
  }

  /**
   `atoi` reads back any decimal numeral, signed or not, and stops at the
   first character that is not a digit.
   */
  lemma AtoiOfDecimal(n: nat, rest: string)
    requires rest == [] || !IsDigit(rest[0])
    ensures Atoi(Decimal(n) + rest) == n
    ensures Atoi(['-'] + Decimal(n) + rest) == -(n as int)
    ensures Atoi(['+'] + Decimal(n) + rest) == n
  {
    AtoiOfDigits(Decimal(n), rest);
    AtoiOfSignedDigits('-', Decimal(n), rest);
    AtoiOfSignedDigits('+', Decimal(n), rest);
    DigitsValueOfDecimal(n);
  }
}
