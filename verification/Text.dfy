// Byte strings: std::string contents, their order, and decimal printing and parsing.

module Text {
  type byte = b: int | 0 <= b < 256

  // A std::string is the sequence of its bytes.
  type Str = seq<byte>

  function Ascii(s: string): Str
    requires forall i :: 0 <= i < |s| ==> s[i] as int < 256
  {
    seq(|s|, i requires 0 <= i < |s| => s[i] as int)
  }

  // ----- std::string::operator< : bytewise, lexicographic -----

  predicate StrLess(a: Str, b: Str) {
    b != [] && (a == [] || a[0] < b[0] || (a[0] == b[0] && StrLess(a[1..], b[1..])))
  }

  lemma {:induction false} StrLessIrreflexive(a: Str)
    ensures !StrLess(a, a)
  {
    if a != [] {
      StrLessIrreflexive(a[1..]);
    }
  }

  lemma {:induction false} StrLessTransitive(a: Str, b: Str, c: Str)
    requires StrLess(a, b) && StrLess(b, c)
    ensures StrLess(a, c)
  {
    if a != [] && a[0] == b[0] == c[0] {
      StrLessTransitive(a[1..], b[1..], c[1..]);
    }
  }

  lemma {:induction false} StrLessTotal(a: Str, b: Str)
    ensures StrLess(a, b) || a == b || StrLess(b, a)
  {
    if a != [] && b != [] && a[0] == b[0] {
      StrLessTotal(a[1..], b[1..]);
      assert a == [a[0]] + a[1..] && b == [b[0]] + b[1..];
    }
  }

  // At the first difference a ends or has the smaller byte.
  predicate StrBefore(a: Str, b: Str) {
    exists k :: 0 <= k <= |a| && k < |b| && a[..k] == b[..k] && (k == |a| || a[k] < b[k])
  }

  lemma {:induction false} StrLessMeans(a: Str, b: Str)
    ensures StrLess(a, b) <==> StrBefore(a, b)
  {
    if a != [] && b != [] && a[0] == b[0] {
      StrLessMeans(a[1..], b[1..]);
      if StrBefore(a[1..], b[1..]) {
        var k :| 0 <= k <= |a[1..]| && k < |b[1..]| && a[1..][..k] == b[1..][..k]
                 && (k == |a[1..]| || a[1..][k] < b[1..][k]);
        assert a[..k + 1] == [a[0]] + a[1..][..k] && b[..k + 1] == [b[0]] + b[1..][..k];
      }
      if StrBefore(a, b) {
        var k :| 0 <= k <= |a| && k < |b| && a[..k] == b[..k] && (k == |a| || a[k] < b[k]);
        assert a[1..][..k - 1] == a[..k][1..] && b[1..][..k - 1] == b[..k][1..];
      }
    } else if StrLess(a, b) {
      assert a[..0] == b[..0];
    }
  }

  // ----- std::to_string and std::stoll on 64-bit integers -----

  const INT64_MIN: int := -0x8000_0000_0000_0000
  const INT64_MAX: int := 0x7fff_ffff_ffff_ffff

  predicate IsInt64(n: int) {
    INT64_MIN <= n <= INT64_MAX
  }

  predicate IsInt32(n: int) {
    -0x8000_0000 <= n < 0x8000_0000
  }

  const MINUS: byte := 45
  const PLUS: byte := 43
  const ZERO: byte := 48

  predicate IsDigit(b: byte) {
    ZERO <= b <= ZERO + 9
  }

  predicate IsSpace(b: byte) {
    b == 32 || 9 <= b <= 13
  }

  function Digits(n: nat): Str {
    if n < 10 then [ZERO + n] else Digits(n / 10) + [ZERO + n % 10]
  }

  function ToString(n: int): Str {
    if n < 0 then [MINUS] + Digits(-n) else Digits(n)
  }

  predicate AllDigits(s: Str) {
    forall i :: 0 <= i < |s| ==> IsDigit(s[i])
  }

  function DigitsValue(s: Str): nat
    requires AllDigits(s)
  {
    if s == [] then 0 else 10 * DigitsValue(s[..|s| - 1]) + (s[|s| - 1] - ZERO)
  }

  function SkipSpaces(s: Str): Str {
    if s != [] && IsSpace(s[0]) then SkipSpaces(s[1..]) else s
  }

  // The longest leading run of digits.
  function LeadingDigits(s: Str): (run: Str)
    ensures AllDigits(run) && run <= s
    ensures |run| < |s| ==> !IsDigit(s[|run|])
  {
    if s == [] || !IsDigit(s[0]) then [] else [s[0]] + LeadingDigits(s[1..])
  }

  datatype Parsed = Number(value: int) | InvalidArgument | OutOfRange

  // The two exceptions of std::stoll are the last two constructors.
  function Stoll(s: Str): Parsed {
    var t := SkipSpaces(s);
    var negative := t != [] && t[0] == MINUS;
    var u := if t != [] && (t[0] == MINUS || t[0] == PLUS) then t[1..] else t;
    var run := LeadingDigits(u);
    if run == [] then InvalidArgument
    else
      var magnitude: int := DigitsValue(run);
      var v := if negative then -magnitude else magnitude;
      if IsInt64(v) then Number(v) else OutOfRange
  }

  lemma {:induction false} DigitsRoundTrip(n: nat)
    ensures Digits(n) != [] && AllDigits(Digits(n)) && DigitsValue(Digits(n)) == n
  {
    if n >= 10 {
      DigitsRoundTrip(n / 10);
      var d := Digits(n);
      assert d[..|d| - 1] == Digits(n / 10);
    } else {
      assert DigitsValue([ZERO + n][..0]) == 0;
    }
  }

  lemma {:induction false} DigitsCanonical(n: nat)
    ensures Digits(n) != [] && AllDigits(Digits(n)) && (Digits(n)[0] == 48 ==> n == 0 && Digits(n) == [48])
  {
    if n >= 10 {
      DigitsCanonical(n / 10);
    }
  }

  // The text is a minus sign for a negative number, then digits without a leading zero;
  // zero is "0".
  lemma ToStringCanonical(n: int)
    ensures var s := ToString(n);
            var digits := if n < 0 then s[1..] else s;
            && (n < 0 ==> s[0] == 45)
            && digits != [] && (forall i :: 0 <= i < |digits| ==> 48 <= digits[i] <= 57)
            && (digits[0] == 48 ==> n == 0 && s == [48])
  {
    DigitsCanonical(if n < 0 then -n else n);
  }

  function Pow10(i: nat): nat {
    if i == 0 then 1 else 10 * Pow10(i - 1)
  }

  lemma LargeMultiple(d: int, p: nat)
    requires d >= 1
    ensures d * p >= p
  {
  }

  lemma SmallMultiple(d: int, p: nat)
    requires 0 - p < d * p < p
    ensures d == 0
  {
    if d > 0 {
      LargeMultiple(d, p);
    } else if d < 0 {
      LargeMultiple(-d, p);
    }
  }

  lemma QuotientUnique(n: nat, p: nat, q: nat, r: nat)
    requires p > 0 && n == q * p + r && r < p
    ensures n / p == q
  {
    assert (n / p - q) * p == r - n % p;
    SmallMultiple(n / p - q, p);
  }

  lemma DivideTwice(n: nat, p: nat)
    requires p > 0
    ensures (n / 10) / p == n / (10 * p)
  {
    var q, r := n / (10 * p), n % (10 * p);
    assert n == q * (10 * p) + r && 0 <= r < 10 * p;
    assert n == 10 * (q * p) + r;
    assert n / 10 == q * p + r / 10;
    assert 0 <= r / 10 < p;
    QuotientUnique(n / 10, p, q, r / 10);
  }

  // The i-th digit from the right is that of n.
  lemma {:induction false} DigitAt(n: nat, i: nat)
    requires i < |Digits(n)|
    ensures Pow10(i) > 0 && Digits(n)[|Digits(n)| - 1 - i] == 48 + n / Pow10(i) % 10
  {
    if i > 0 {
      DigitAt(n / 10, i - 1);
      DivideTwice(n, Pow10(i - 1));
    }
  }

  lemma LeadingDigitsOfDigits(s: Str)
    requires AllDigits(s)
    ensures LeadingDigits(s) == s
  {
  }

  lemma DigitsPrinted(n: nat)
    ensures var s := Digits(n);
            s != [] && IsDigit(s[0]) && LeadingDigits(s) == s && DigitsValue(s) == n
  {
    DigitsRoundTrip(n);
    LeadingDigitsOfDigits(Digits(n));
  }

  // Printing a 64-bit integer and parsing the text gives the integer back.
  lemma StollToString(n: int)
    requires IsInt64(n)
    ensures Stoll(ToString(n)) == Number(n)
  {
    var s := ToString(n);
    if n < 0 {
      DigitsPrinted(-n);
      assert s[1..] == Digits(-n);
    } else {
      DigitsPrinted(n);
    }
    assert SkipSpaces(s) == s;
  }

  lemma {:induction false} SkipLeading(spaces: Str, s: Str)
    requires forall i :: 0 <= i < |spaces| ==> spaces[i] == 32 || 9 <= spaces[i] <= 13
    ensures SkipSpaces(spaces + s) == SkipSpaces(s)
  {
    if spaces == [] {
      assert spaces + s == s;
    } else {
      assert (spaces + s)[1..] == spaces[1..] + s;
      SkipLeading(spaces[1..], s);
    }
  }

  lemma {:induction false} LeadingDigitsThen(digits: Str, rest: Str)
    requires AllDigits(digits) && (rest != [] ==> !IsDigit(rest[0]))
    ensures LeadingDigits(digits + rest) == digits
  {
    if digits == [] {
      assert digits + rest == rest;
    } else {
      assert (digits + rest)[1..] == digits[1..] + rest;
      LeadingDigitsThen(digits[1..], rest);
    }
  }

  lemma StollDigits(sign: Str, digits: Str, rest: Str)
    requires sign == [] || sign == [43] || sign == [45]
    requires digits != [] && AllDigits(digits) && (rest != [] ==> !IsDigit(rest[0]))
    requires IsInt64((if sign == [45] then -1 else 1) * DigitsValue(digits))
    ensures var s := sign + (digits + rest);
            && SkipSpaces(s) == s
            && Stoll(s) == Number((if sign == [45] then -1 else 1) * DigitsValue(digits))
  {
    hide DigitsValue, LeadingDigits;
    var s := sign + (digits + rest);
    LeadingDigitsThen(digits, rest);
    if sign == [] {
      assert s == digits + rest && s[0] == digits[0];
    } else {
      assert s[0] == sign[0] && s[1..] == digits + rest;
    }
  }

  lemma StollOfSkipped(a: Str, b: Str)
    requires SkipSpaces(a) == SkipSpaces(b)
    ensures Stoll(a) == Stoll(b)
  {
  }

  // Like std::stoll, parsing skips leading white space and stops at the first character
  // that is not a digit; a plus sign is accepted.
  lemma StollSurrounded(spaces: Str, n: int, plus: bool, rest: Str)
    requires IsInt64(n) && (plus ==> n >= 0)
    requires forall i :: 0 <= i < |spaces| ==> spaces[i] == 32 || 9 <= spaces[i] <= 13
    requires rest != [] ==> !(48 <= rest[0] <= 57)
    ensures Stoll(spaces + ((if plus then [43] else []) + ToString(n) + rest)) == Number(n)
  {
    hide DigitsValue, LeadingDigits, SkipSpaces, Digits;
    var digits := Digits(if n < 0 then -n else n);
    var sign: Str := if plus then [43] else if n < 0 then [45] else [];
    var s := (if plus then [43] else []) + ToString(n) + rest;
    DigitsRoundTrip(if n < 0 then -n else n);
    assert s == sign + (digits + rest);
    SkipLeading(spaces, s);
    StollDigits(sign, digits, rest);
    StollOfSkipped(spaces + s, s);
  }
}
