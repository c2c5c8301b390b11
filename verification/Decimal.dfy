/** Decimal text: what `strconv.FormatInt`, `strconv.ParseInt` and template literals print and read. */
module Decimal {
  import opened Wrappers

  const DIGITS := "0123456789"

  predicate IsDigit(c: char) {
    '0' <= c <= '9'
  }

  predicate AllDigits(s: string) {
    forall i :: 0 <= i < |s| ==> IsDigit(s[i])
  }

  function DigitValue(c: char): nat
    requires IsDigit(c)
  {
    c as nat - '0' as nat
  }

  function Print(n: nat): (s: string)
    ensures s != [] && AllDigits(s)
  {
    if n < 10 then [DIGITS[n]] else Print(n / 10) + [DIGITS[n % 10]]
  }

  function Read(s: string): nat
    requires AllDigits(s)
  {
    if s == [] then 0 else 10 * Read(s[..|s| - 1]) + DigitValue(s[|s| - 1])
  }

  lemma {:induction false} ReadPrint(n: nat)
    ensures Read(Print(n)) == n
  {
    if n >= 10 {
      ReadPrint(n / 10);
      assert Print(n)[..|Print(n)| - 1] == Print(n / 10);
    }
  }

  lemma PrintInjective(m: nat, n: nat)
    ensures Print(m) == Print(n) ==> m == n
  {
    ReadPrint(m);
    ReadPrint(n);
  }

  const INT64_MIN := -0x8000_0000_0000_0000
  const INT64_MAX := 0x7fff_ffff_ffff_ffff

  predicate FitsInt64(i: int) {
    INT64_MIN <= i <= INT64_MAX
  }

  function FormatInt(i: int): string {
    if i < 0 then "-" + Print(-i) else Print(i)
  }

  predicate Signed(s: string) {
    s != [] && (s[0] == '-' || s[0] == '+')
  }

  function Unsigned(s: string): string {
    if Signed(s) then s[1..] else s
  }

  /** `strconv.ParseInt(s, 10, 64)`: an optional sign, at least one digit, within range. */
  function ParseInt(s: string): (r: Option<int>)
    ensures r.Some? ==> FitsInt64(r.value)
  {
    var digits := Unsigned(s);
    if digits == [] || !AllDigits(digits) then None
    else
      var n: int := Read(digits);
      var i := if Signed(s) && s[0] == '-' then -n else n;
      if FitsInt64(i) then Some(i) else None
  }

  lemma UnsignedFormat(i: int)
    ensures Unsigned(FormatInt(i)) == Print(if i < 0 then -i else i)
    ensures Signed(FormatInt(i)) <==> i < 0
    ensures i < 0 ==> FormatInt(i)[0] == '-'
  {
    if i >= 0 { assert IsDigit(Print(i)[0]); }
  }

  lemma ParseFormat(i: int)
    requires FitsInt64(i)
    ensures ParseInt(FormatInt(i)) == Some(i)
  {
    UnsignedFormat(i);
    ReadPrint(if i < 0 then -i else i);
  }

  lemma NoComma(i: int)
    ensures forall j :: 0 <= j < |FormatInt(i)| ==> FormatInt(i)[j] != ','
  {
    var n := if i < 0 then -i else i;
    assert AllDigits(Print(n));
    forall j | 0 <= j < |FormatInt(i)| ensures FormatInt(i)[j] != ',' {
      if i < 0 && j > 0 { assert FormatInt(i)[j] == Print(n)[j - 1]; }
    }
  }

  // ---------------------------------------------------------------- every text that parses

  predicate Zeros(s: string) { forall i :: 0 <= i < |s| ==> s[i] == '0' }

  lemma {:induction false} ReadIgnoresZeros(zeros: string, s: string)
    requires Zeros(zeros) && AllDigits(s)
    ensures AllDigits(zeros + s) && Read(zeros + s) == Read(s)
    decreases |zeros| + |s|
  {
    if s != [] {
      var n := |s| - 1;
      ReadIgnoresZeros(zeros, s[..n]);
      assert (zeros + s)[..|zeros| + n] == zeros + s[..n];
    } else if zeros != [] {
      var n := |zeros| - 1;
      ReadIgnoresZeros(zeros[..n], []);
      assert zeros + [] == zeros && zeros[..n] + [] == zeros[..n];
    }
  }

  lemma DigitIsPrinted(n: nat, c: char)
    requires IsDigit(c)
    ensures Print(10 * n + DigitValue(c)) == (if n == 0 then [c] else Print(n) + [c])
  {
    assert DIGITS[DigitValue(c)] == c;
  }

  lemma CanonicalSnoc(zeros: string, init: string, c: char) returns (more: string)
    requires AllDigits(init) && IsDigit(c) && Zeros(zeros)
    requires init == [] || init == zeros + Print(Read(init))
    ensures Zeros(more) && init + [c] == more + Print(10 * Read(init) + DigitValue(c))
  {
    DigitIsPrinted(Read(init), c);
    if Read(init) == 0 {
      more := init;
    } else {
      more := zeros;
      assert init + [c] == zeros + (Print(Read(init)) + [c]);
    }
  }

  /** Digits are the canonical form of the number they denote, behind zeros. */
  lemma {:induction false} DigitsAreCanonical(s: string) returns (zeros: string)
    requires s != [] && AllDigits(s)
    ensures Zeros(zeros) && s == zeros + Print(Read(s))
  {
    var n := |s| - 1;
    zeros := [];
    if n > 0 { zeros := DigitsAreCanonical(s[..n]); }
    zeros := CanonicalSnoc(zeros, s[..n], s[n]);
    assert s == s[..n] + [s[n]];
  }

  /** How a number may be written: zeros in front, and a sign that fits it. */
  ghost predicate Writes(s: string, sign: string, zeros: string, i: int) {
    && s == sign + zeros + Print(if i < 0 then -i else i) && Zeros(zeros)
    && sign in {"", "+", "-"} && (i < 0 ==> sign == "-") && (i > 0 ==> sign != "-")
  }

  lemma Digits(zeros: string, n: nat)
    requires Zeros(zeros)
    ensures
      var digits := zeros + Print(n);
      digits != [] && AllDigits(digits) && Read(digits) == n
  {
    ReadIgnoresZeros(zeros, Print(n));
    ReadPrint(n);
  }

  lemma SignIsSplit(sign: string, digits: string)
    requires sign in {"", "+", "-"} && digits != [] && AllDigits(digits)
    ensures Unsigned(sign + digits) == digits
    ensures Signed(sign + digits) && (sign + digits)[0] == '-' <==> sign == "-"
  {
    assert IsDigit(digits[0]);
    if sign == "" { assert sign + digits == digits; }
  }

  lemma ReadBack(s: string, i: int)
    requires Unsigned(s) != [] && AllDigits(Unsigned(s)) && FitsInt64(i)
    requires Read(Unsigned(s)) == if Signed(s) && s[0] == '-' then -i else i
    ensures ParseInt(s) == Some(i)
  {
  }

  lemma Assoc(a: string, b: string, c: string)
    ensures a + b + c == a + (b + c)
  {
  }

  lemma WrittenParses(s: string, sign: string, zeros: string, i: int)
    requires Writes(s, sign, zeros, i) && FitsInt64(i)
    ensures ParseInt(s) == Some(i)
  {
    var n := if i < 0 then -i else i;
    Assoc(sign, zeros, Print(n));
    Digits(zeros, n);
    SignedParses(s, sign, zeros + Print(n), i);
  }

  lemma SignedParses(s: string, sign: string, digits: string, i: int)
    requires s == sign + digits && sign in {"", "+", "-"} && digits != [] && AllDigits(digits) && FitsInt64(i)
    requires Read(digits) == (if i < 0 then -i else i) && (i < 0 ==> sign == "-") && (i > 0 ==> sign != "-")
    ensures ParseInt(s) == Some(i)
  {
    SignIsSplit(sign, digits);
    ReadBack(s, i);
  }

  lemma SignIs(s: string) returns (sign: string)
    ensures s == sign + Unsigned(s) && sign in {"", "+", "-"}
    ensures sign == "-" <==> Signed(s) && s[0] == '-'
  {
    sign := if !Signed(s) then "" else if s[0] == '-' then "-" else "+";
    assert s == sign + Unsigned(s);
  }

  lemma ParsedIsWritten(s: string, i: int) returns (sign: string, zeros: string)
    requires ParseInt(s) == Some(i)
    ensures Writes(s, sign, zeros, i)
  {
    var digits := Unsigned(s);
    sign := SignIs(s);
    zeros := DigitsAreCanonical(digits);
    assert s == sign + (zeros + Print(Read(digits)));
    assert s == sign + zeros + Print(Read(digits));
  }

  /** What parses is exactly a 64-bit integer so written; nothing else does. */
  lemma ParsesIff(s: string, i: int)
    ensures ParseInt(s) == Some(i) <==> FitsInt64(i) && exists sign, zeros :: Writes(s, sign, zeros, i)
  {
    if ParseInt(s) == Some(i) {
      var sign, zeros := ParsedIsWritten(s, i);
    }
    if FitsInt64(i) && exists sign, zeros :: Writes(s, sign, zeros, i) {
      var sign, zeros :| Writes(s, sign, zeros, i);
      WrittenParses(s, sign, zeros, i);
    }
  }
}
