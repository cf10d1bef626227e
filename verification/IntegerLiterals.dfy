/** Integer option values: the literal grammar, and the digit loop that accumulates in a machine
    word of the target's width and then checks the range and negates. */
module IntegerLiterals {
  import opened Outcomes
  import opened OptionSyntax

  type Width = w: nat | w == 8 || w == 16 || w == 32 || w == 64 witness 8

  /** One of the eight integer types that have a parser. */
  datatype IntType = IntType(bits: Width, signed: bool)

  /** The number of values of a word. */
  function Modulus(w: Width): (m: nat)
    ensures m % 2 == 0 && m >= 256
  {
    if w == 8 then 0x100
    else if w == 16 then 0x1_0000
    else if w == 32 then 0x1_0000_0000
    else 0x1_0000_0000_0000_0000
  }

  function Minimum(ty: IntType): int {
    if ty.signed then -(Modulus(ty.bits) / 2) else 0
  }

  function Maximum(ty: IntType): int {
    if ty.signed then Modulus(ty.bits) / 2 - 1 else Modulus(ty.bits) - 1
  }

  /** A matched literal: sign, base prefix, and the characters after them. */
  datatype Literal = Literal(negative: bool, base: nat, digits: string)

  /** `(-)?(0x)?([0-9a-zA-Z]+)|((0x)?0)`.  The first alternative already matches everything the
      second one does, and a lone `0x` is given to the digits when nothing follows it. */
  function MatchLiteral(text: string): (r: Option<Literal>)
    ensures r.Some? ==> r.value.digits != "" && (r.value.base == 10 || r.value.base == 16)
  {
    var negative := "-" <= text;
    var rest := if negative then text[1..] else text;
    if |rest| > 2 && "0x" <= rest && IsCluster(rest[2..]) then Some(Literal(negative, 16, rest[2..]))
    else if IsCluster(rest) then Some(Literal(negative, 10, rest))
    else None
  }

  function DigitOf(c: char, base: nat): (r: Option<nat>)
    requires base == 10 || base == 16
    ensures r.Some? ==> r.value < base
  {
    if '0' <= c <= '9' then Some(c as int - '0' as int)
    else if base == 16 && 'a' <= c <= 'f' then Some(c as int - 'a' as int + 10)
    else if base == 16 && 'A' <= c <= 'F' then Some(c as int - 'A' as int + 10)
    else None
  }

  predicate AllDigits(digits: string, base: nat)
    requires base == 10 || base == 16
  {
    forall i | 0 <= i < |digits| :: DigitOf(digits[i], base).Some?
  }

  /** The number that a string of digits denotes. */
  function Magnitude(digits: string, base: nat): nat
    requires base == 10 || base == 16
    requires AllDigits(digits, base)
  {
    if digits == "" then 0
    else
      var n := |digits| - 1;
      Magnitude(digits[..n], base) * base + DigitOf(digits[n], base).value
  }

  /** The magnitude in a word of `m` values. */
  function Residue(digits: string, base: nat, m: nat): (r: nat)
    requires base == 10 || base == 16
    requires AllDigits(digits, base) && m > 0
    ensures r < m
  {
    Magnitude(digits, base) % m
  }

  /** No step of the digit loop leaves a residue below the one before it. */
  ghost predicate NoVisibleWrap(digits: string, base: nat, modulus: nat)
    requires base == 10 || base == 16
    requires AllDigits(digits, base) && modulus > 0
  {
    forall k | 0 < k <= |digits| ::
      Residue(digits[..k - 1], base, modulus) <= Residue(digits[..k], base, modulus)
  }

  /** The signed number that a literal denotes. */
  function Denotation(lit: Literal): int
    requires lit.base == 10 || lit.base == 16
    requires AllDigits(lit.digits, lit.base)
  {
    if lit.negative then 0 - Magnitude(lit.digits, lit.base) else Magnitude(lit.digits, lit.base)
  }

  /** What the parser stores, if it accepts: the residue of the magnitude, signed. */
  ghost function IntegerValue(text: string, ty: IntType): Option<int> {
    var lit := MatchLiteral(text);
    if lit.None? || !AllDigits(lit.value.digits, lit.value.base) then None
    else
      var m := Modulus(ty.bits);
      var residue := Residue(lit.value.digits, lit.value.base, m);
      var value := if lit.value.negative then 0 - residue else residue;
      if !NoVisibleWrap(lit.value.digits, lit.value.base, m) then None
      else if lit.value.negative && !ty.signed then None
      else if Minimum(ty) <= value <= Maximum(ty) then Some(value)
      else None
  }

  // ---------- arithmetic of the words ----------

  lemma MulGrows(k: int, m: int)
    requires m > 0
    ensures k >= 1 ==> k * m >= m
    ensures k <= -1 ==> k * m <= -m
  {
    if k >= 1 {
      assert k * m == m + (k - 1) * m;
    } else if k <= -1 {
      assert k * m == -m + (k + 1) * m;
    }
  }

  /** Division has one answer. */
  lemma RemainderUnique(x: int, m: int, q: int, r: int)
    requires 0 <= r < m && x == q * m + r
    ensures x % m == r
  {
    var q', r' := x / m, x % m;
    assert (q - q') * m == r' - r by {
      assert x == q' * m + r';
    }
    MulGrows(q - q', m);
  }

  /** Reducing before a step of the loop or after it gives the same residue. */
  lemma StepResidue(x: int, base: int, digit: int, m: int)
    requires m > 0
    ensures ((x % m) * base + digit) % m == (x * base + digit) % m
  {
    var q, r := x / m, x % m;
    var q', r' := (r * base + digit) / m, (r * base + digit) % m;
    assert x * base + digit == (q * base + q') * m + r' by {
      assert x == q * m + r;
      assert r * base + digit == q' * m + r';
      assert (q * m + r) * base == (q * base) * m + r * base;
      assert (q * base + q') * m == (q * base) * m + q' * m;
    }
    RemainderUnique(x * base + digit, m, q * base + q', r');
  }

  lemma PrefixMagnitude(digits: string, base: nat, k: nat)
    requires base == 10 || base == 16
    requires AllDigits(digits, base) && k < |digits|
    ensures Magnitude(digits[..k + 1], base)
         == Magnitude(digits[..k], base) * base + DigitOf(digits[k], base).value
  {
    assert digits[..k + 1][..k] == digits[..k];
  }

  lemma {:induction false} PrefixBelow(digits: string, base: nat, k: nat)
    requires base == 10 || base == 16
    requires AllDigits(digits, base) && k <= |digits|
    ensures Magnitude(digits[..k], base) <= Magnitude(digits, base)
    decreases |digits| - k
  {
    if k == |digits| {
      assert digits[..k] == digits;
    } else {
      PrefixMagnitude(digits, base, k);
      PrefixBelow(digits, base, k + 1);
    }
  }

  // ---------- the parser ----------

  /** One step of the accumulation in a word of `m` values. */
  function NextWord(word: nat, base: nat, digit: nat, m: nat): nat
    requires m > 0
  {
    (word * base + digit) % m
  }

  lemma NothingReadIsZero(base: nat, m: nat)
    requires (base == 10 || base == 16) && m > 0
    ensures Residue("", base, m) == 0
  {}

  lemma NextWordIsResidue(digits: string, base: nat, m: nat, k: nat)
    requires base == 10 || base == 16
    requires m > 0 && k < |digits|
    requires AllDigits(digits[..k], base) && DigitOf(digits[k], base).Some?
    ensures AllDigits(digits[..k + 1], base)
    ensures NextWord(Residue(digits[..k], base, m), base, DigitOf(digits[k], base).value, m)
         == Residue(digits[..k + 1], base, m)
  {
    assert AllDigits(digits[..k + 1], base);
    assert digits[..k + 1][..k] == digits[..k];
    StepResidue(Magnitude(digits[..k], base), base, DigitOf(digits[k], base).value, m);
  }

  lemma StepKeepsNoWrap(digits: string, base: nat, m: nat, k: nat)
    requires base == 10 || base == 16
    requires m > 0 && k < |digits| && AllDigits(digits[..k + 1], base)
    requires AllDigits(digits[..k], base) && NoVisibleWrap(digits[..k], base, m)
    requires Residue(digits[..k], base, m) <= Residue(digits[..k + 1], base, m)
    ensures NoVisibleWrap(digits[..k + 1], base, m)
  {
    var longer := digits[..k + 1];
    forall j | 0 < j <= |longer|
      ensures Residue(longer[..j - 1], base, m) <= Residue(longer[..j], base, m)
    {
      if j <= k {
        assert longer[..j - 1] == digits[..k][..j - 1] && longer[..j] == digits[..k][..j];
      } else {
        assert longer[..j - 1] == digits[..k] && longer[..j] == longer;
      }
    }
  }

  /** The two's complement reading of a word. */
  function AsSigned(word: int, m: int): int {
    if word >= m / 2 then word - m else word
  }

  /** `checked_negate`: subtract one, read as signed, negate, subtract one, read as signed. */
  function CheckedNegate(word: int, m: int): int
    requires m > 0
  {
    AsSigned((-AsSigned((word - 1) % m, m) - 1) % m, m)
  }

  lemma CheckedNegateNegates(word: int, w: Width)
    requires 0 <= word <= Modulus(w) / 2
    ensures CheckedNegate(word, Modulus(w)) == -word
  {
    var m: int := Modulus(w);
    if word == 0 {
      RemainderUnique(-1, m, -1, m - 1);
      RemainderUnique(0, m, 0, 0);
    } else {
      RemainderUnique(word - 1, m, 0, word - 1);
      RemainderUnique(-word, m, -1, m - word);
    }
  }

  /** `check_signed_range`, then the negation or the cast. */
  function CheckedWord(negative: bool, word: nat, ty: IntType): Option<int> {
    var m := Modulus(ty.bits);
    if ty.signed && word > (if negative then m / 2 else m / 2 - 1) then None
    else if !negative then Some(word)
    else if !ty.signed then None
    else Some(CheckedNegate(word, m))
  }

  lemma CheckedWordMeaning(negative: bool, word: nat, ty: IntType)
    requires word < Modulus(ty.bits)
    ensures CheckedWord(negative, word, ty)
         == var value := if negative then 0 - word else word;
            if negative && !ty.signed then None
            else if Minimum(ty) <= value <= Maximum(ty) then Some(value) else None
  {
    if negative && ty.signed && word <= Modulus(ty.bits) / 2 {
      CheckedNegateNegates(word, ty.bits);
    }
  }

  method ParseInteger(text: string, ty: IntType) returns (r: Option<int>)
    ensures r == IntegerValue(text, ty)
  {
    hide Magnitude, Residue, NextWord, CheckedWord, MatchLiteral, DigitOf;
    var matched := MatchLiteral(text);
    if matched.None? {
      return None;
    }
    var digits, base := matched.value.digits, matched.value.base;
    var m := Modulus(ty.bits);
    var result := 0;
    NothingReadIsZero(base, m);
    for i := 0 to |digits|
      invariant AllDigits(digits[..i], base)
      invariant result == Residue(digits[..i], base, m)
      invariant NoVisibleWrap(digits[..i], base, m)
    {
      var digit := DigitOf(digits[i], base);
      if digit.None? {
        return None;
      }
      var next := NextWord(result, base, digit.value, m);
      NextWordIsResidue(digits, base, m, i);
      if result > next {
        VisibleWrapSpoils(digits, base, m, i);
        return None;
      }
      StepKeepsNoWrap(digits, base, m, i);
      result := next;
    }
    assert digits[..|digits|] == digits;
    CheckedWordMeaning(matched.value.negative, result, ty);
    return CheckedWord(matched.value.negative, result, ty);
  }

  lemma VisibleWrapSpoils(digits: string, base: nat, m: nat, i: nat)
    requires base == 10 || base == 16
    requires m > 0 && i < |digits| && AllDigits(digits[..i + 1], base)
    requires Residue(digits[..i], base, m) > Residue(digits[..i + 1], base, m)
    ensures AllDigits(digits, base) ==> !NoVisibleWrap(digits, base, m)
  {
    if AllDigits(digits, base) {
      assert digits[..i + 1 - 1] == digits[..i];
    }
  }

  // ---------- exactness ----------

  lemma SmallNeverWraps(digits: string, base: nat, m: nat)
    requires base == 10 || base == 16
    requires AllDigits(digits, base) && m > 0 && Magnitude(digits, base) < m
    ensures NoVisibleWrap(digits, base, m)
  {
    hide Magnitude, Residue, DigitOf;
    forall k | 0 < k <= |digits|
      ensures Residue(digits[..k - 1], base, m) <= Residue(digits[..k], base, m)
    {
      PrefixBelow(digits, base, k);
      PrefixBelow(digits[..k], base, k - 1);
      assert digits[..k][..k - 1] == digits[..k - 1];
      SmallResidue(digits[..k - 1], base, m);
      SmallResidue(digits[..k], base, m);
    }
  }

  lemma SmallResidue(digits: string, base: nat, m: nat)
    requires base == 10 || base == 16
    requires AllDigits(digits, base) && m > 0 && Magnitude(digits, base) < m
    ensures Residue(digits, base, m) == Magnitude(digits, base)
  {
    RemainderUnique(Magnitude(digits, base), m, 0, Magnitude(digits, base));
  }

  /** A literal whose magnitude fits the word is accepted exactly when its signed value is in the
      type's range (an unsigned type takes no sign at all), and then that value is stored. */
  lemma LiteralIsExact(text: string, ty: IntType)
    requires MatchLiteral(text).Some?
    requires AllDigits(MatchLiteral(text).value.digits, MatchLiteral(text).value.base)
    requires Magnitude(MatchLiteral(text).value.digits, MatchLiteral(text).value.base) < Modulus(ty.bits)
    ensures var lit := MatchLiteral(text).value; var n := Denotation(lit);
            IntegerValue(text, ty) ==
            if Minimum(ty) <= n <= Maximum(ty) && (lit.negative ==> ty.signed) then Some(n) else None
  {
    hide Magnitude, Residue, NoVisibleWrap;
    var lit := MatchLiteral(text).value;
    SmallNeverWraps(lit.digits, lit.base, Modulus(ty.bits));
    ResidueExactness(lit.digits, lit.base, Modulus(ty.bits));
  }

  /** Whatever is accepted, the stored value is the literal's exactly when its magnitude is below
      the number of words, and always agrees with it modulo that number. */
  lemma AcceptedIsExactIffSmall(text: string, ty: IntType)
    requires IntegerValue(text, ty).Some?
    ensures var lit := MatchLiteral(text).value; var m := Modulus(ty.bits);
            && (IntegerValue(text, ty).value == Denotation(lit)
                <==> Magnitude(lit.digits, lit.base) < m)
            && (IntegerValue(text, ty).value - Denotation(lit)) % m == 0
  {
    hide Magnitude, Residue, NoVisibleWrap;
    var lit := MatchLiteral(text).value;
    ResidueExactness(lit.digits, lit.base, Modulus(ty.bits));
  }

  lemma RemainderExactness(x: int, m: int)
    requires 0 <= x && 0 < m
    ensures x % m == x <==> x < m
    ensures x % m <= x
    ensures (x - x % m) % m == 0 && (x % m - x) % m == 0
  {
    var q, r := x / m, x % m;
    MulGrows(q, m);
    RemainderUnique(x - r, m, q, 0);
    RemainderUnique(r - x, m, -q, 0);
  }

  lemma ResidueExactness(digits: string, base: nat, m: nat)
    requires base == 10 || base == 16
    requires AllDigits(digits, base) && m > 0
    ensures var x: int, r: int := Magnitude(digits, base), Residue(digits, base, m);
            && (r == x <==> x < m) && r <= x
            && (x - r) % m == 0 && (r - x) % m == 0
  {
    RemainderExactness(Magnitude(digits, base), m);
  }

  // ---------- literals as they are written ----------

  function Written(negative: bool, base: nat, digits: string): string {
    (if negative then "-" else "") + (if base == 16 then "0x" else "") + digits
  }

  /** The matcher decides the integer expression and reads its groups off it; what could start with the
      prefix does. */
  lemma MatchDecidesLiteral(text: string, negative: bool, base: nat, digits: string)
    ensures MatchLiteral(text) == Some(Literal(negative, base, digits)) <==>
              && (base == 10 || base == 16) && IsCluster(digits)
              && text == Written(negative, base, digits)
              && (base == 10 ==> !(|digits| > 2 && "0x" <= digits))
  {
    if (base == 10 || base == 16) && IsCluster(digits) && text == Written(negative, base, digits)
       && (base == 10 ==> !(|digits| > 2 && "0x" <= digits))
    {
      WrittenIsMatched(negative, base, digits);
    }
    if MatchLiteral(text) == Some(Literal(negative, base, digits)) {
      MatchedIsWritten(text);
    }
  }

  lemma WrittenIsMatched(negative: bool, base: nat, digits: string)
    requires (base == 10 || base == 16) && IsCluster(digits)
    requires base == 10 ==> !(|digits| > 2 && "0x" <= digits)
    ensures MatchLiteral(Written(negative, base, digits)) == Some(Literal(negative, base, digits))
  {
    var text := Written(negative, base, digits);
    var rest := (if base == 16 then "0x" else "") + digits;
    assert IsAlnum(digits[0]) && IsAlnum('0');
    assert rest[0] != '-';
    assert text == (if negative then "-" else "") + rest;
    assert negative ==> text[1..] == rest;
    assert !negative ==> text == rest;
    if base == 16 {
      assert rest[2..] == digits && "0x" <= rest;
    } else {
      assert rest == digits;
    }
  }

  lemma MatchedIsWritten(text: string)
    requires MatchLiteral(text).Some?
    ensures var lit := MatchLiteral(text).value;
            && text == Written(lit.negative, lit.base, lit.digits) && IsCluster(lit.digits)
            && (lit.base == 10 ==> !(|lit.digits| > 2 && "0x" <= lit.digits))
  {
    var rest := if "-" <= text then text[1..] else text;
    assert "-" <= text ==> text == "-" + rest;
    if |rest| > 2 && "0x" <= rest {
      assert rest == "0x" + rest[2..];
      ClusterTail(rest);
    }
  }

  lemma ClusterTail(s: string)
    requires |s| > 2
    ensures IsCluster(s) ==> IsCluster(s[2..])
  {}

  function Pow2(n: nat): nat {
    if n == 0 then 1 else 2 * Pow2(n - 1)
  }

  lemma {:induction false} Pow2Sum(a: nat, b: nat)
    ensures Pow2(a + b) == Pow2(a) * Pow2(b)
  {
    if a > 0 {
      Pow2Sum(a - 1, b);
    }
  }

  lemma SmallPowers(w: Width)
    ensures Pow2(4) == 16 && Pow2(w) == 2 * Pow2(w - 1)
  {}

  lemma ModulusIsPower(w: Width)
    ensures Modulus(w) == Pow2(w) && Pow2(w) == 2 * Pow2(w - 1)
  {
    SmallPowers(w);
    hide Pow2;
    Pow2Sum(4, 4);
    Pow2Sum(8, 8);
    Pow2Sum(16, 16);
    Pow2Sum(32, 32);
  }

  const LOWER_DIGITS := "0123456789abcdef"
  const UPPER_DIGITS := "0123456789ABCDEF"

  /** The digits of base sixteen may be written in either case. */
  lemma DigitsAreThese(c: char, base: nat, n: nat)
    requires base == 10 || base == 16
    ensures DigitOf(c, base) == Some(n) <==> n < base && (c == LOWER_DIGITS[n] || c == UPPER_DIGITS[n])
  {}

  /** Acceptance and value by sign, base and digits, for every literal that is below the number of words:
      the two's complement range, to its last value on either side. */
  lemma WrittenLiteralIsExact(negative: bool, base: nat, digits: string, ty: IntType)
    requires base == 10 || base == 16
    requires digits != "" && AllDigits(digits, base) && Magnitude(digits, base) < Pow2(ty.bits)
    ensures var n: int, half: int := Magnitude(digits, base), Pow2(ty.bits - 1);
            IntegerValue(Written(negative, base, digits), ty) ==
            if negative then (if ty.signed && n <= half then Some(-n) else None)
            else (if !ty.signed || n < half then Some(n) else None)
  {
    hide Magnitude, Pow2, MatchLiteral;
    DigitsAreCluster(digits, base);
    WrittenIsMatched(negative, base, digits);
    ModulusIsPower(ty.bits);
    LiteralIsExact(Written(negative, base, digits), ty);
  }

  lemma DigitsAreCluster(digits: string, base: nat)
    requires base == 10 || base == 16
    requires digits != "" && AllDigits(digits, base)
    ensures IsCluster(digits)
    ensures base == 10 ==> !(|digits| > 2 && "0x" <= digits)
  {
    forall i | 0 <= i < |digits| ensures IsAlnum(digits[i]) {
      assert DigitOf(digits[i], base).Some?;
    }
    if base == 10 && |digits| > 2 {
      assert DigitOf(digits[1], base).Some? && digits[1] != 'x';
      assert "0x"[1] == 'x';
    }
  }

  /** A number in a base, without leading zeros. */
  function Numeral(n: nat, base: nat, alphabet: string): (digits: string)
    requires (base == 10 || base == 16) && |alphabet| == 16
    ensures digits != ""
  {
    (if n < base then "" else Numeral(n / base, base, alphabet)) + [alphabet[n % base]]
  }

  lemma {:induction false} NumeralDenotes(n: nat, base: nat, alphabet: string)
    requires (base == 10 || base == 16) && (alphabet == LOWER_DIGITS || alphabet == UPPER_DIGITS)
    ensures AllDigits(Numeral(n, base, alphabet), base) && Magnitude(Numeral(n, base, alphabet), base) == n
  {
    hide DigitOf;
    var c := alphabet[n % base];
    DigitsAreThese(c, base, n % base);
    if n < base {
      OneMoreDigit("", c, base, 0, n);
    } else {
      NumeralDenotes(n / base, base, alphabet);
      OneMoreDigit(Numeral(n / base, base, alphabet), c, base, n / base, n % base);
      QuotientAndRemainder(n, base);
    }
  }

  lemma QuotientAndRemainder(n: nat, base: nat)
    requires base > 0
    ensures n / base * base + n % base == n
  {}

  lemma OneMoreDigit(init: string, c: char, base: nat, n: nat, d: nat)
    requires base == 10 || base == 16
    requires AllDigits(init, base) && Magnitude(init, base) == n && DigitOf(c, base) == Some(d)
    ensures AllDigits(init + [c], base) && Magnitude(init + [c], base) == n * base + d
  {
    hide DigitOf;
    assert (init + [c])[..|init|] == init && (init + [c])[|init|] == c;
  }

  /** Writing a number in either base and either case and parsing it gives the number, exactly if the
      type has it. */
  lemma NumeralRoundTrip(negative: bool, n: nat, base: nat, alphabet: string, ty: IntType)
    requires (base == 10 || base == 16) && (alphabet == LOWER_DIGITS || alphabet == UPPER_DIGITS)
    requires n < Pow2(ty.bits)
    ensures var half := Pow2(ty.bits - 1);
            IntegerValue(Written(negative, base, Numeral(n, base, alphabet)), ty) ==
            if negative then (if ty.signed && n <= half then Some(0 - n) else None)
            else (if !ty.signed || n < half then Some(n) else None)
  {
    hide Magnitude, Pow2, Numeral, MatchLiteral;
    NumeralDenotes(n, base, alphabet);
    WrittenLiteralIsExact(negative, base, Numeral(n, base, alphabet), ty);
  }

  lemma PrefixesOfThreeHundred()
    ensures AllDigits("300", 10)
    ensures Magnitude("300"[..0], 10) == 0 && Magnitude("300"[..1], 10) == 3
    ensures Magnitude("300"[..2], 10) == 30 && Magnitude("300"[..3], 10) == 300
  {
    PrefixMagnitude("300", 10, 0);
    PrefixMagnitude("300", 10, 1);
    PrefixMagnitude("300", 10, 2);
  }

  /** The wrap test misses overflows: 300 is accepted as an eight-bit unsigned value, as 44. */
  lemma OverflowIsMissed()
    ensures IntegerValue("300", IntType(8, false)) == Some(44)
  {
    var d := "300";
    assert IsCluster(d) && d[0] == '3' && !("-" <= d) && !("0x" <= d);
    PrefixesOfThreeHundred();
    assert d[..3] == d;
    hide Magnitude;
    assert NoVisibleWrap(d, 10, 256) by {
      forall k | 0 < k <= 3 ensures Residue(d[..k - 1], 10, 256) <= Residue(d[..k], 10, 256) {
        assert k == 1 || k == 2 || k == 3;
      }
    }
  }
}
