/**
  Writing a number in a base between 2 and 36, most significant digit first,
  with the digits '0'..'9' followed by 'A'..'Z'.
 */
module BaseConversion {
  import opened Wrappers

  /** The character of a digit value, or `None` for a value that is no digit. */
  function DigitStr(digit: int): (r: Option<string>)
    ensures r.Some? <==> 0 <= digit <= 35
    ensures r.Some? ==> |r.value| == 1 && DigitValue(r.value[0]) == digit
    ensures 0 <= digit <= 9 ==> r == Some([('0' as int + digit) as char])
    ensures 10 <= digit <= 35 ==> r == Some([(65 + digit - 10) as char])
  {
    if 0 <= digit <= 9 then Some([('0' as int + digit) as char])
    else if 10 <= digit <= 35 then Some([(65 + digit - 10) as char])
    else None
  }

  /** The value of a digit character: '0'..'9' are 0..9, 'A'..'Z' are 10..35, anything else -1. */
  function DigitValue(c: char): int {
    if '0' <= c <= '9' then c as int - '0' as int
    else if 'A' <= c <= 'Z' then c as int - 'A' as int + 10
    else -1
  }

  /** `int(n / base)`: division rounding toward zero. */
  function TruncDiv(n: int, base: int): (q: int)
    requires base >= 2
    ensures n >= 0 ==> q == n / base
    ensures n != 0 ==> Abs(q) < Abs(n)
  {
    if n > 0 then DivShrinks(n, base); n / base
    else if n == 0 then 0
    else DivShrinks(-n, base); -((-n) / base)
  }

  /** Dividing a positive number by a base of at least 2 makes it smaller. */
  lemma DivShrinks(n: int, base: int)
    requires n > 0 && base >= 2
    ensures 0 <= n / base < n
  {
    var q, r := n / base, n % base;
    assert n == base * q + r && 0 <= r < base;
    if q < 0 {
      MulLeft(base, q, -1);
    } else {
      MulLeft(q, 2, base);
      assert q * base == base * q;
    }
  }

  function Abs(n: int): nat {
    if n >= 0 then n else -n
  }

  /** The digits the conversion loop produces for `n`: least significant digit last. */
  function Digits(n: int, base: int): string
    requires 2 <= base <= 36
    decreases Abs(n)
  {
    if n == 0 then ""
    else Digits(TruncDiv(n, base), base) + DigitStr(n % base).value
  }

  /** Reads a string of digits back, most significant digit first. */
  function FromDigits(s: string, base: int): int {
    if s == [] then 0 else FromDigits(s[..|s| - 1], base) * base + DigitValue(s[|s| - 1])
  }

  function Pow(base: int, k: nat): int {
    if k == 0 then 1 else base * Pow(base, k - 1)
  }

  /**
    `n` in base `base`, or `None` when the base lies outside 2..36. The loop
    takes the remainder as the next digit and prepends it, until the
    quotient reaches 0; so 0 gives the empty string.
   */
  method ToBase(number: int, base: int) returns (r: Option<string>)
    ensures r.None? <==> base < 2 || base > 36
    ensures r.Some? ==> r.value == Digits(number, base)
    ensures r.Some? && number >= 0 ==> FromDigits(r.value, base) == number
  {
    if base < 2 || base > 36 {
      return None;
    }

    var divResult := number;
    var result := "";

    while divResult != 0
      invariant Digits(divResult, base) + result == Digits(number, base)
      decreases Abs(divResult)
    {
      var digit := divResult % base;
      divResult := TruncDiv(divResult, base);
      result := DigitStr(digit).value + result;
    }

    if number >= 0 {
      RoundTrip(number, base);
    }
    return Some(result);
  }

  /** The last digit of a nonzero number is its remainder; the rest are the digits of the quotient. */
  lemma DigitsLast(n: int, base: int)
    requires n != 0 && 2 <= base <= 36
    ensures var s := Digits(n, base);
      && |s| == |Digits(TruncDiv(n, base), base)| + 1
      && s[..|s| - 1] == Digits(TruncDiv(n, base), base)
      && DigitValue(s[|s| - 1]) == n % base
  {
    var d := DigitStr(n % base).value;
    assert Digits(n, base) == Digits(TruncDiv(n, base), base) + d;
  }

  /** Reading the digits of a non-negative `n` back gives `n`. */
  lemma {:induction false} RoundTrip(n: int, base: int)
    requires n >= 0 && 2 <= base <= 36
    ensures FromDigits(Digits(n, base), base) == n
    decreases n
  {
    if n != 0 {
      var q, r := n / base, n % base;
      DigitsLast(n, base);
      DivShrinks(n, base);
      RoundTrip(q, base);
      var s := Digits(n, base);
      var prefix := s[..|s| - 1];
      assert FromDigits(prefix, base) == q;
      FromDigitsLast(s, base);
      DivModParts(n, base);
      assert q * base == base * q;
    }
  }

  /** Reading digits back: the value of all but the last digit, shifted, plus the last. */
  lemma FromDigitsLast(s: string, base: int)
    requires s != []
    ensures FromDigits(s, base) == FromDigits(s[..|s| - 1], base) * base + DigitValue(s[|s| - 1])
  {
  }

  /** Every digit produced is a digit of the base, for any `n`. */
  lemma {:induction false} DigitsInBase(n: int, base: int)
    requires 2 <= base <= 36
    ensures forall i :: 0 <= i < |Digits(n, base)| ==> 0 <= DigitValue(Digits(n, base)[i]) < base
    decreases Abs(n)
  {
    if n != 0 {
      DigitsInBase(TruncDiv(n, base), base);
    }
  }

  /** Zero is written as the empty string. */
  lemma ZeroIsEmpty(base: int)
    requires 2 <= base <= 36
    ensures Digits(0, base) == ""
  {
  }

  /** A positive number is written without a leading zero. */
  lemma {:induction false} NoLeadingZero(n: int, base: int)
    requires n > 0 && 2 <= base <= 36
    ensures |Digits(n, base)| > 0 && Digits(n, base)[0] != '0'
    decreases n
  {
    var q := n / base;
    DigitsLast(n, base);
    var s := Digits(n, base);
    if q == 0 {
      assert n % base == n;
      assert s[0] == s[|s| - 1];
    } else {
      DivShrinks(n, base);
      NoLeadingZero(q, base);
      assert s[0] == s[..|s| - 1][0];
    }
  }

  /** A positive number has exactly as many digits as its magnitude in the base needs. */
  lemma {:induction false} DigitCount(n: int, base: int)
    requires n > 0 && 2 <= base <= 36
    ensures |Digits(n, base)| >= 1
    ensures Pow(base, |Digits(n, base)| - 1) <= n < Pow(base, |Digits(n, base)|)
    decreases n
  {
    var q := n / base;
    DigitsLast(n, base);
    var k := |Digits(n, base)|;
    if q == 0 {
      assert k == 1;
      assert Pow(base, 1) == base;
    } else {
      DivShrinks(n, base);
      DigitCount(q, base);
      PowBounds(n, base, q, k - 1);
    }
  }

  /** If `q` has `j` digits, then `n` with quotient `q` has `j + 1`. */
  lemma PowBounds(n: int, base: int, q: int, j: nat)
    requires n > 0 && 2 <= base && q == n / base && j >= 1
    requires Pow(base, j - 1) <= q < Pow(base, j)
    ensures Pow(base, j) <= n < Pow(base, j + 1)
  {
    DivModParts(n, base);
    var p, p' := Pow(base, j - 1), Pow(base, j);
    assert Pow(base, j) == base * p;
    assert Pow(base, j + 1) == base * p';
    MulLeft(base, p, q);
    MulLeft(base, q + 1, p');
  }

  lemma DivModParts(n: int, base: int)
    requires base >= 2
    ensures n == base * (n / base) + n % base && 0 <= n % base < base
  {
  }

  lemma MulLeft(a: int, x: int, y: int)
    requires a >= 0 && x <= y
    ensures a * x <= a * y
  {
    assert a * y - a * x == a * (y - x);
  }
}
