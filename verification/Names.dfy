/** Strings in the order `sort` puts them by default, and decimal numbers as strings. */
module Names {

  /** `a` sorts before `b`. */
  predicate Before(a: string, b: string) {
    b != [] && (a == [] || a[0] < b[0] || (a[0] == b[0] && Before(a[1..], b[1..])))
  }

  lemma {:induction false} BeforeIsTotal(a: string, b: string)
    ensures (Before(a, b) && a != b && !Before(b, a)) || (Before(b, a) && a != b && !Before(a, b))
         || (a == b && !Before(a, b))
  {
    if a != [] && b != [] {
      BeforeIsTotal(a[1..], b[1..]);
      assert a == [a[0]] + a[1..] && b == [b[0]] + b[1..];
    }
  }

  lemma {:induction false} BeforeIsTransitive(a: string, b: string, c: string)
    requires Before(a, b) && Before(b, c)
    ensures Before(a, c)
  {
    if a != [] && a[0] == b[0] == c[0] {
      BeforeIsTransitive(a[1..], b[1..], c[1..]);
    }
  }

  /** The first parts decide, and when they are the same the rest does. */
  lemma {:induction false} PartsDecide(a: string, b: string, p: string, q: string)
    requires |a| == |b|
    ensures Before(a + p, b + q) <==> Before(a, b) || (a == b && Before(p, q))
    decreases |a|
  {
    if a == [] {
      assert a + p == p && b + q == q;
    } else {
      PartsDecide(a[1..], b[1..], p, q);
      assert (a + p)[1..] == a[1..] + p && (b + q)[1..] == b[1..] + q;
      assert a == [a[0]] + a[1..] && b == [b[0]] + b[1..];
    }
  }

  // ---------------------------------------------------------------- decimal

  const DIGITS := "0123456789"

  predicate IsDigit(c: char) {
    '0' <= c <= '9'
  }

  /** `String(n)`. */
  function Decimal(n: nat): string {
    if n < 10 then [DIGITS[n]] else Decimal(n / 10) + [DIGITS[n % 10]]
  }

  /** `padStart(width, "0")`. */
  function PadStart(s: string, width: nat): string
    decreases width - |s|
  {
    if |s| >= width then s else PadStart("0" + s, width)
  }

  /** The `width` digits of a number below ten to the width. */
  function Digits(n: nat, width: nat): (r: string)
    ensures |r| == width && forall c :: c in r ==> IsDigit(c)
  {
    if width == 0 then "" else Digits(n / 10, width - 1) + [DIGITS[n % 10]]
  }

  function Power(width: nat): (r: nat)
    ensures r > 0
  {
    if width == 0 then 1 else 10 * Power(width - 1)
  }

  /** Same-width numbers sort as they count. */
  lemma {:induction false} DigitsSort(m: nat, n: nat, width: nat)
    requires m < Power(width) && n < Power(width)
    ensures Before(Digits(m, width), Digits(n, width)) <==> m < n
    ensures Digits(m, width) == Digits(n, width) <==> m == n
    decreases width
  {
    if width > 0 {
      var p, q := Digits(m / 10, width - 1), Digits(n / 10, width - 1);
      DigitsSort(m / 10, n / 10, width - 1);
      PartsDecide(p, q, [DIGITS[m % 10]], [DIGITS[n % 10]]);
      assert Digits(m, width)[..width - 1] == p && Digits(n, width)[..width - 1] == q;
      assert Digits(m, width)[width - 1] == DIGITS[m % 10] && Digits(n, width)[width - 1] == DIGITS[n % 10];
      DigitSorts(m % 10, n % 10);
    }
  }

  lemma DigitSorts(i: nat, j: nat)
    requires i < 10 && j < 10
    ensures DIGITS[i] < DIGITS[j] <==> i < j
    ensures DIGITS[i] == DIGITS[j] <==> i == j
    ensures Before([DIGITS[i]], [DIGITS[j]]) <==> i < j
  {
    assert forall k :: 0 <= k < 10 ==> DIGITS[k] as int == '0' as int + k;
  }

  lemma {:induction false} DecimalIsDigits(n: nat)
    ensures Decimal(n) != [] && forall c :: c in Decimal(n) ==> IsDigit(c)
  {
    if n >= 10 {
      DecimalIsDigits(n / 10);
    }
  }

  lemma {:induction false} PaddedIsDigits(s: string, width: nat)
    requires forall c :: c in s ==> IsDigit(c)
    ensures |PadStart(s, width)| >= |s| && forall c :: c in PadStart(s, width) ==> IsDigit(c)
    decreases width - |s|
  {
    if |s| < width {
      PaddedIsDigits("0" + s, width);
    }
  }

  lemma {:induction false} DecimalLength(n: nat, width: nat)
    requires width >= 1 && n < Power(width)
    ensures |Decimal(n)| <= width
    decreases width
  {
    if n >= 10 {
      DecimalLength(n / 10, width - 1);
    }
  }

  // ---------------------------------------------------------------- what a number's digits say

  predicate AreDigits(s: string) {
    forall i :: 0 <= i < |s| ==> IsDigit(s[i])
  }

  /** The number a string of digits is read as. */
  function ReadNumber(s: string): (n: nat)
    requires AreDigits(s)
    ensures n < Power(|s|)
  {
    if s == "" then 0 else 10 * ReadNumber(s[..|s| - 1]) + (s[|s| - 1] as int - '0' as int)
  }

  lemma DigitIs(n: nat)
    requires n < 10
    ensures IsDigit(DIGITS[n]) && DIGITS[n] as int - '0' as int == n
  {}

  /** A number written in digits is read as itself. */
  lemma {:induction false} DigitsRead(n: nat, width: nat)
    requires n < Power(width)
    ensures AreDigits(Digits(n, width)) && ReadNumber(Digits(n, width)) == n
    decreases width
  {
    if width > 0 {
      DigitsRead(n / 10, width - 1);
      DigitIs(n % 10);
      var front := Digits(n / 10, width - 1);
      assert Digits(n, width)[..width - 1] == front && Digits(n, width)[width - 1] == DIGITS[n % 10];
      hide Digits, IsDigit;
    }
  }

  /** And digits are those of the number they are read as. */
  lemma {:induction false} ReadDigits(s: string)
    requires AreDigits(s)
    ensures Digits(ReadNumber(s), |s|) == s
  {
    if s != "" {
      var front, last := s[..|s| - 1], s[|s| - 1];
      ReadDigits(front);
      assert IsDigit(last);
      var d := last as int - '0' as int;
      DigitIs(d);
      assert ReadNumber(s) / 10 == ReadNumber(front) && ReadNumber(s) % 10 == d;
      assert s == front + [last];
    }
  }

  /** `String(n)` reads as the number, without leading zeros. */
  lemma {:induction false} DecimalReads(n: nat)
    ensures AreDigits(Decimal(n)) && ReadNumber(Decimal(n)) == n
    ensures Decimal(n) != "" && (n > 0 ==> Decimal(n)[0] != '0')
  {
    DigitIs(n % 10);
    if n < 10 {
      assert Decimal(n)[..0] == "";
    } else {
      DecimalReads(n / 10);
      assert Decimal(n)[..|Decimal(n)| - 1] == Decimal(n / 10);
      hide IsDigit;
    }
  }

  lemma {:induction false} PadGrows(s: string, c: char, width: nat)
    ensures PadStart(s + [c], width + 1) == PadStart(s, width) + [c]
    decreases width - |s|
  {
    if |s| < width {
      PadGrows("0" + s, c, width);
      assert "0" + (s + [c]) == ("0" + s) + [c];
    }
  }

  lemma {:induction false} AllZeros(width: nat)
    ensures PadStart("", width) == Digits(0, width)
  {
    if width > 0 {
      AllZeros(width - 1);
      PadGrows("", '0', width - 1);
      assert "" + ['0'] == "0" && "0" + "" == "0";
      assert PadStart("", width) == PadStart("0", width);
    }
  }

  /** `String(n).padStart(width, "0")` writes a number in that many digits, when it has no more. */
  lemma {:induction false} PaddedIs(n: nat, width: nat)
    requires width >= 1 && n < Power(width)
    ensures PadStart(Decimal(n), width) == Digits(n, width)
    decreases width
  {
    var last := DIGITS[n % 10];
    if n < 10 {
      AllZeros(width - 1);
      PadGrows("", last, width - 1);
      assert "" + [last] == Decimal(n);
    } else {
      assert Decimal(n) == Decimal(n / 10) + [last] && Digits(n, width) == Digits(n / 10, width - 1) + [last];
      assert n / 10 < Power(width - 1) && width > 1;
      hide Decimal, Digits, PadStart, Power;
      PaddedIs(n / 10, width - 1);
      PadGrows(Decimal(n / 10), last, width - 1);
    }
  }
}
