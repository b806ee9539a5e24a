/** Positional numerals, as `format!` writes them and `parse` reads them. */
module Numerals {

  const U64_MAX: nat := 0xffff_ffff_ffff_ffff

  const DIGITS: string := "0123456789abcdef"

  function Show(n: nat, base: nat): (s: string)
    requires 2 <= base <= 16
    ensures s != []
    decreases n
  {
    if n < base then [DIGITS[n]] else Show(n / base, base) + [DIGITS[n % base]]
  }

  function DigitValue(c: char): int {
    if '0' <= c <= '9' then c as int - '0' as int
    else if 'a' <= c <= 'f' then c as int - 'a' as int + 10
    else -1
  }

  predicate AllDigits(s: string, base: nat) {
    forall i :: 0 <= i < |s| ==> 0 <= DigitValue(s[i]) < base
  }

  function Value(s: string, base: nat): nat
    requires AllDigits(s, base)
  {
    if s == [] then 0 else Value(s[..|s| - 1], base) * base + DigitValue(s[|s| - 1])
  }

  lemma DigitRoundTrip(d: nat)
    requires d < 16
    ensures DigitValue(DIGITS[d]) == d
  {
  }

  /** What is written reads back, so two numbers are never written alike. */
  lemma {:induction false} ValueOfShow(n: nat, base: nat)
    requires 2 <= base <= 16
    ensures AllDigits(Show(n, base), base) && Value(Show(n, base), base) == n
    decreases n
  {
    hide Value, AllDigits, DigitValue;
    DivMod(n, base);
    if n < base {
      DigitRoundTrip(n);
      OneDigit(DIGITS[n], base);
    } else {
      var high, low := Show(n / base, base), DIGITS[n % base];
      ValueOfShow(n / base, base);
      DigitRoundTrip(n % base);
      assert Show(n, base) == high + [low];
      ValueSnoc(high, low, base);
    }
  }

  /** `s` is the number in this base, in digits 0 to 9 and a to f, and without needless zeros. */
  ghost predicate Writes(s: string, base: nat, n: nat) {
    && s != [] && AllDigits(s, base) && Value(s, base) == n && (s[0] == '0' ==> |s| == 1)
  }

  lemma {:induction false} ShowWrites(n: nat, base: nat)
    requires 2 <= base <= 16
    ensures Writes(Show(n, base), base, n)
    decreases n
  {
    ValueOfShow(n, base);
    DivMod(n, base);
    if n >= base {
      ShowWrites(n / base, base);
      WritesPositive(Show(n / base, base), base, n / base);
    }
  }

  lemma WritesPositive(s: string, base: nat, n: nat)
    requires Writes(s, base, n) && base > 0
    ensures n > 0 ==> s[0] != '0'
  {
    if s[0] == '0' {
      OneDigit('0', base);
      assert s == ['0'];
    }
  }

  lemma OneDigit(c: char, base: nat)
    requires 0 <= DigitValue(c) < base
    ensures AllDigits([c], base) && Value([c], base) == DigitValue(c)
  {
  }

  lemma DivMod(n: int, base: nat)
    requires base > 0
    ensures n / base * base + n % base == n && 0 <= n % base < base
    ensures n >= base >= 2 ==> 0 < n / base < n
  {
  }

  lemma ValueSnoc(s: string, c: char, base: nat)
    requires AllDigits(s, base) && 0 <= DigitValue(c) < base
    ensures AllDigits(s + [c], base)
    ensures Value(s + [c], base) == Value(s, base) * base + DigitValue(c)
  {
  }

  // ------------------------------------------------------------- fixed width

  function Power(base: nat, e: nat): nat {
    if e == 0 then 1 else base * Power(base, e - 1)
  }

  function Zeros(n: nat): string {
    seq(n, i => '0')
  }

  /** Decimal, padded with zeros to at least the given width. */
  function Pad(n: nat, width: nat): string {
    var s := Show(n, 10);
    if |s| < width then Zeros(width - |s|) + s else s
  }

  lemma ValueOfNothing()
    ensures Value("", 10) == 0
  {
  }

  lemma {:induction false} LeadingZeros(k: nat, s: string)
    requires AllDigits(s, 10)
    ensures AllDigits(Zeros(k) + s, 10) && Value(Zeros(k) + s, 10) == Value(s, 10)
    decreases |s|
  {
    hide Value, Zeros;
    if s == [] {
      ValueOfNothing();
      ValueOfZeros(k);
      assert Zeros(k) + s == Zeros(k);
    } else {
      var init, last := s[..|s| - 1], s[|s| - 1];
      LeadingZeros(k, init);
      assert Zeros(k) + s == (Zeros(k) + init) + [last] && s == init + [last];
      ValueSnoc(Zeros(k) + init, last, 10);
      ValueSnoc(init, last, 10);
    }
  }

  lemma {:induction false} ValueOfZeros(k: nat)
    ensures AllDigits(Zeros(k), 10) && Value(Zeros(k), 10) == 0
  {
    if k > 0 {
      ValueOfZeros(k - 1);
      assert Zeros(k) == Zeros(k - 1) + ['0'];
      ValueSnoc(Zeros(k - 1), '0', 10);
    }
  }

  /** A number fits a width exactly when it is below that power of ten. */
  lemma {:induction false} ShowWidth(n: nat, width: nat)
    requires width >= 1
    ensures |Show(n, 10)| <= width <==> n < Power(10, width)
    decreases width
  {
    if width == 1 {
      assert Power(10, 0) == 1;
    } else if n < 10 {
      assert Power(10, width) == 10 * Power(10, width - 1);
      ShowWidth(n, width - 1);
    } else {
      ShowWidth(n / 10, width - 1);
    }
  }

  lemma {:induction false} PadReads(n: nat, width: nat)
    requires width >= 1
    ensures AllDigits(Pad(n, width), 10) && Value(Pad(n, width), 10) == n
    ensures if n < Power(10, width) then |Pad(n, width)| == width else |Pad(n, width)| > width
  {
    ValueOfShow(n, 10);
    ShowWidth(n, width);
    if |Show(n, 10)| < width {
      LeadingZeros(width - |Show(n, 10)|, Show(n, 10));
    }
  }
}
