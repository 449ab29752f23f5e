/** `strconv.Atoi` on a 64-bit machine. */
module Numbers {
  const MAX_INT := 0x7fff_ffff_ffff_ffff
  const MIN_INT := -0x8000_0000_0000_0000
  const MAX_UINT := 0xffff_ffff_ffff_ffff

  datatype Scanned = Number(n: nat) | TooLarge | Malformed

  /** The digit loop of `strconv.ParseUint`: overflow is noticed before a later bad character. */
  function ScanDigits(s: string, acc: nat): (r: Scanned)
    ensures r.Number? ==> r.n <= MAX_UINT || s == ""
  {
    if s == "" then Number(acc)
    else if !('0' <= s[0] <= '9') then Malformed
    else
      var next := 10 * acc + (s[0] as int - '0' as int);
      if next > MAX_UINT then TooLarge else ScanDigits(s[1..], next)
  }

  /** The value `strconv.Atoi` returns, errors ignored: 0 when malformed, the nearest bound when out of range. */
  function Atoi(s: string): (n: int)
    ensures MIN_INT <= n <= MAX_INT
  {
    var negative := s != "" && s[0] == '-';
    var digits := if s != "" && (s[0] == '-' || s[0] == '+') then s[1..] else s;
    if digits == "" then 0
    else match ScanDigits(digits, 0)
      case Malformed => 0
      case TooLarge => if negative then MIN_INT else MAX_INT
      case Number(n) =>
        if negative then (if n > 0 - MIN_INT then MIN_INT else 0 - n) else (if n > MAX_INT then MAX_INT else n)
  }

  predicate Digits(s: string) {
    forall i :: 0 <= i < |s| ==> '0' <= s[i] <= '9'
  }

  function Pow10(k: nat): nat {
    if k == 0 then 1 else 10 * Pow10(k - 1)
  }

  lemma Pow10Exceeds64Bits()
    ensures Pow10(20) > MAX_UINT
  {
    assert Pow10(4) == 10_000;
    assert Pow10(8) == 100_000_000;
    assert Pow10(12) == 1_000_000_000_000;
    assert Pow10(16) == 10_000_000_000_000_000;
    assert Pow10(20) == 100_000_000_000_000_000_000;
  }

  /** A value of at least 10^k with 20 - k digits to go overflows. */
  lemma {:induction false} ScanOverflows(s: string, acc: nat, k: nat)
    requires Digits(s) && s != "" && k + |s| >= 20 && Pow10(k) <= acc
    ensures ScanDigits(s, acc) == TooLarge
    decreases |s|
  {
    var next := 10 * acc + (s[0] as int - '0' as int);
    assert next >= Pow10(k + 1);
    if next <= MAX_UINT {
      if |s| == 1 {
        PowMonotone(20, k + 1);
        Pow10Exceeds64Bits();
      } else {
        ScanOverflows(s[1..], next, k + 1);
      }
    }
  }

  lemma {:induction false} PowMonotone(j: nat, k: nat)
    requires j <= k
    ensures Pow10(j) <= Pow10(k)
    decreases k
  {
    if j < k {
      PowMonotone(j, k - 1);
    }
  }

  /** An over-long number reads as the largest one. */
  lemma LongNumberSaturates(s: string)
    requires Digits(s) && |s| > 20 && s[0] != '0'
    ensures Atoi(s) == MAX_INT
  {
    var first := s[0] as int - '0' as int;
    assert Pow10(0) <= first;
    assert ScanDigits(s, 0) == ScanDigits(s[1..], first);
    ScanOverflows(s[1..], first, 0);
  }

  lemma MinusOne()
    ensures Atoi("-1") == -1
  {
    assert "-1"[1..] == "1" && "1"[1..] == "";
  }

  // ----- numerals -----

  function Digit(d: nat): (c: char)
    requires d < 16
  {
    "0123456789abcdef"[d]
  }

  /** `%d` of a non-negative number. */
  function Decimal(n: nat): (s: string) {
    if n < 10 then [Digit(n)] else Decimal(n / 10) + [Digit(n % 10)]
  }

  lemma {:induction false} DecimalDigits(n: nat)
    ensures |Decimal(n)| > 0
    ensures forall i :: 0 <= i < |Decimal(n)| ==> '0' <= Decimal(n)[i] <= '9'
  {
    if n >= 10 {
      DecimalDigits(n / 10);
    }
  }

  lemma DigitInjective(m: nat, n: nat)
    requires m < 16 && n < 16 && Digit(m) == Digit(n)
    ensures m == n
  {
  }

  lemma {:induction false} DecimalInjective(m: nat, n: nat)
    requires Decimal(m) == Decimal(n)
    ensures m == n
  {
    var a, b := Decimal(m), Decimal(n);
    DecimalDigits(m / 10);
    DecimalDigits(n / 10);
    assert a[|a| - 1] == Digit(m % 10) && b[|b| - 1] == Digit(n % 10);
    DigitInjective(m % 10, n % 10);
    if m >= 10 && n >= 10 {
      assert a[..|a| - 1] == Decimal(m / 10) && b[..|b| - 1] == Decimal(n / 10);
      DecimalInjective(m / 10, n / 10);
    }
  }

  /** One more digit. */
  lemma {:induction false} ScanSnoc(s: string, c: char, acc: nat)
    requires Digits(s) && '0' <= c <= '9'
    ensures ScanDigits(s + [c], acc) ==
      match ScanDigits(s, acc)
      case Number(m) =>
        (var n := 10 * m + (c as int - '0' as int); if n > MAX_UINT then TooLarge else Number(n))
      case other => other
  {
    var t := s + [c];
    if s == "" {
      assert t[0] == c && t[1..] == "";
    } else {
      assert t[0] == s[0] && t[1..] == s[1..] + [c];
      var next := 10 * acc + (s[0] as int - '0' as int);
      if next <= MAX_UINT {
        ScanSnoc(s[1..], c, next);
      }
    }
  }

  lemma DigitReadsBack(d: nat)
    requires d < 10
    ensures '0' <= Digit(d) <= '9' && Digit(d) as int - '0' as int == d
  {
  }

  lemma {:induction false} DecimalScans(n: nat)
    ensures ScanDigits(Decimal(n), 0) == if n <= MAX_UINT then Number(n) else TooLarge
  {
    DigitReadsBack(n % 10);
    if n < 10 {
      assert Decimal(n)[1..] == "";
    } else {
      DecimalScans(n / 10);
      DecimalDigits(n / 10);
      ScanSnoc(Decimal(n / 10), Digit(n % 10), 0);
    }
  }

  /** A number written in decimal reads back, or as the nearest bound. */
  lemma DecimalReadsBack(n: nat)
    ensures Atoi(Decimal(n)) == if n <= MAX_INT then n else MAX_INT
    ensures Atoi("-" + Decimal(n)) == if n <= 0 - MIN_INT then 0 - n else MIN_INT
  {
    DecimalScans(n);
    DecimalDigits(n);
    var s := Decimal(n);
    assert '0' <= s[0] <= '9';
    assert ("-" + s)[1..] == s && ("-" + s)[0] == '-';
  }
}
