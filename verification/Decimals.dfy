/** Numbers written in decimal, and read back. */
module Decimals {

  function Digit(n: nat): char
    requires n < 10
  {
    ('0' as int + n) as char
  }

  predicate IsDigits(s: string) {
    forall i | 0 <= i < |s| :: '0' <= s[i] <= '9'
  }

  /** `str(n)`. */
  function Decimal(n: nat): (r: string)
    ensures r != []
  {
    if n < 10 then [Digit(n)] else Decimal(n / 10) + [Digit(n % 10)]
  }

  function ValueOf(digits: string): nat
    requires IsDigits(digits)
  {
    if digits == [] then 0
    else 10 * ValueOf(digits[..|digits| - 1]) + (digits[|digits| - 1] as int - '0' as int)
  }

  lemma {:induction false} DecimalDigits(n: nat)
    ensures IsDigits(Decimal(n))
    ensures Decimal(n)[0] == '0' ==> n == 0
  {
    if n < 10 {
    } else {
      DecimalDigits(n / 10);
    }
  }

  /** Reading a printed number gives it back, so distinct numbers have distinct spellings. */
  lemma {:induction false} DecimalRoundTrip(n: nat)
    ensures IsDigits(Decimal(n)) && ValueOf(Decimal(n)) == n
  {
    DecimalDigits(n);
    if n < 10 {
      assert [Digit(n)][..0] == [];
    } else {
      DecimalRoundTrip(n / 10);
      var r := Decimal(n);
      assert r[..|r| - 1] == Decimal(n / 10);
    }
  }

  lemma DecimalsDiffer(m: nat, n: nat)
    requires m != n
    ensures Decimal(m) != Decimal(n)
  {
    DecimalRoundTrip(m);
    DecimalRoundTrip(n);
  }

  // ---- Padding with zeros ----

  function Zeros(n: nat): (r: string)
    ensures |r| == n && IsDigits(r)
  {
    seq(n, _ => '0')
  }

  /** `f"{n:04d}"`. */
  function Padded(n: nat): string {
    var d := Decimal(n);
    if |d| < 4 then Zeros(4 - |d|) + d else d
  }

  lemma {:induction false} ZerosCountNothing(k: nat, s: string)
    requires IsDigits(s)
    ensures IsDigits(Zeros(k) + s) && ValueOf(Zeros(k) + s) == ValueOf(s)
    decreases |s|, k
  {
    var t := Zeros(k) + s;
    if s != [] {
      assert t[..|t| - 1] == Zeros(k) + s[..|s| - 1];
      ZerosCountNothing(k, s[..|s| - 1]);
    } else if k > 0 {
      assert t[..|t| - 1] == Zeros(k - 1) + s;
      ZerosCountNothing(k - 1, s);
    } else {
      assert t == s;
    }
  }

  lemma PaddedRoundTrip(n: nat)
    ensures Padded(n) != [] && IsDigits(Padded(n)) && ValueOf(Padded(n)) == n
    ensures |Padded(n)| == 4 || (|Padded(n)| > 4 && Padded(n)[0] != '0')
  {
    DecimalRoundTrip(n);
    DecimalDigits(n);
    if |Decimal(n)| < 4 { ZerosCountNothing(4 - |Decimal(n)|, Decimal(n)); }
  }
}
