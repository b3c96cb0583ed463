/** Decimal numerals as `to_string` prints them and `str::parse` reads them. */
module Decimal {
  import opened Prelude

  predicate IsDigit(c: char) {
    '0' <= c <= '9'
  }

  predicate IsNumeral(s: string) {
    s != [] && forall i :: 0 <= i < |s| ==> IsDigit(s[i])
  }

  function DigitChar(d: nat): (c: char)
    requires d < 10
    ensures IsDigit(c)
  {
    '0' + d as char
  }

  function DigitValue(c: char): nat
    requires IsDigit(c)
  {
    c as nat - '0' as nat
  }

  function Print(n: nat): (s: string)
    ensures IsNumeral(s)
  {
    if n < 10 then [DigitChar(n)] else Print(n / 10) + [DigitChar(n % 10)]
  }

  function Value(s: string): nat
    requires forall i :: 0 <= i < |s| ==> IsDigit(s[i])
  {
    if s == [] then 0
    else
      assert IsDigit(s[|s| - 1]);
      Value(s[..|s| - 1]) * 10 + DigitValue(s[|s| - 1])
  }

  /** Rust's unsigned `parse`: an optional `+`, at least one digit, and no overflow of the type. */
  function Parse(s: string, limit: nat): Option<nat> {
    var digits := if s != [] && s[0] == '+' then s[1..] else s;
    if IsNumeral(digits) && Value(digits) < limit then Some(Value(digits)) else None
  }

  lemma {:induction false} ValueOfPrint(n: nat)
    ensures Value(Print(n)) == n
  {
    if n < 10 {
    } else {
      ValueOfPrint(n / 10);
      assert Print(n)[..|Print(n)| - 1] == Print(n / 10);
    }
  }

  function Pow10(n: nat): (r: nat)
    ensures r > 0
  {
    if n == 0 then 1 else 10 * Pow10(n - 1)
  }

  lemma {:induction false} DivDiv(n: nat, k: nat)
    ensures n / 10 / Pow10(k) == n / Pow10(k + 1)
  {
    var p, m := Pow10(k), n / 10;
    var q := m / p;
    assert q * p <= m < q * p + p;
    assert 10 * (q * p) == q * (10 * p) && 10 * (q * p + p) == q * (10 * p) + 10 * p;
    assert q * (10 * p) <= n < q * (10 * p) + 10 * p;
    QuotientIs(n, 10 * p, q);
  }

  lemma QuotientIs(n: nat, d: nat, q: nat)
    requires d > 0 && q * d <= n < q * d + d
    ensures n / d == q
  {
    var r := n / d;
    assert r * d <= n < r * d + d;
    if r < q {
      MulMonotone(r + 1, q, d);
    } else if q < r {
      MulMonotone(q + 1, r, d);
    }
  }

  /** Position by position: the digit of the power of ten, the ones last; no leading zero but for zero itself. */
  lemma {:induction false} PrintDigits(n: nat, i: nat)
    requires i < |Print(n)|
    ensures Print(n)[|Print(n)| - 1 - i] as int == 48 + n / Pow10(i) % 10
    ensures n > 0 ==> Print(n)[0] != '0'
  {
    if n < 10 {
      assert Pow10(0) == 1;
    } else {
      PrintDigits(n / 10, if i == 0 then 0 else i - 1);
      if i == 0 {
        assert Pow10(0) == 1;
      } else {
        DivDiv(n, i - 1);
      }
    }
  }

  predicate AllZeros(s: string) {
    forall i :: 0 <= i < |s| ==> s[i] == '0'
  }

  /** A digit behind a padded number makes a padded number. */
  lemma PaddedSnoc(zeros: string, n: nat, d: nat) returns (more: string)
    requires AllZeros(zeros) && d < 10
    ensures AllZeros(more) && zeros + Print(n) + [DigitChar(d)] == more + Print(n * 10 + d)
  {
    if n == 0 {
      more := zeros + "0";
      assert Print(n) == "0" && Print(d) == [DigitChar(d)];
    } else {
      more := zeros;
      PrintSnoc(n, d);
      assert zeros + Print(n) + [DigitChar(d)] == zeros + (Print(n) + [DigitChar(d)]);
    }
  }

  /** Every numeral is zeros before the number it stands for. */
  lemma {:induction false} NumeralIsPadded(s: string) returns (zeros: string)
    requires IsNumeral(s)
    ensures AllZeros(zeros) && s == zeros + Print(Value(s))
  {
    var init, last := s[..|s| - 1], s[|s| - 1];
    assert s == init + [last] && IsDigit(last);
    LastDigit(last);
    if init == [] {
      zeros := "";
    } else {
      var before := NumeralIsPadded(init);
      zeros := PaddedSnoc(before, Value(init), DigitValue(last));
    }
  }

  lemma LastDigit(c: char)
    requires IsDigit(c)
    ensures DigitValue(c) < 10 && DigitChar(DigitValue(c)) == c && Print(DigitValue(c)) == [c]
  {
  }

  lemma PrintSnoc(n: nat, d: nat)
    requires n > 0 && d < 10
    ensures Print(n * 10 + d) == Print(n) + [DigitChar(d)]
  {
    assert (n * 10 + d) / 10 == n && (n * 10 + d) % 10 == d;
  }

  lemma {:induction false} ValueOfPadded(zeros: string, n: nat)
    requires AllZeros(zeros)
    ensures IsNumeral(zeros + Print(n)) && Value(zeros + Print(n)) == n
  {
    var s := zeros + Print(n);
    if n < 10 {
      assert s[..|s| - 1] == zeros;
      ValueOfZeros(zeros);
    } else {
      assert s[..|s| - 1] == zeros + Print(n / 10);
      ValueOfPadded(zeros, n / 10);
    }
  }

  lemma {:induction false} ValueOfZeros(zeros: string)
    requires AllZeros(zeros)
    ensures Value(zeros) == 0
  {
    if zeros == [] {
    } else {
      ValueOfZeros(zeros[..|zeros| - 1]);
    }
  }

  /** A text is read as `n` if and only if it is `n` printed, after any zeros and one optional plus sign. */
  lemma ParseExactly(s: string, limit: nat, n: nat)
    ensures Parse(s, limit) == Some(n)
            <==> && n < limit
                 && exists zeros :: AllZeros(zeros) && (s == zeros + Print(n) || s == "+" + (zeros + Print(n)))
  {
    if Parse(s, limit) == Some(n) {
      var digits := if s != [] && s[0] == '+' then s[1..] else s;
      var zeros := NumeralIsPadded(digits);
      assert s == digits || s == "+" + digits;
    }
    if zeros :| AllZeros(zeros) && (s == zeros + Print(n) || s == "+" + (zeros + Print(n))) {
      ValueOfPadded(zeros, n);
      assert IsDigit((zeros + Print(n))[0]);
      if s != zeros + Print(n) {
        assert s[1..] == zeros + Print(n);
      }
    }
  }

  /** What was printed is read back, for every number the type holds. */
  lemma ParseOfPrint(n: nat, limit: nat)
    requires n < limit
    ensures Parse(Print(n), limit) == Some(n)
  {
    ValueOfPrint(n);
    assert IsDigit(Print(n)[0]);
  }

  lemma PrintInjective(m: nat, n: nat)
    requires Print(m) == Print(n)
    ensures m == n
  {
    ValueOfPrint(m);
    ValueOfPrint(n);
  }
}
