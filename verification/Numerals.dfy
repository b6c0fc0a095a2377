/** Numbers as decimal text. */
module Numerals {
  import opened Common
  import TreeIndex

  predicate IsDigit(c: char) {
    '0' <= c <= '9'
  }

  function Digit(d: nat): char
    requires d < 10
  {
    ('0' as int + d) as char
  }

  /** The decimal text of n, without leading zeros. */
  function Decimal(n: nat): (s: string)
    ensures s != ""
  {
    if n < 10 then [Digit(n)] else Decimal(n / 10) + [Digit(n % 10)]
  }

  /** The text of a number that may be negative. */
  function Signed(n: int): string {
    if n < 0 then "-" + Decimal(-n) else Decimal(n)
  }

  function Zeros(k: nat): (s: string)
    ensures |s| == k
  {
    if k == 0 then "" else Zeros(k - 1) + "0"
  }

  /** What a row of digits is read as. */
  function DigitsValue(s: string): Option<nat> {
    if s == "" then Some(0)
    else if !IsDigit(s[|s| - 1]) then None
    else
      var d: nat := s[|s| - 1] as int - '0' as int;
      match DigitsValue(s[..|s| - 1])
      case None => None
      case Some(n) => Some(10 * n + d)
  }

  /** The decimal text of n, perhaps behind zeros. */
  ghost predicate Spells(s: string, n: nat) {
    exists k: nat :: s == Zeros(k) + Decimal(n)
  }

  lemma {:induction false} ReadZeros(k: nat)
    ensures DigitsValue(Zeros(k)) == Some(0)
  {
    if k == 0 {
    } else {
      ReadZeros(k - 1);
      assert Zeros(k)[..k - 1] == Zeros(k - 1);
    }
  }

  lemma ReadMore(s: string, d: nat)
    requires d < 10
    ensures DigitsValue(s + [Digit(d)]) ==
      match DigitsValue(s) case None => None case Some(n) => Some(10 * n + d)
  {
    assert (s + [Digit(d)])[..|s|] == s;
  }

  /** The decimal text of every number is read as the number, also behind zeros. */
  lemma {:induction false} DecimalRead(k: nat, n: nat)
    ensures DigitsValue(Zeros(k) + Decimal(n)) == Some(n)
  {
    hide DigitsValue;
    if n < 10 {
      ReadZeros(k);
      ReadMore(Zeros(k), n);
    } else {
      DecimalRead(k, n / 10);
      ReadMore(Zeros(k) + Decimal(n / 10), n % 10);
      assert Zeros(k) + Decimal(n) == Zeros(k) + Decimal(n / 10) + [Digit(n % 10)];
    }
  }

  /** Nothing else is read as the number. */
  lemma {:induction false} OnlyDecimal(s: string, n: nat)
    requires s != "" && DigitsValue(s) == Some(n)
    ensures Spells(s, n)
  {
    hide Digit, DigitsValue, Decimal;
    var m, d := LastDigit(s);
    var most := s[..|s| - 1];
    TenTimes(m, d);
    if most == "" {
      assert DigitsValue("") == Some(0) by {
        ReadZeros(0);
      }
      DecimalParts(m, d);
      assert s == Zeros(0) + Decimal(n);
    } else {
      OnlyDecimal(most, m);
      var k: nat :| most == Zeros(k) + Decimal(m);
      DecimalParts(m, d);
      if m == 0 {
        assert s == Zeros(k + 1) + Decimal(n) by {
          DecimalParts(0, 0);
        }
      } else {
        assert s == Zeros(k) + Decimal(n);
      }
    }
  }

  lemma LastDigit(s: string) returns (m: nat, d: nat)
    requires s != "" && DigitsValue(s).Some?
    ensures d < 10 && DigitsValue(s) == Some(10 * m + d) && DigitsValue(s[..|s| - 1]) == Some(m)
    ensures s == s[..|s| - 1] + [Digit(d)]
  {
    m, d := DigitsValue(s[..|s| - 1]).value, s[|s| - 1] as int - '0' as int;
    assert s == s[..|s| - 1] + [s[|s| - 1]];
  }

  lemma DecimalParts(m: nat, d: nat)
    requires d < 10
    ensures Decimal(10 * m + d) == (if m == 0 then "" else Decimal(m)) + [Digit(d)]
    ensures Decimal(0) == "0"
  {
    TenTimes(m, d);
  }

  lemma TenTimes(m: nat, d: nat)
    requires d < 10
    ensures (10 * m + d) / 10 == m && (10 * m + d) % 10 == d
  {
    TreeIndex.DivModUnique(10 * m + d, 10, m, d);
  }

  /** A text is read as a number if and only if it is its decimal text, perhaps behind zeros. */
  lemma ReadsSpelled(s: string, n: nat)
    ensures s != "" && DigitsValue(s) == Some(n) <==> Spells(s, n)
  {
    hide Decimal, DigitsValue;
    if s != "" && DigitsValue(s) == Some(n) {
      OnlyDecimal(s, n);
    }
    if k: nat :| s == Zeros(k) + Decimal(n) {
      DecimalRead(k, n);
    }
  }

  lemma {:induction false} DigitsOnly(s: string)
    requires DigitsValue(s).Some?
    ensures forall c | c in s :: IsDigit(c)
  {
    if s != "" {
      DigitsOnly(s[..|s| - 1]);
      assert s == s[..|s| - 1] + [s[|s| - 1]];
    }
  }
}
