/**
 The hand-written number printing of add_num_to_string (aset_CCcc/src/SET_additions.c):
 nested comparisons instead of division, and the range in which they print the number.
 */
module Decimal {

  function Digit(d: nat): char
    requires d < 10
  {
    '0' + d as char
  }

  /** The canonical decimal form. */
  function Dec(n: nat): (s: string)
    ensures s != ""
  {
    if n < 10 then [Digit(n)] else Dec(n / 10) + [Digit(n % 10)]
  }

  function DigitValue(c: char): nat {
    if '0' <= c <= '9' then (c - '0') as nat else 0
  }

  function Value(s: string): nat {
    if s == "" then 0 else 10 * Value(s[..|s| - 1]) + DigitValue(s[|s| - 1])
  }

  /** Only digits, no leading zero, and the number can be read back. */
  lemma {:induction false} DecIsCanonical(n: nat)
    ensures forall c :: c in Dec(n) ==> '0' <= c <= '9'
    ensures n > 0 ==> Dec(n)[0] != '0'
    ensures Value(Dec(n)) == n
  {
    if n < 10 {
      assert Dec(n)[..0] == "";
    } else {
      DecIsCanonical(n / 10);
      var s := Dec(n / 10);
      assert (s + [Digit(n % 10)])[..|s|] == s;
    }
  }

  // ---------------------------------------------------------------- division by a unit

  lemma AtLeastOne(a: int, unit: int)
    requires a >= 1 && unit > 0
    ensures a * unit >= unit
  {
  }

  lemma Unique(q: int, m: int, d: int, r: int, unit: int)
    requires 0 <= m < unit && 0 <= r < unit && q * unit + m == d * unit + r
    ensures q == d && m == r
  {
    assert (q - d) * unit == q * unit - d * unit;
    if q > d {
      AtLeastOne(q - d, unit);
    } else if q < d {
      assert (d - q) * unit == d * unit - q * unit;
      AtLeastOne(d - q, unit);
    }
  }

  lemma Divided(n: nat, unit: nat)
    requires unit > 0
    ensures n == n / unit * unit + n % unit && 0 <= n % unit < unit && n / unit >= 0
  {
  }

  lemma QuotientIs(n: nat, unit: nat, d: nat, r: nat)
    requires unit > 0 && n == d * unit + r && r < unit
    ensures n / unit == d && n % unit == r
  {
    Divided(n, unit);
    Unique(n / unit, n % unit, d, r, unit);
  }

  lemma Assemble(q: nat, d: nat, unit: nat)
    ensures (10 * q + d) * unit == q * (10 * unit) + d * unit
  {
  }

  lemma Multiply(a: nat, b: nat, unit: nat)
    requires a <= b
    ensures a * unit <= b * unit
  {
    assert (b - a) * unit >= 0;
    assert b * unit == a * unit + (b - a) * unit;
  }

  /** Splitting off the next decimal place. */
  lemma PlaceBelow(n: nat, unit: nat)
    requires unit > 0
    ensures n / unit / 10 == n / (10 * unit)
    ensures n / unit % 10 == n % (10 * unit) / unit < 10
    ensures n % unit == n % (10 * unit) % unit
  {
    var q, r := n / (10 * unit), n % (10 * unit);
    Divided(n, 10 * unit);
    var d, e := r / unit, r % unit;
    Divided(r, unit);
    if d >= 10 { Multiply(10, d, unit); }
    Assemble(q, d, unit);
    QuotientIs(n, unit, 10 * q + d, e);
  }

  function Above(n: nat, unit: nat): nat
    requires unit > 0
  {
    n / unit
  }

  function Below(n: nat, unit: nat): nat
    requires unit > 0
  {
    n % unit
  }

  function Pow10(k: nat): (p: nat)
    ensures p > 0
  {
    if k == 0 then 1 else 10 * Pow10(k - 1)
  }

  // ---------------------------------------------------------------- the comparison tree

  /** The nine-way comparison at one decimal place. */
  method PrintDigit(num0: nat, unit: nat) returns (num: nat, c: char, ghost d: nat)
    requires unit > 0
    ensures d < 10 && c == Digit(d) && num == num0 - d * unit
    ensures num0 < 10 * unit ==> num < unit
    ensures num0 >= 9 * unit ==> d == 9
  {
    num := num0;
    if num >= 5 * unit {
      if num >= 8 * unit {
        if num >= 9 * unit { num := num - 9 * unit; c := '9'; d := 9; }
        else { num := num - 8 * unit; c := '8'; d := 8; }
      } else if num >= 6 * unit {
        if num >= 7 * unit { num := num - 7 * unit; c := '7'; d := 7; }
        else { num := num - 6 * unit; c := '6'; d := 6; }
      } else { num := num - 5 * unit; c := '5'; d := 5; }
    } else if num >= 2 * unit {
      if num >= 4 * unit { num := num - 4 * unit; c := '4'; d := 4; }
      else if num >= 3 * unit { num := num - 3 * unit; c := '3'; d := 3; }
      else { num := num - 2 * unit; c := '2'; d := 2; }
    } else if num >= unit { num := num - unit; c := '1'; d := 1; }
    else { c := '0'; d := 0; }
  }

  /** The billions: the source tests for four of them at most. */
  method PrintBillions(num0: nat) returns (num: nat, c: char)
    requires num0 >= 1000000000
    ensures num0 < 5000000000 ==> c == Digit(num0 / 1000000000) && num == num0 % 1000000000
    ensures num0 >= 4000000000 ==> c == '4' && num == num0 - 4000000000
  {
    num := num0;
    if num >= 3000000000 {
      if num >= 4000000000 { num := num - 4000000000; c := '4'; }
      else { num := num - 3000000000; c := '3'; }
    } else if num >= 2000000000 { num := num - 2000000000; c := '2'; }
    else { num := num - 1000000000; c := '1'; }
  }

  /** The largest number that the comparisons can tell, and what they make of any number. */
  const LARGEST := 4999999999

  function Printable(num: nat): nat {
    if num <= LARGEST then num else LARGEST
  }

  lemma {:induction false} Nines(k: nat)
    requires k <= 9
    ensures 5000000000 % Pow10(k) == 0 && Below(LARGEST, Pow10(k)) == Pow10(k) - 1
    decreases k
  {
    var q := 5 * Pow10(9 - k);
    PowSum(k);
    assert 5000000000 == q * Pow10(k) + 0;
    QuotientIs(5000000000, Pow10(k), q, 0);
    assert (q - 1) * Pow10(k) == q * Pow10(k) - Pow10(k);
    QuotientIs(LARGEST, Pow10(k), q - 1, Pow10(k) - 1);
  }

  lemma {:induction false} PowSum(k: nat)
    requires k <= 9
    ensures 5 * Pow10(9 - k) * Pow10(k) == 5000000000
  {
    if k == 0 {
      assert Pow10(3) == 1000;
      assert Pow10(6) == 1000000;
    } else {
      PowSum(k - 1);
      assert Pow10(9 - (k - 1)) == 10 * Pow10(9 - k);
      Shift(Pow10(9 - k), Pow10(k - 1));
    }
  }

  lemma Shift(a: nat, b: nat)
    ensures 5 * (10 * a) * b == 5 * a * (10 * b)
  {
  }

  /**
   The places from 10^k up.  The source nests a test for 10^(k+1) inside the one for 10^k and
   prints its digit after the inner one; here each nesting is a recursive call.
   */
  method PrintPlaces(num0: nat, k: nat) returns (num: nat, s: string)
    requires k <= 8
    ensures s == Dec(Above(Printable(num0), Pow10(k)))
    ensures num == num0 - Printable(num0) + Below(Printable(num0), Pow10(k))
    decreases 9 - k
  {
    var unit := Pow10(k);
    ghost var p := Printable(num0);
    PowBelow(k);
    num, s := num0, "";
    if num0 >= 10 * unit {
      if k == 8 {
        var c;
        num, c := PrintBillions(num0);
        s := [c];
        BillionsOf(num0, num, c);
      } else {
        num, s := PrintPlaces(num0, k + 1);
      }
    }
    PlacePrinted(p, unit);
    ghost var before := num;
    var c;
    ghost var d;
    num, c, d := PrintDigit(num, unit);
    DigitOfPlace(num0, k, before, num, d);
    s := s + [c];
  }

  /** What the comparison at a place prints and leaves, once the places above are printed. */
  lemma DigitOfPlace(num0: nat, k: nat, before: int, num: nat, d: nat)
    requires k <= 8 && d < 10
    requires before == num0 - Printable(num0) + Below(Printable(num0), 10 * Pow10(k))
    requires num == before - d * Pow10(k)
    requires before < 10 * Pow10(k) ==> num < Pow10(k)
    requires before >= 9 * Pow10(k) ==> d == 9
    ensures Above(Below(Printable(num0), 10 * Pow10(k)), Pow10(k)) == d
    ensures num == num0 - Printable(num0) + Below(Printable(num0), Pow10(k))
  {
    var p, unit := Printable(num0), Pow10(k);
    var hi := Below(p, 10 * unit);
    Divided(p, 10 * unit);
    PlaceBelow(p, unit);
    if num0 <= LARGEST {
      QuotientIs(hi, unit, d, num);
    } else {
      Nines(k);
      Nines(k + 1);
      QuotientIs(hi, unit, 9, unit - 1);
    }
  }

  lemma BillionsOf(num0: nat, num: nat, c: char)
    requires num0 >= 1000000000
    requires num0 < 5000000000 ==> c == Digit(num0 / 1000000000) && num == num0 % 1000000000
    requires num0 >= 4000000000 ==> c == '4' && num == num0 - 4000000000
    ensures var p := Printable(num0);
      [c] == Dec(p / 1000000000) && num == num0 - p + p % 1000000000
  {
    OneDigit(Printable(num0) / 1000000000);
  }

  lemma OneDigit(n: nat)
    requires n < 10
    ensures Dec(n) == [Digit(n)]
  {
  }

  /** The canonical form of the number down to unit, in terms of the form down to the place above. */
  lemma PlacePrinted(n: nat, unit: nat)
    requires unit > 0
    ensures n % (10 * unit) / unit < 10
    ensures n >= 10 * unit ==> Dec(n / unit) == Dec(n / (10 * unit)) + [Digit(n % (10 * unit) / unit)]
    ensures n < 10 * unit ==> n % (10 * unit) == n && Dec(n / unit) == [Digit(n / unit)]
  {
    PlaceBelow(n, unit);
    if n >= 10 * unit {
      Divided(n, unit);
      var q := n / unit;
      if q < 10 { Multiply(q, 9, unit); }
    } else {
      QuotientIs(n, 10 * unit, 0, n);
    }
  }

  lemma {:induction false} PowBelow(k: nat)
    requires k <= 8
    ensures Pow10(k) <= 100000000
    ensures k == 8 ==> Pow10(k) == 100000000
    decreases 8 - k
  {
    if k == 8 {
      assert Pow10(4) == 10000;
    } else {
      PowBelow(k + 1);
    }
  }

  method PrintDecimal(num: nat) returns (s: string)
    ensures s == Dec(Printable(num))
  {
    var rest;
    rest, s := PrintPlaces(num, 0);
    AllPlaces(Printable(num));
  }

  lemma AllPlaces(n: nat)
    ensures Above(n, Pow10(0)) == n
  {
  }

  /** The number is printed exactly below five billion; every larger one prints as 4999999999. */
  lemma PrintedRightIff(num: nat)
    ensures Dec(Printable(num)) == Dec(num) <==> num < 5000000000
  {
    DecIsCanonical(num);
    DecIsCanonical(Printable(num));
  }
}
