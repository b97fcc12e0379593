/** The token-count printer (apps/frontend/templatetags/frontend.py:9-29), for integer counts. */
module TokenNumber {
  import opened Common

  const MILLION := 1_000_000
  const BILLION := 1_000_000_000
  const TRILLION := 1_000_000_000_000

  function Abs(n: int): nat { if n < 0 then -n else n }

  /** n / d rounded to the nearest integer, ties to the even one, for n >= 0. */
  function HalfEven(n: nat, d: int): nat
    requires d > 0
  {
    var q, r := n / d, n % d;
    if 2 * r < d || (2 * r == d && q % 2 == 0) then q else q + 1
  }

  /** The unit a count is shown in. */
  function UnitOf(n: int): int {
    if Abs(n) >= TRILLION then TRILLION else if Abs(n) >= BILLION then BILLION
    else if Abs(n) >= MILLION then MILLION else 1
  }

  function Sign(n: int): string { if n < 0 then "-" else "" }

  /** f'{value:.1f}' stripped of '0's and then of '.', with a decimal comma; value is tenths / 10. */
  function DecimalText(negative: bool, tenths: nat): string {
    (if negative then "-" else "") + Dec(tenths / 10) + if tenths % 10 == 0 then "" else "," + [Digit(tenths % 10)]
  }

  /** f'{n:,}' with '.' between groups of three, for n >= 0. */
  function Grouped(n: nat): string {
    if n < 1000 then Dec(n) else Grouped(n / 1000) + "." + Padded(n % 1000)
  }

  function Padded(n: nat): string
    requires n < 1000
  {
    [Digit(n / 100), Digit(n / 10 % 10), Digit(n % 10)]
  }

  function UnitName(unit: int): string {
    if unit == TRILLION then " Trillion" else if unit == BILLION then " Billion"
    else if unit == MILLION then " Million" else ""
  }

  /** token_number */
  function TokenText(value: Option<int>): string {
    match value
    case None => "Unavailable"
    case Some(n) =>
      var unit := UnitOf(n);
      if unit == 1 then Sign(n) + Grouped(Abs(n))
      else DecimalText(n < 0, HalfEven(Abs(n), unit / 10)) + UnitName(unit)
  }

  predicate IsUnit(u: int) { u == 1 || u == 1000000 || u == 1000000000 || u == 1000000000000 }

  /** The unit of a count is the largest of one, a million, a billion and a trillion that it reaches. */
  lemma UnitIs(n: int)
    ensures var size := if n < 0 then -n else n;
            && IsUnit(UnitOf(n))
            && (UnitOf(n) == 1 || UnitOf(n) <= size)
            && forall u :: IsUnit(u) && u <= size ==> u <= UnitOf(n)
  {
  }

  /** What is printed from a million on: the nearest tenth of the unit, with a decimal comma only if there is
      a tenth to show, and the unit's name. */
  lemma LargeTextSays(n: int)
    requires n <= -1000000 || 1000000 <= n
    ensures exists tenths: nat ::
              && IsNearest(if n < 0 then -n else n, UnitOf(n) / 10, tenths)
              && TokenText(Some(n)) ==
                 (if n < 0 then "-" else "") + Dec(tenths / 10) + (if tenths % 10 == 0 then "" else "," + Dec(tenths % 10))
                 + (if UnitOf(n) == 1000000 then " Million" else if UnitOf(n) == 1000000000 then " Billion" else " Trillion")
  {
    var tenths := HalfEven(Abs(n), UnitOf(n) / 10);
    HalfEvenIsNearest(Abs(n), UnitOf(n) / 10, tenths);
    assert Dec(tenths % 10) == [Digit(tenths % 10)];
  }

  /** A smaller count is printed with a sign and grouped digits, an unknown one as such. */
  lemma SmallTextSays(n: int)
    requires -1000000 < n < 1000000
    ensures TokenText(Some(n)) == if n < 0 then "-" + Grouped(-n) else Grouped(n)
    ensures TokenText(None) == "Unavailable"
  {
    assert "" + Grouped(Abs(n)) == Grouped(Abs(n));
  }

  // ---------- reading the text back ----------

  /** The digits of s, group separators dropped. */
  function DigitsOf(s: string): string {
    if s == "" then "" else DigitsOf(s[..|s| - 1]) + if IsDigit(s[|s| - 1]) then [s[|s| - 1]] else ""
  }

  lemma {:induction false} DigitsOfAreDigits(s: string)
    ensures forall i :: 0 <= i < |DigitsOf(s)| ==> IsDigit(DigitsOf(s)[i])
  {
    if s == "" {
    } else {
      DigitsOfAreDigits(s[..|s| - 1]);
    }
  }

  function ReadDigits(s: string): nat {
    DigitsOfAreDigits(s);
    DecValue(DigitsOf(s))
  }

  function UnitNamed(word: string): int {
    if word == " Trillion" then TRILLION else if word == " Billion" then BILLION
    else if word == " Million" then MILLION else 1
  }

  /** A reader of such numbers: '-' negates, '.' groups, ',' precedes tenths, a unit name scales. */
  function Read(s: string): int {
    if s != "" && s[0] == '-' then -ReadUnsigned(s[1..]) else ReadUnsigned(s)
  }

  function ReadUnsigned(s: string): int {
    ReadNumber(s[..Find(s, ' ')], UnitNamed(s[Find(s, ' ')..]))
  }

  function ReadNumber(s: string, unit: int): int { ReadParts(s[..Find(s, ',')], s[Find(s, ',')..], unit) }

  function ReadParts(whole: string, fraction: string, unit: int): int {
    if fraction == "" then ReadDigits(whole) * unit
    else (10 * ReadDigits(whole) + ReadDigits(fraction)) * (unit / 10)
  }

  /** The number a count is shown as. */
  function Shown(n: int): int {
    var unit := UnitOf(n);
    var size := if unit == 1 then Abs(n) else HalfEven(Abs(n), unit / 10) * (unit / 10);
    if n < 0 then -size else size
  }

  // ---------- printing then reading ----------

  lemma {:induction false} DigitsOfDigits(s: string)
    requires forall i :: 0 <= i < |s| ==> IsDigit(s[i])
    ensures DigitsOf(s) == s
  {
    if s == "" {
    } else {
      DigitsOfDigits(s[..|s| - 1]);
    }
  }

  lemma {:induction false} DigitsOfAppend(a: string, b: string)
    ensures DigitsOf(a + b) == DigitsOf(a) + DigitsOf(b)
    decreases |b|
  {
    if b == "" {
      assert a + b == a;
    } else {
      assert (a + b)[..|a + b| - 1] == a + b[..|b| - 1];
      DigitsOfAppend(a, b[..|b| - 1]);
    }
  }

  lemma ReadDec(n: nat)
    ensures ReadDigits(Dec(n)) == n
  {
    DigitsOfDigits(Dec(n));
    DecRoundTrip(n);
  }

  lemma DigitsOfThree(n: nat)
    ensures n / 10 / 10 == n / 100 && n / 100 / 10 == n / 1000
    ensures n % 1000 / 100 == n / 100 % 10 && n % 1000 / 10 % 10 == n / 10 % 10 && n % 1000 % 10 == n % 10
  {
  }

  lemma ThreeDigits(n: nat)
    requires n >= 1000
    ensures Dec(n) == Dec(n / 1000) + Padded(n % 1000)
  {
    DigitsOfThree(n);
    var a, b, c := Digit(n / 100 % 10), Digit(n / 10 % 10), Digit(n % 10);
    assert Dec(n) == Dec(n / 10) + [c] && Dec(n / 10) == Dec(n / 100) + [b] && Dec(n / 100) == Dec(n / 1000) + [a];
    assert Padded(n % 1000) == [a, b, c];
  }

  lemma DigitsOfGroup(front: string, n: nat)
    requires n < 1000
    ensures DigitsOf(front + "." + Padded(n)) == DigitsOf(front) + Padded(n)
  {
    DigitsOfAppend(front + ".", Padded(n));
    DigitsOfAppend(front, ".");
    assert "."[..0] == "" && DigitsOf(".") == "";
    DigitsOfDigits(Padded(n));
  }

  /** Grouping inserts separators and nothing else. */
  lemma {:induction false} GroupedDigits(n: nat)
    ensures DigitsOf(Grouped(n)) == Dec(n)
    ensures Grouped(n) != "" && forall i :: 0 <= i < |Grouped(n)| ==> IsDigit(Grouped(n)[i]) || Grouped(n)[i] == '.'
  {
    if n < 1000 {
      DigitsOfDigits(Dec(n));
    } else {
      GroupedDigits(n / 1000);
      DigitsOfGroup(Grouped(n / 1000), n % 1000);
      ThreeDigits(n);
    }
  }

  /** The character of s that is the k-th from the right, counting from zero. */
  function FromRight(s: string, k: nat): char
    requires k < |s|
  {
    s[|s| - 1 - k]
  }

  lemma FromRightOfAppend(a: string, b: string, k: nat)
    requires k < |a| + |b|
    ensures FromRight(a + b, k) == if k < |b| then FromRight(b, k) else FromRight(a, k - |b|)
  {
  }

  lemma {:induction false} GroupedNotEmpty(n: nat)
    ensures Grouped(n) != "" && Grouped(n)[0] != '.'
  {
    if n < 1000 {
    } else {
      GroupedNotEmpty(n / 1000);
    }
  }

  lemma TailOfGroup(n: nat, k: nat)
    requires n < 1000 && k < 4
    ensures FromRight("." + Padded(n), k) == '.' <==> k == 3
  {
  }

  lemma SmallGroup(n: nat, k: nat)
    requires n < 1000 && k < |Dec(n)|
    ensures FromRight(Dec(n), k) != '.' && k % 4 != 3
  {
    assert Pow10(3) == 1000;
    DecLength(n, 3);
    assert IsDigit(FromRight(Dec(n), k));
  }

  lemma GroupStep(n: nat, k: nat)
    requires n >= 1000 && k < |Grouped(n)|
    ensures k < 4 ==> (FromRight(Grouped(n), k) == '.' <==> k % 4 == 3)
    ensures k >= 4 ==> k - 4 < |Grouped(n / 1000)| && (k - 4) % 4 == k % 4
    ensures k >= 4 ==> FromRight(Grouped(n), k) == FromRight(Grouped(n / 1000), k - 4)
  {
    var front, tail := Grouped(n / 1000), "." + Padded(n % 1000);
    assert Grouped(n) == front + tail;
    FromRightOfAppend(front, tail, k);
    if k < 4 { TailOfGroup(n % 1000, k); }
  }

  /** Counted from the right, every fourth character is a separator and no other is, and none stands first. */
  lemma {:induction false} GroupsOfThree(n: nat, k: nat)
    requires k < |Grouped(n)|
    ensures FromRight(Grouped(n), k) == '.' <==> k % 4 == 3
    ensures Grouped(n)[0] != '.'
    decreases n
  {
    GroupedNotEmpty(n);
    if n < 1000 {
      SmallGroup(n, k);
    } else {
      GroupStep(n, k);
      if k >= 4 { GroupsOfThree(n / 1000, k - 4); }
    }
  }

  ghost predicate NumberText(whole: string, fraction: string) {
    && whole != "" && (forall i :: 0 <= i < |whole| ==> IsDigit(whole[i]) || whole[i] == '.')
    && (fraction == "" || (|fraction| == 2 && fraction[0] == ',' && IsDigit(fraction[1])))
  }

  lemma ReadComposed(negative: bool, whole: string, fraction: string, unit: int)
    requires NumberText(whole, fraction) && unit in {1, MILLION, BILLION, TRILLION}
    ensures var size := ReadParts(whole, fraction, unit);
            Read((if negative then "-" else "") + (whole + fraction + UnitName(unit))) == if negative then -size else size
  {
    ReadBody(whole, fraction, unit);
    ReadSigned(negative, whole + fraction + UnitName(unit));
  }

  lemma ReadSigned(negative: bool, body: string)
    requires body != "" && body[0] != '-'
    ensures Read((if negative then "-" else "") + body) == if negative then -ReadUnsigned(body) else ReadUnsigned(body)
  {
    if negative { assert ("-" + body)[1..] == body; } else { assert "" + body == body; }
  }

  lemma ReadBody(whole: string, fraction: string, unit: int)
    requires NumberText(whole, fraction) && unit in {1, MILLION, BILLION, TRILLION}
    ensures ReadUnsigned(whole + fraction + UnitName(unit)) == ReadParts(whole, fraction, unit)
  {
    var number, name := whole + fraction, UnitName(unit);
    NameOfUnit(unit);
    FindIs(number + name, ' ', |number|);
    assert (number + name)[..|number|] == number && (number + name)[|number|..] == name;
    FindIs(number, ',', |whole|);
    assert number[..|whole|] == whole && number[|whole|..] == fraction;
  }

  lemma NameOfUnit(unit: int)
    requires unit in {1, MILLION, BILLION, TRILLION}
    ensures UnitNamed(UnitName(unit)) == unit && (UnitName(unit) == "" || UnitName(unit)[0] == ' ')
  {
  }

  lemma ReadFraction(d: int)
    requires 0 <= d < 10
    ensures ReadDigits("," + [Digit(d)]) == d
  {
    var s := "," + [Digit(d)];
    assert s[..1] == "," && ","[..0] == "";
    assert DigitsOf(",") == DigitsOf("") + "";
    assert DigitsOf(s) == DigitsOf(",") + [Digit(d)] == [Digit(d)];
    assert [Digit(d)][..0] == "";
    assert DecValue([Digit(d)]) == 10 * DecValue("") + d;
  }

  lemma ReadDecimal(negative: bool, tenths: nat, unit: int)
    requires unit in {MILLION, BILLION, TRILLION}
    ensures var size := tenths * (unit / 10);
            Read(DecimalText(negative, tenths) + UnitName(unit)) == if negative then -size else size
  {
    var fraction := Fraction(tenths);
    ReadComposed(negative, Dec(tenths / 10), fraction, unit);
    TenthsOf(tenths, unit);
    Associate(if negative then "-" else "", Dec(tenths / 10) + fraction, UnitName(unit));
    Associate(if negative then "-" else "", Dec(tenths / 10), fraction);
  }

  function Fraction(tenths: nat): string { if tenths % 10 == 0 then "" else "," + [Digit(tenths % 10)] }

  lemma Associate(a: string, b: string, c: string)
    ensures a + b + c == a + (b + c)
  {
  }

  lemma TenthsOf(tenths: nat, unit: int)
    requires unit in {MILLION, BILLION, TRILLION}
    ensures ReadParts(Dec(tenths / 10), Fraction(tenths), unit) == tenths * (unit / 10)
  {
    ReadDec(tenths / 10);
    if tenths % 10 == 0 {
      Scale(tenths / 10, unit / 10);
      assert Fraction(tenths) == "";
    } else {
      ReadFraction(tenths % 10);
      assert Fraction(tenths) == "," + [Digit(tenths % 10)];
    }
  }

  lemma Scale(q: int, u: int)
    ensures q * (10 * u) == 10 * q * u
  {
  }

  lemma ReadWhole(negative: bool, whole: string)
    requires NumberText(whole, "")
    ensures var size: int := ReadDigits(whole);
            Read((if negative then "-" else "") + whole) == if negative then -size else size
  {
    ReadComposed(negative, whole, "", 1);
    assert whole + "" + UnitName(1) == whole;
  }

  lemma ReadGrouped(n: nat)
    ensures ReadDigits(Grouped(n)) == n
  {
    GroupedDigits(n);
    DecRoundTrip(n);
  }

  lemma ReadPlain(n: int)
    ensures Read(Sign(n) + Grouped(Abs(n))) == n
  {
    GroupedDigits(Abs(n));
    ReadWhole(n < 0, Grouped(Abs(n)));
    ReadGrouped(Abs(n));
  }

  /** Reading a printed count gives the number it is shown as. */
  lemma ReadOfText(n: int)
    ensures Read(TokenText(Some(n))) == Shown(n)
  {
    var unit := UnitOf(n);
    if unit == 1 {
      ReadPlain(n);
    } else {
      ReadDecimal(n < 0, HalfEven(Abs(n), unit / 10), unit);
    }
  }

  // ---------- rounding ----------

  lemma MulMonotone(x: int, y: int, d: int)
    requires x <= y && d >= 0
    ensures x * d <= y * d
  {
  }

  lemma MulCancel(x: int, y: int, d: int)
    requires x * d < y * d && d > 0
    ensures x < y
  {
  }

  /** n lies in the d numbers from n / d * d on. */
  lemma Division(n: nat, d: int)
    requires d > 0
    ensures n == n / d * d + n % d && 0 <= n % d < d
    ensures (n / d + 1) * d == n / d * d + d && (n / d + 2) * d == n / d * d + 2 * d && (n / d - 1) * d == n / d * d - d
  {
  }

  /** q is a nearest integer to n / d, and the even one if there are two. */
  predicate IsNearest(n: nat, d: int, q: int) {
    -d <= 2 * (q * d - n) <= d && (2 * (q * d - n) == d || 2 * (q * d - n) == -d ==> q % 2 == 0)
  }

  /** HalfEven rounds to the nearest integer and ties to even, and no other integer qualifies. */
  lemma HalfEvenIsNearest(n: nat, d: int, q: nat)
    requires d > 0
    ensures HalfEven(n, d) == q <==> IsNearest(n, d, q)
  {
    var k := n / d;
    Division(n, d);
    if q <= k - 1 { MulMonotone(q, k - 1, d); }
    if q >= k + 2 { MulMonotone(k + 2, q, d); }
  }

  lemma HalfEvenMonotone(m: nat, n: nat, d: int)
    requires d > 0 && m <= n
    ensures HalfEven(m, d) <= HalfEven(n, d)
  {
    Division(m, d);
    Division(n, d);
    MulCancel(m / d, n / d + 1, d);
  }

  /** A count below a million is shown exactly; a larger one is off by at most a twentieth of its unit. */
  lemma ShownIsClose(n: int)
    ensures -1000000 < n < 1000000 ==> Shown(n) == n
    ensures n <= -1000000 || 1000000 <= n ==> -UnitOf(n) <= 20 * (Shown(n) - n) <= UnitOf(n)
  {
    if UnitOf(n) != 1 {
      var d := UnitOf(n) / 10;
      HalfEvenIsNearest(Abs(n), d, HalfEven(Abs(n), d));
    }
  }

  function Size(a: nat): int { if UnitOf(a) == 1 then a else HalfEven(a, UnitOf(a) / 10) * (UnitOf(a) / 10) }

  /** A count never shows as more than the next unit, nor as less than its own. */
  lemma SizeWithinUnit(a: nat)
    requires a >= MILLION
    ensures UnitOf(a) <= Size(a)
    ensures UnitOf(a) == MILLION ==> Size(a) <= BILLION
    ensures UnitOf(a) == BILLION ==> Size(a) <= TRILLION
  {
    var u := UnitOf(a);
    var d := u / 10;
    HalfEvenIsNearest(u, d, 10);
    HalfEvenMonotone(u, a, d);
    MulMonotone(10, HalfEven(a, d), d);
    if u != TRILLION {
      HalfEvenIsNearest(1000 * u, d, 10000);
      HalfEvenMonotone(a, 1000 * u, d);
      MulMonotone(HalfEven(a, d), 10000, d);
    }
  }

  lemma SizeMonotone(a: nat, b: nat)
    requires a <= b
    ensures Size(a) <= Size(b)
  {
    if b >= MILLION {
      SizeWithinUnit(b);
      if a >= MILLION {
        SizeWithinUnit(a);
        if UnitOf(a) == UnitOf(b) {
          HalfEvenMonotone(a, b, UnitOf(a) / 10);
          MulMonotone(HalfEven(a, UnitOf(a) / 10), HalfEven(b, UnitOf(a) / 10), UnitOf(a) / 10);
        }
      }
    }
  }

  lemma ShownIsSignedSize(n: int)
    ensures Shown(n) == (if n < 0 then -Size(Abs(n)) else Size(Abs(n)))
  {
  }

  lemma ShownMonotone(m: int, n: int)
    requires m <= n
    ensures Shown(m) <= Shown(n)
  {
    ShownIsSignedSize(m);
    ShownIsSignedSize(n);
    SizeNonNegative(Abs(m));
    SizeNonNegative(Abs(n));
    if m >= 0 {
      SizeMonotone(m, n);
    } else if n < 0 {
      SizeMonotone(-n, -m);
    }
  }

  lemma SizeNonNegative(a: nat)
    ensures Size(a) >= 0
  {
  }

  /** A larger count never shows as a smaller number, across all unit switches and through zero. */
  lemma TextIsMonotone(m: int, n: int)
    requires m <= n
    ensures Read(TokenText(Some(m))) <= Read(TokenText(Some(n)))
  {
    ReadOfText(m);
    ReadOfText(n);
    ShownMonotone(m, n);
  }

  /** Just short of a thousand millions the unit does not change, although the number shown is a thousand of
      it; one count less, it still reads 999,9. */
  lemma RoundsUpInsideItsUnit()
    ensures UnitOf(999_950_000) == MILLION && Shown(999_950_000) == BILLION == Shown(BILLION)
    ensures Shown(999_949_999) == 999_900_000
  {
    HalfEvenIsNearest(999_950_000, 100_000, 10_000);
    HalfEvenIsNearest(999_949_999, 100_000, 9_999);
    HalfEvenIsNearest(BILLION, 100_000_000, 10);
  }
}
