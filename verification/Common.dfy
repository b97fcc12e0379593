/** Small vocabulary shared by the other modules: results, sums over sequences, sorting of
    finite sets, and decimal text. */
module Common {

  datatype Option<+T> = None | Some(value: T)

  datatype Result<+T, +E> = Ok(value: T) | Err(error: E)

  // ---------- sums over a sequence ----------

  ghost function Sum<T>(s: seq<T>, f: T -> int): int {
    if s == [] then 0 else f(s[0]) + Sum(s[1..], f)
  }

  lemma {:induction false} SumUpdate<T>(s: seq<T>, i: int, x: T, f: T -> int)
    requires 0 <= i < |s|
    ensures Sum(s[i := x], f) == Sum(s, f) - f(s[i]) + f(x)
  {
    if i == 0 {
      assert s[i := x][1..] == s[1..];
    } else {
      assert s[i := x][1..] == s[1..][i - 1 := x];
      SumUpdate(s[1..], i - 1, x, f);
    }
  }

  lemma {:induction false} SumAppend<T>(s: seq<T>, x: T, f: T -> int)
    ensures Sum(s + [x], f) == Sum(s, f) + f(x)
  {
    if s == [] {
    } else {
      assert (s + [x])[1..] == s[1..] + [x];
      SumAppend(s[1..], x, f);
    }
  }

  lemma {:induction false} SumNonNegative<T>(s: seq<T>, f: T -> int)
    requires forall x :: f(x) >= 0
    ensures Sum(s, f) >= 0
  {
    if s == [] {
    } else {
      SumNonNegative(s[1..], f);
    }
  }

  // ---------- selecting from a sequence ----------

  function Filter<T>(s: seq<T>, p: T -> bool): seq<T> {
    if s == [] then []
    else Filter(s[..|s| - 1], p) + if p(s[|s| - 1]) then [s[|s| - 1]] else []
  }

  lemma {:induction false} FilterAppend<T>(a: seq<T>, b: seq<T>, p: T -> bool)
    ensures Filter(a + b, p) == Filter(a, p) + Filter(b, p)
    decreases |b|
  {
    if b == [] {
      assert a + b == a;
    } else {
      assert (a + b)[..|a + b| - 1] == a + b[..|b| - 1];
      FilterAppend(a, b[..|b| - 1], p);
    }
  }

  lemma {:induction false} FilterMembers<T>(s: seq<T>, p: T -> bool)
    ensures forall x :: x in Filter(s, p) <==> x in s && p(x)
  {
    if s == [] {
    } else {
      FilterMembers(s[..|s| - 1], p);
      assert s == s[..|s| - 1] + [s[|s| - 1]];
    }
  }

  lemma {:induction false} FilterNone<T>(s: seq<T>, p: T -> bool)
    requires forall i :: 0 <= i < |s| ==> !p(s[i])
    ensures Filter(s, p) == []
  {
    if s == [] {
    } else {
      FilterNone(s[..|s| - 1], p);
    }
  }

  lemma {:induction false} FilterOne<T>(s: seq<T>, p: T -> bool, i: nat)
    requires i < |s| && forall j :: 0 <= j < |s| ==> (p(s[j]) <==> j == i)
    ensures Filter(s, p) == [s[i]]
  {
    if i == |s| - 1 {
      FilterNone(s[..i], p);
    } else {
      FilterOne(s[..|s| - 1], p, i);
    }
  }

  /** Filtering keeps whatever holds between every element and all later ones. */
  lemma {:induction false} FilterPairwise<T(!new)>(s: seq<T>, p: T -> bool, r: (T, T) -> bool)
    requires forall i, j :: 0 <= i < j < |s| ==> r(s[i], s[j])
    ensures forall i, j :: 0 <= i < j < |Filter(s, p)| ==> r(Filter(s, p)[i], Filter(s, p)[j])
  {
    if s == [] {
    } else {
      var front, last := s[..|s| - 1], s[|s| - 1];
      FilterPairwise(front, p, r);
      FilterMembers(front, p);
      forall x | x in Filter(front, p) ensures r(x, last) {
        var i :| 0 <= i < |front| && front[i] == x;
        assert r(s[i], s[|s| - 1]);
      }
      assert forall i :: 0 <= i < |Filter(front, p)| ==> Filter(front, p)[i] in Filter(front, p);
    }
  }

  lemma FilterPair<T>(a: T, b: T, p: T -> bool)
    ensures Filter([a, b], p) == (if p(a) then [a] else []) + (if p(b) then [b] else [])
  {
    assert [a, b][..1] == [a] && [a][..0] == [];
    assert Filter([a], p) == Filter([], p) + if p(a) then [a] else [];
  }

  lemma TwoMembers<T>(s: seq<T>, a: T, b: T)
    requires a in s && b in s && a != b
    ensures |s| > 1
  {
  }

  // ---------- sorting a finite set ----------

  ghost predicate TotalOrder<T(!new)>(leq: (T, T) -> bool) {
    && (forall a, b :: leq(a, b) || leq(b, a))
    && (forall a, b :: leq(a, b) && leq(b, a) ==> a == b)
    && (forall a, b, c :: leq(a, b) && leq(b, c) ==> leq(a, c))
  }

  ghost predicate IsLeast<T>(m: T, s: set<T>, leq: (T, T) -> bool) {
    m in s && forall x :: x in s ==> leq(m, x)
  }

  lemma {:induction false} LeastExists<T(!new)>(s: set<T>, leq: (T, T) -> bool)
    requires TotalOrder(leq) && s != {}
    ensures exists m :: IsLeast(m, s, leq)
    decreases |s|
  {
    var x :| x in s;
    if s == {x} {
      assert IsLeast(x, s, leq);
    } else {
      var rest := s - {x};
      assert s == rest + {x};
      LeastExists(rest, leq);
      var m :| IsLeast(m, rest, leq);
      assert IsLeast(if leq(x, m) then x else m, s, leq);
    }
  }

  /** The elements of s in increasing order, each once. */
  ghost function Sorted<T(!new)>(s: set<T>, leq: (T, T) -> bool): (r: seq<T>)
    requires TotalOrder(leq)
    ensures forall x :: x in r <==> x in s
    ensures forall i, j :: 0 <= i < j < |r| ==> leq(r[i], r[j]) && r[i] != r[j]
    decreases |s|
  {
    if s == {} then [] else
      LeastExists(s, leq);
      var m :| IsLeast(m, s, leq);
      [m] + Sorted(s - {m}, leq)
  }

  lemma SortedHead<T(!new)>(s: set<T>, m: T, leq: (T, T) -> bool)
    requires TotalOrder(leq) && IsLeast(m, s, leq)
    ensures Sorted(s, leq) == [m] + Sorted(s - {m}, leq)
  {
    LeastExists(s, leq);
    var h := Sorted(s, leq)[0];
    assert h in Sorted(s, leq);
    assert IsLeast(h, s, leq);
    assert leq(h, m) && leq(m, h);
  }

  /** Lexicographic order by code point, Python's order on str. */
  predicate LexLeq(a: string, b: string) {
    if a == "" then true
    else if b == "" then false
    else if a[0] != b[0] then a[0] < b[0]
    else LexLeq(a[1..], b[1..])
  }

  lemma {:induction false} LexTotal(a: string, b: string)
    ensures LexLeq(a, b) || LexLeq(b, a)
    ensures LexLeq(a, b) && LexLeq(b, a) ==> a == b
    decreases |a|
  {
    if a == "" || b == "" {
    } else {
      assert a == [a[0]] + a[1..] && b == [b[0]] + b[1..];
      LexTotal(a[1..], b[1..]);
    }
  }

  /** a comes first if b continues it, or if it has the smaller character where they first differ. */
  lemma {:induction false} LexOrderIs(a: string, b: string)
    ensures LexLeq(a, b) <==>
            a <= b || exists i :: 0 <= i < |a| && i < |b| && a[..i] == b[..i] && a[i] < b[i]
    decreases |a|
  {
    if a == "" || b == "" || a[0] != b[0] {
      if a != "" && b != "" {
        HeadsOfPrefix(a, b);
        assert a[..0] == b[..0];
        forall i | 0 < i < |a| && i < |b| ensures a[..i] != b[..i] { assert a[..i][0] == a[0] && b[..i][0] == b[0]; }
      }
    } else {
      LexOrderIs(a[1..], b[1..]);
      LexTail(a, b);
    }
  }

  lemma HeadsOfPrefix(a: string, b: string)
    requires a != "" && b != ""
    ensures a[0] != b[0] ==> !(a <= b)
  {
  }

  lemma LexTail(a: string, b: string)
    requires a != "" && b != "" && a[0] == b[0]
    ensures a <= b <==> a[1..] <= b[1..]
    ensures (exists i :: 0 <= i < |a| && i < |b| && a[..i] == b[..i] && a[i] < b[i]) <==>
            exists i :: 0 <= i < |a[1..]| && i < |b[1..]| && a[1..][..i] == b[1..][..i] && a[1..][i] < b[1..][i]
  {
    assert a == [a[0]] + a[1..] && b == [b[0]] + b[1..];
    forall i | 0 < i < |a| && i < |b| ensures a[..i] == b[..i] <==> a[1..][..i - 1] == b[1..][..i - 1] {
      assert a[..i] == [a[0]] + a[1..][..i - 1] && b[..i] == [b[0]] + b[1..][..i - 1];
      assert a[1..][..i - 1] == a[..i][1..] && b[1..][..i - 1] == b[..i][1..];
    }
    if i :| 0 <= i < |a| && i < |b| && a[..i] == b[..i] && a[i] < b[i] {
      assert i > 0 && a[1..][..i - 1] == b[1..][..i - 1] && a[1..][i - 1] < b[1..][i - 1];
    }
    if i :| 0 <= i < |a[1..]| && i < |b[1..]| && a[1..][..i] == b[1..][..i] && a[1..][i] < b[1..][i] {
      assert a[..i + 1] == b[..i + 1] && a[i + 1] < b[i + 1];
    }
  }

  lemma {:induction false} LexTransitive(a: string, b: string, c: string)
    ensures LexLeq(a, b) && LexLeq(b, c) ==> LexLeq(a, c)
    decreases |a|
  {
    if a == "" || b == "" || c == "" {
    } else {
      LexTransitive(a[1..], b[1..], c[1..]);
    }
  }

  lemma LexIsTotalOrder()
    ensures TotalOrder(LexLeq)
  {
    forall a, b ensures LexLeq(a, b) || LexLeq(b, a) { LexTotal(a, b); }
    forall a, b ensures LexLeq(a, b) && LexLeq(b, a) ==> a == b { LexTotal(a, b); }
    forall a, b, c ensures LexLeq(a, b) && LexLeq(b, c) ==> LexLeq(a, c) { LexTransitive(a, b, c); }
  }

  // ---------- text and time ----------

  const SECONDS_PER_DAY := 86400

  /** ASCII white space, as str.strip() and str.split() see it. */
  predicate IsSpace(c: char) { c == ' ' || '\t' <= c <= '\r' || '\U{1c}' <= c <= '\U{1f}' }

  /** White space is the space, tab to carriage return, and the four separators 1C to 1F. */
  lemma SpaceIs(c: char)
    ensures IsSpace(c) <==> c as int in {9, 10, 11, 12, 13, 28, 29, 30, 31, 32}
  {
  }

  ghost predicate Spaces(s: string) { forall i :: 0 <= i < |s| ==> IsSpace(s[i]) }

  /** text is core with white space around it, and core has none at its ends. */
  ghost predicate Padded(text: string, core: string) {
    && core != "" && !IsSpace(core[0]) && !IsSpace(core[|core| - 1])
    && exists before, after :: Spaces(before) && Spaces(after) && text == before + core + after
  }

  /** Where c first occurs in s, or |s|. */
  function Find(s: string, c: char): (n: nat)
    ensures n <= |s| && (forall i :: 0 <= i < n ==> s[i] != c) && (n < |s| ==> s[n] == c)
  {
    if s == "" || s[0] == c then 0 else 1 + Find(s[1..], c)
  }

  lemma FindIs(s: string, c: char, n: nat)
    requires n <= |s| && (forall i :: 0 <= i < n ==> s[i] != c) && (n < |s| ==> s[n] == c)
    ensures Find(s, c) == n
  {
  }

  // ---------- decimal text ----------

  predicate IsDigit(c: char) { '0' <= c <= '9' }

  function Digit(d: int): (c: char)
    requires 0 <= d < 10
    ensures IsDigit(c) && DigitValue(c) == d
  {
    '0' + d as char
  }

  function DigitValue(c: char): (d: int)
    requires IsDigit(c)
    ensures 0 <= d < 10
  {
    c as int - '0' as int
  }

  /** str(n) for a natural number. */
  function Dec(n: nat): (s: string)
    ensures s != "" && forall i :: 0 <= i < |s| ==> IsDigit(s[i])
  {
    if n < 10 then [Digit(n)] else Dec(n / 10) + [Digit(n % 10)]
  }

  /** The number a string of digits denotes. */
  function DecValue(s: string): nat
    requires forall i :: 0 <= i < |s| ==> IsDigit(s[i])
  {
    if s == "" then 0 else 10 * DecValue(s[..|s| - 1]) + DigitValue(s[|s| - 1])
  }

  lemma {:induction false} DecRoundTrip(n: nat)
    ensures DecValue(Dec(n)) == n
  {
    if n < 10 {
      assert [Digit(n)][..0] == "";
    } else {
      DecRoundTrip(n / 10);
      assert Dec(n)[..|Dec(n)| - 1] == Dec(n / 10);
    }
  }

  lemma DecInjective(m: nat, n: nat)
    requires Dec(m) == Dec(n)
    ensures m == n
  {
    DecRoundTrip(m);
    DecRoundTrip(n);
  }

  function Pow10(d: nat): nat { if d == 0 then 1 else 10 * Pow10(d - 1) }

  lemma EighteenDigits()
    ensures Pow10(18) == 1_000_000_000_000_000_000
  {
    assert Pow10(3) == 1_000;
    assert Pow10(6) == 1_000 * Pow10(3);
    assert Pow10(9) == 1_000 * Pow10(6);
    assert Pow10(12) == 1_000 * Pow10(9);
    assert Pow10(15) == 1_000 * Pow10(12);
    assert Pow10(18) == 1_000 * Pow10(15);
  }

  lemma {:induction false} DecLength(n: nat, d: nat)
    requires 1 <= d && n < Pow10(d)
    ensures |Dec(n)| <= d
  {
    if n < 10 {
    } else {
      DecLength(n / 10, d - 1);
    }
  }
}
