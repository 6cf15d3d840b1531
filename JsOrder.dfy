/**
 * The order that `Array.prototype.sort()` uses when it is given no comparator:
 * every element is converted to its string form and the strings are compared
 * code unit by code unit.  On integers this is a total order (different
 * integers have different decimal strings), so the sorted result of a list is
 * the unique permutation of it that is ordered, whatever algorithm the engine
 * runs.  `JsSort` computes that permutation by insertion.
 */
module JsOrder {

  /** The character of a decimal digit. */
  function DigitChar(d: nat): (c: char)
    requires d < 10
    ensures '0' <= c <= '9'
    ensures c as int - '0' as int == d
  {
    ('0' as int + d) as char
  }

  /** The decimal digits of `n`, most significant first, as `String(n)` writes them. */
  function DecimalDigits(n: nat): (s: string)
    ensures |s| >= 1
    ensures forall k :: 0 <= k < |s| ==> '0' <= s[k] <= '9'
    ensures |s| == 1 <==> n < 10
  {
    if n < 10 then [DigitChar(n)] else DecimalDigits(n / 10) + [DigitChar(n % 10)]
  }

  /**
   * `String(i)` for an integer `i` with |i| < 10^21: a minus sign for
   * negatives, then the digits.  Larger numbers, which JavaScript writes in
   * exponent form, do not occur as option indices.
   */
  function JsString(i: int): (s: string)
    ensures s != []
    ensures s[0] == '-' <==> i < 0
  {
    if i < 0 then "-" + DecimalDigits(-i) else DecimalDigits(i)
  }

  /** Different natural numbers have different decimal strings. */
  lemma {:induction false} DecimalDigitsInjective(a: nat, b: nat)
    requires DecimalDigits(a) == DecimalDigits(b)
    ensures a == b
  {
    var s := DecimalDigits(a);
    if a < 10 {
      assert b < 10;
      assert DigitChar(a) == s[0] == DigitChar(b);
    } else {
      assert b >= 10;
      assert DecimalDigits(a / 10) == s[..|s| - 1] == DecimalDigits(b / 10);
      DecimalDigitsInjective(a / 10, b / 10);
      assert DigitChar(a % 10) == s[|s| - 1] == DigitChar(b % 10);
    }
  }

  /** Different integers have different string forms. */
  lemma JsStringInjective(a: int, b: int)
    requires JsString(a) == JsString(b)
    ensures a == b
  {
    if a < 0 {
      assert b < 0;
      assert DecimalDigits(-a) == JsString(a)[1..] == DecimalDigits(-b);
      DecimalDigitsInjective(-a, -b);
    } else {
      assert b >= 0;
      DecimalDigitsInjective(a, b);
    }
  }

  /** `s <= t` in JavaScript's string comparison: a prefix, or smaller at the first difference. */
  predicate LexLeq(s: string, t: string)
  {
    s == [] || (t != [] && (s[0] < t[0] || (s[0] == t[0] && LexLeq(s[1..], t[1..]))))
  }

  lemma {:induction false} LexTotal(s: string, t: string)
    ensures LexLeq(s, t) || LexLeq(t, s)
  {
    if s != [] && t != [] && s[0] == t[0] {
      LexTotal(s[1..], t[1..]);
    }
  }

  lemma {:induction false} LexAntisymmetric(s: string, t: string)
    requires LexLeq(s, t) && LexLeq(t, s)
    ensures s == t
  {
    if s != [] {
      LexAntisymmetric(s[1..], t[1..]);
      assert s == [s[0]] + s[1..] && t == [t[0]] + t[1..];
    }
  }

  lemma {:induction false} LexTransitive(s: string, t: string, u: string)
    requires LexLeq(s, t) && LexLeq(t, u)
    ensures LexLeq(s, u)
  {
    if s != [] && s[0] == t[0] && t[0] == u[0] {
      LexTransitive(s[1..], t[1..], u[1..]);
    }
  }

  /** The default sort's comparison of two integers. */
  predicate JsLeq(a: int, b: int)
  {
    LexLeq(JsString(a), JsString(b))
  }

  lemma JsLeqTotal(a: int, b: int)
    ensures JsLeq(a, b) || JsLeq(b, a)
  {
    LexTotal(JsString(a), JsString(b));
  }

  lemma JsLeqAntisymmetric(a: int, b: int)
    requires JsLeq(a, b) && JsLeq(b, a)
    ensures a == b
  {
    LexAntisymmetric(JsString(a), JsString(b));
    JsStringInjective(a, b);
  }

  lemma JsLeqTransitive(a: int, b: int, c: int)
    requires JsLeq(a, b) && JsLeq(b, c)
    ensures JsLeq(a, c)
  {
    LexTransitive(JsString(a), JsString(b), JsString(c));
  }

  /** The default sort's comparison is a total order on integers. */
  lemma JsLeqTotalOrder()
    ensures TotalOrder(JsLeq)
  {
    forall a, b ensures JsLeq(a, b) || JsLeq(b, a) {
      JsLeqTotal(a, b);
    }
    forall a, b | JsLeq(a, b) && JsLeq(b, a) ensures a == b {
      JsLeqAntisymmetric(a, b);
    }
    forall a, b, c | JsLeq(a, b) && JsLeq(b, c) ensures JsLeq(a, c) {
      JsLeqTransitive(a, b, c);
    }
  }

  /** `leq` is total, antisymmetric and transitive. */
  ghost predicate TotalOrder(leq: (int, int) -> bool)
  {
    && (forall a, b :: leq(a, b) || leq(b, a))
    && (forall a, b :: leq(a, b) && leq(b, a) ==> a == b)
    && (forall a, b, c :: leq(a, b) && leq(b, c) ==> leq(a, c))
  }

  lemma OrderTotal(leq: (int, int) -> bool, a: int, b: int)
    requires TotalOrder(leq)
    ensures leq(a, b) || leq(b, a)
  {
  }

  lemma OrderTransitive(leq: (int, int) -> bool, a: int, b: int, c: int)
    requires TotalOrder(leq) && leq(a, b) && leq(b, c)
    ensures leq(a, c)
  {
  }

  /** `s` is ordered by `leq`. */
  predicate SortedBy(leq: (int, int) -> bool, s: seq<int>)
  {
    forall i, j :: 0 <= i < j < |s| ==> leq(s[i], s[j])
  }

  /** Inserts `x` into the ordered list `s` before the first element it does not follow. */
  function InsertBy(leq: (int, int) -> bool, x: int, s: seq<int>): seq<int>
  {
    if s == [] then [x]
    else if leq(x, s[0]) then [x] + s
    else [s[0]] + InsertBy(leq, x, s[1..])
  }

  lemma {:induction false} InsertPermutes(leq: (int, int) -> bool, x: int, s: seq<int>)
    ensures multiset(InsertBy(leq, x, s)) == multiset(s) + multiset{x}
  {
    if s != [] && !leq(x, s[0]) {
      InsertPermutes(leq, x, s[1..]);
      assert s == [s[0]] + s[1..];
      assert multiset(s) == multiset{s[0]} + multiset(s[1..]);
    }
  }

  lemma {:induction false} InsertKeepsSorted(leq: (int, int) -> bool, x: int, s: seq<int>)
    requires TotalOrder(leq)
    requires SortedBy(leq, s)
    ensures SortedBy(leq, InsertBy(leq, x, s))
  {
    if s == [] {
    } else if leq(x, s[0]) {
      forall k | 0 < k < |s| ensures leq(x, s[k]) {
        OrderTransitive(leq, x, s[0], s[k]);
      }
    } else {
      var rest := InsertBy(leq, x, s[1..]);
      InsertKeepsSorted(leq, x, s[1..]);
      InsertPermutes(leq, x, s[1..]);
      OrderTotal(leq, x, s[0]);
      forall k | 0 <= k < |rest| ensures leq(s[0], rest[k]) {
        assert rest[k] in multiset(rest);
        if rest[k] != x {
          assert rest[k] in multiset(s[1..]);
          var m :| 0 <= m < |s[1..]| && s[1..][m] == rest[k];
          assert s[m + 1] == rest[k];
        }
      }
    }
  }

  /** Insertion sort by `leq`. */
  function SortBy(leq: (int, int) -> bool, s: seq<int>): seq<int>
  {
    if s == [] then [] else InsertBy(leq, s[0], SortBy(leq, s[1..]))
  }

  lemma {:induction false} SortByPermutes(leq: (int, int) -> bool, s: seq<int>)
    ensures multiset(SortBy(leq, s)) == multiset(s)
  {
    if s != [] {
      SortByPermutes(leq, s[1..]);
      InsertPermutes(leq, s[0], SortBy(leq, s[1..]));
      assert s == [s[0]] + s[1..];
    }
  }

  lemma {:induction false} SortBySorted(leq: (int, int) -> bool, s: seq<int>)
    requires TotalOrder(leq)
    ensures SortedBy(leq, SortBy(leq, s))
  {
    if s != [] {
      SortBySorted(leq, s[1..]);
      InsertKeepsSorted(leq, s[0], SortBy(leq, s[1..]));
    }
  }

  /** The first element of an ordered list is at or below every element of it. */
  lemma HeadIsLeast(leq: (int, int) -> bool, s: seq<int>, x: int)
    requires SortedBy(leq, s) && x in multiset(s)
    ensures s[0] == x || leq(s[0], x)
  {
    var i :| 0 <= i < |s| && s[i] == x;
  }

  /** Two ordered lists with the same elements start with the same element. */
  lemma SameHead(leq: (int, int) -> bool, a: seq<int>, b: seq<int>)
    requires TotalOrder(leq)
    requires SortedBy(leq, a) && SortedBy(leq, b)
    requires multiset(a) == multiset(b) && a != []
    ensures b != [] && a[0] == b[0]
  {
    assert |b| == |multiset(b)| == |multiset(a)| > 0;
    HeadIsLeast(leq, b, a[0]);
    HeadIsLeast(leq, a, b[0]);
  }

  lemma SameTailElements(a: seq<int>, b: seq<int>)
    requires a != [] && b != [] && a[0] == b[0]
    requires multiset(a) == multiset(b)
    ensures multiset(a[1..]) == multiset(b[1..])
  {
    assert a == [a[0]] + a[1..] && b == [b[0]] + b[1..];
    assert multiset(a) == multiset{a[0]} + multiset(a[1..]);
    assert multiset(b) == multiset{b[0]} + multiset(b[1..]);
    assert multiset(a[1..]) == multiset(a) - multiset{a[0]};
    assert multiset(b[1..]) == multiset(b) - multiset{b[0]};
  }

  /** An ordered permutation is unique: two ordered lists with the same elements are equal. */
  lemma {:induction false} SortedUnique(leq: (int, int) -> bool, a: seq<int>, b: seq<int>)
    requires TotalOrder(leq)
    requires SortedBy(leq, a) && SortedBy(leq, b)
    requires multiset(a) == multiset(b)
    ensures a == b
  {
    if a == [] {
      assert |multiset(b)| == 0;
    } else {
      SameHead(leq, a, b);
      SameTailElements(a, b);
      SortedUnique(leq, a[1..], b[1..]);
      assert a == [a[0]] + a[1..] && b == [b[0]] + b[1..];
    }
  }

  /** `s` is in the order the default sort leaves it in. */
  predicate Sorted(s: seq<int>)
  {
    SortedBy(JsLeq, s)
  }

  /**
   * What `a.sort()` leaves in `a` for a list of integers: an ordered
   * permutation of the list.
   */
  function JsSort(s: seq<int>): (r: seq<int>)
    ensures Sorted(r)
    ensures multiset(r) == multiset(s)
  {
    JsLeqTotalOrder();
    SortByPermutes(JsLeq, s);
    SortBySorted(JsLeq, s);
    SortBy(JsLeq, s)
  }

  /** Two ordered lists with the same elements are equal: the result of `sort()` does not depend on the algorithm. */
  lemma JsSortedUnique(a: seq<int>, b: seq<int>)
    requires Sorted(a) && Sorted(b)
    requires multiset(a) == multiset(b)
    ensures a == b
  {
    JsLeqTotalOrder();
    SortedUnique(JsLeq, a, b);
  }

  /** Sorting an ordered list leaves it as it is, so sorting twice is sorting once. */
  lemma SortIdempotent(s: seq<int>)
    ensures JsSort(JsSort(s)) == JsSort(s)
  {
    JsSortedUnique(JsSort(JsSort(s)), JsSort(s));
  }

  /** Two lists sort to the same list exactly when they hold the same elements. */
  lemma SortEqualIffPermutation(a: seq<int>, b: seq<int>)
    ensures JsSort(a) == JsSort(b) <==> multiset(a) == multiset(b)
  {
    if multiset(a) == multiset(b) {
      JsSortedUnique(JsSort(a), JsSort(b));
    }
  }

  /** Sorting keeps membership, so `includes` answers the same before and after. */
  lemma SortKeepsMembers(s: seq<int>, x: int)
    ensures x in JsSort(s) <==> x in s
  {
    assert x in multiset(JsSort(s)) <==> x in multiset(s);
  }
}
