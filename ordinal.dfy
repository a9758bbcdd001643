/** `StringComparer.Ordinal` and the sort that `ArrayList.Sort` performs with it.

    .NET strings are UTF-16, and Ordinal compares code unit by code unit.
    Here a string is a sequence of Unicode scalar values, so each character is
    given the rank its UTF-16 encoding has in code-unit order: characters above
    U+FFFF are encoded from surrogates (0xD800-0xDBFF) and so sort after
    U+D7FF and before U+E000. */
module Ordinal {

  function CodeUnitRank(c: char): int {
    var v := c as int;
    if v < 0xD800 then v
    else if v >= 0x10000 then v - 0x2800
    else v + 0x10_0000
  }

  /** Distinct characters have distinct ranks. */
  lemma RankInjective(a: char, b: char)
    requires CodeUnitRank(a) == CodeUnitRank(b)
    ensures a == b
  {
  }

  /** `StringComparer.Ordinal.Compare(a, b) <= 0`: lexicographic order on
      code units, a proper prefix first. */
  predicate OrdinalLe(a: string, b: string)
    decreases |a|
  {
    || |a| == 0
    || (|b| > 0 && (CodeUnitRank(a[0]) < CodeUnitRank(b[0])
                    || (a[0] == b[0] && OrdinalLe(a[1..], b[1..]))))
  }

  lemma {:induction false} OrdinalTotal(a: string, b: string)
    ensures OrdinalLe(a, b) || OrdinalLe(b, a)
    decreases |a|
  {
    if |a| > 0 && |b| > 0 {
      if a[0] == b[0] {
        OrdinalTotal(a[1..], b[1..]);
      } else if CodeUnitRank(a[0]) == CodeUnitRank(b[0]) {
        RankInjective(a[0], b[0]);
      }
    }
  }

  lemma {:induction false} OrdinalAntisymmetric(a: string, b: string)
    requires OrdinalLe(a, b) && OrdinalLe(b, a)
    ensures a == b
    decreases |a|
  {
    if |a| > 0 {
      OrdinalAntisymmetric(a[1..], b[1..]);
      assert a == [a[0]] + a[1..] && b == [b[0]] + b[1..];
    }
  }

  lemma {:induction false} OrdinalTransitive(a: string, b: string, c: string)
    requires OrdinalLe(a, b) && OrdinalLe(b, c)
    ensures OrdinalLe(a, c)
    decreases |a|
  {
    if |a| > 0 && a[0] == b[0] && b[0] == c[0] {
      OrdinalTransitive(a[1..], b[1..], c[1..]);
    }
  }

  ghost predicate Sorted(s: seq<string>) {
    forall i, j | 0 <= i < j < |s| :: OrdinalLe(s[i], s[j])
  }

  /** Places `x` in front of the first element it does not follow. */
  function Insert(x: string, s: seq<string>): (r: seq<string>)
    requires Sorted(s)
    ensures Sorted(r)
    ensures multiset(r) == multiset(s) + multiset{x}
    decreases |s|
  {
    if s == [] then [x]
    else if OrdinalLe(x, s[0]) then
      assert forall j | 0 < j < |s| :: OrdinalLe(x, s[j]) by {
        forall j | 0 < j < |s| ensures OrdinalLe(x, s[j]) {
          OrdinalTransitive(x, s[0], s[j]);
        }
      }
      [x] + s
    else
      var tail := Insert(x, s[1..]);
      OrdinalTotal(x, s[0]);
      assert s == [s[0]] + s[1..];
      assert forall j | 0 <= j < |tail| :: OrdinalLe(s[0], tail[j]) by {
        forall j | 0 <= j < |tail| ensures OrdinalLe(s[0], tail[j]) {
          assert tail[j] in multiset(tail);
          if tail[j] != x {
            assert tail[j] in multiset(s[1..]);
            var k :| 0 <= k < |s[1..]| && s[1..][k] == tail[j];
            assert s[k + 1] == tail[j];
          }
        }
      }
      [s[0]] + tail
  }

  /** `list.Sort(StringComparer.Ordinal)`: the list rearranged into ordinal order. */
  function SortOrdinal(s: seq<string>): (r: seq<string>)
    ensures Sorted(r)
    ensures multiset(r) == multiset(s)
    decreases |s|
  {
    if s == [] then []
    else
      assert s == [s[0]] + s[1..];
      Insert(s[0], SortOrdinal(s[1..]))
  }

  /** Two sorted arrangements of the same strings start with the same string. */
  lemma SortedHeadsAgree(a: seq<string>, b: seq<string>)
    requires Sorted(a) && Sorted(b) && multiset(a) == multiset(b) && |a| > 0
    ensures |b| > 0 && a[0] == b[0]
  {
    assert a[0] in multiset(b);
    var k :| 0 <= k < |b| && b[k] == a[0];
    assert b[0] in multiset(a);
    var m :| 0 <= m < |a| && a[m] == b[0];
    if k > 0 && m > 0 {
      assert OrdinalLe(a[0], a[m]) && OrdinalLe(b[0], b[k]);
      OrdinalAntisymmetric(a[0], b[0]);
    }
  }

  lemma TailsArrangeAlike(a: seq<string>, b: seq<string>)
    requires |a| > 0 && |b| > 0 && a[0] == b[0] && multiset(a) == multiset(b)
    ensures multiset(a[1..]) == multiset(b[1..])
  {
    assert a == [a[0]] + a[1..];
    assert b == [b[0]] + b[1..];
    calc {
      multiset(a[1..]);
      multiset(a) - multiset{a[0]};
      multiset(b) - multiset{b[0]};
      multiset(b[1..]);
    }
  }

  /** Two sorted sequences with the same elements are equal: the sorted order
      of a collection of strings is unique. */
  lemma {:induction false} SortedUnique(a: seq<string>, b: seq<string>)
    requires Sorted(a) && Sorted(b) && multiset(a) == multiset(b)
    ensures a == b
    decreases |a|
  {
    if |a| > 0 {
      SortedHeadsAgree(a, b);
      TailsArrangeAlike(a, b);
      assert Sorted(a[1..]) && Sorted(b[1..]);
      SortedUnique(a[1..], b[1..]);
      assert a == [a[0]] + a[1..] && b == [b[0]] + b[1..];
    } else {
      assert |b| == |multiset(b)| == 0;
    }
  }

  /** Sorting depends only on which strings are present, with their counts. */
  lemma SortIgnoresOrder(a: seq<string>, b: seq<string>)
    requires multiset(a) == multiset(b)
    ensures SortOrdinal(a) == SortOrdinal(b)
  {
    SortedUnique(SortOrdinal(a), SortOrdinal(b));
  }

  /** `s` lists exactly the strings of `m`. */
  ghost predicate Arranges(s: seq<string>, m: multiset<string>) {
    multiset(s) == m
  }

  lemma {:induction false} MultisetHasSequence(m: multiset<string>)
    ensures exists s :: Arranges(s, m)
    decreases |m|
  {
    if m == multiset{} {
      var empty: seq<string> := [];
      assert Arranges(empty, m);
    } else {
      var x :| x in m;
      MultisetHasSequence(m - multiset{x});
      var s :| Arranges(s, m - multiset{x});
      assert Arranges([x] + s, m);
    }
  }

  /** The strings of `m` in ordinal order. */
  ghost function SortedOf(m: multiset<string>): (r: seq<string>)
    ensures Sorted(r) && multiset(r) == m
  {
    MultisetHasSequence(m);
    var s :| Arranges(s, m);
    SortOrdinal(s)
  }

  /** Sorting a list gives the ordinal arrangement of its multiset. */
  lemma SortIsSortedOf(s: seq<string>)
    ensures SortOrdinal(s) == SortedOf(multiset(s))
  {
    SortedUnique(SortOrdinal(s), SortedOf(multiset(s)));
  }
}
