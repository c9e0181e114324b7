/**
 * Orderings and sorting used wherever the source sorts (Python's `sorted`) or asks the
 * store for an ordered query (SQL `ORDER BY`).
 *
 * Strings compare as Python strings do: code point by code point, a proper prefix first.
 * Query results ordered by several columns compare as tuples of nullable strings, where
 * NULL sorts before every string.
 */
module Ordering {
  import opened Wrappers

  /** Python's `a <= b` on strings. */
  predicate StrLe(a: string, b: string)
  {
    a == [] || (b != [] && (a[0] < b[0] || (a[0] == b[0] && StrLe(a[1..], b[1..]))))
  }

  lemma {:induction false} StrLeTotal(a: string, b: string)
    ensures StrLe(a, b) || StrLe(b, a)
  {
    if a != [] && b != [] && a[0] == b[0] {
      StrLeTotal(a[1..], b[1..]);
    }
  }

  lemma {:induction false} StrLeTransitive(a: string, b: string, c: string)
    requires StrLe(a, b) && StrLe(b, c)
    ensures StrLe(a, c)
  {
    if a != [] && b != [] && c != [] && a[0] == b[0] == c[0] {
      StrLeTransitive(a[1..], b[1..], c[1..]);
    }
  }

  lemma {:induction false} StrLeAntisymmetric(a: string, b: string)
    requires StrLe(a, b) && StrLe(b, a)
    ensures a == b
  {
    if a != [] && b != [] {
      StrLeAntisymmetric(a[1..], b[1..]);
      assert a == [a[0]] + a[1..] && b == [b[0]] + b[1..];
    }
  }

  /** One column of an ordered query: NULL first, then strings in Python order. */
  predicate CellLe(a: Option<string>, b: Option<string>)
  {
    a.None? || (b.Some? && StrLe(a.value, b.value))
  }

  /** A row's sort key: the values of the ORDER BY columns, left to right. */
  type Key = seq<Option<string>>

  /** Lexicographic order on keys, column by column. */
  predicate KeyLe(a: Key, b: Key)
  {
    a == [] || (b != [] && ((CellLe(a[0], b[0]) && a[0] != b[0]) || (a[0] == b[0] && KeyLe(a[1..], b[1..]))))
  }

  lemma CellLeTotal(a: Option<string>, b: Option<string>)
    ensures CellLe(a, b) || CellLe(b, a)
  {
    if a.Some? && b.Some? { StrLeTotal(a.value, b.value); }
  }

  lemma CellLeAntisymmetric(a: Option<string>, b: Option<string>)
    requires CellLe(a, b) && CellLe(b, a)
    ensures a == b
  {
    if a.Some? && b.Some? { StrLeAntisymmetric(a.value, b.value); }
  }

  lemma CellLeTransitive(a: Option<string>, b: Option<string>, c: Option<string>)
    requires CellLe(a, b) && CellLe(b, c)
    ensures CellLe(a, c)
  {
    if a.Some? && b.Some? && c.Some? { StrLeTransitive(a.value, b.value, c.value); }
  }

  lemma {:induction false} KeyLeTotal(a: Key, b: Key)
    ensures KeyLe(a, b) || KeyLe(b, a)
  {
    if a != [] && b != [] {
      CellLeTotal(a[0], b[0]);
      if a[0] == b[0] { KeyLeTotal(a[1..], b[1..]); }
    }
  }

  lemma {:induction false} KeyLeTransitive(a: Key, b: Key, c: Key)
    requires KeyLe(a, b) && KeyLe(b, c)
    ensures KeyLe(a, c)
  {
    if a != [] {
      assert b != [] && c != [];
      if a[0] == b[0] && b[0] == c[0] {
        KeyLeTransitive(a[1..], b[1..], c[1..]);
      } else if a[0] == b[0] {
        assert CellLe(b[0], c[0]) && b[0] != c[0];
      } else if b[0] == c[0] {
        assert CellLe(a[0], b[0]) && a[0] != b[0];
      } else {
        CellLeTransitive(a[0], b[0], c[0]);
        if a[0] == c[0] { CellLeAntisymmetric(a[0], b[0]); }
      }
    }
  }

  /** `le` orders every pair of values and chains: what `sorted` needs of its key. */
  ghost predicate TotalPreorder<T(!new)>(le: (T, T) -> bool)
  {
    (forall a, b :: le(a, b) || le(b, a)) &&
    (forall a, b, c :: le(a, b) && le(b, c) ==> le(a, c))
  }

  predicate SortedBy<T>(s: seq<T>, le: (T, T) -> bool)
  {
    forall i, j :: 0 <= i < j < |s| ==> le(s[i], s[j])
  }

  /** The comparator that orders rows by the key `key` gives them. */
  function ByKey<T>(key: T -> Key): (T, T) -> bool
  {
    (x: T, y: T) => KeyLe(key(x), key(y))
  }

  lemma ByKeyIsTotalPreorder<T(!new)>(key: T -> Key)
    ensures TotalPreorder(ByKey(key))
  {
    forall a: T, b: T ensures ByKey(key)(a, b) || ByKey(key)(b, a) {
      KeyLeTotal(key(a), key(b));
    }
    forall a: T, b: T, c: T | ByKey(key)(a, b) && ByKey(key)(b, c) ensures ByKey(key)(a, c) {
      KeyLeTransitive(key(a), key(b), key(c));
    }
  }

  lemma StrLeIsTotalPreorder()
    ensures TotalPreorder(StrLe)
  {
    forall a: string, b: string ensures StrLe(a, b) || StrLe(b, a) {
      StrLeTotal(a, b);
    }
    forall a: string, b: string, c: string | StrLe(a, b) && StrLe(b, c) ensures StrLe(a, c) {
      StrLeTransitive(a, b, c);
    }
  }

  /** Places `x` before the first element it does not follow, so equal elements keep their order. */
  function InsertSorted<T(!new)>(x: T, s: seq<T>, le: (T, T) -> bool): (r: seq<T>)
    requires TotalPreorder(le)
    ensures |r| == |s| + 1
    ensures multiset(r) == multiset(s) + multiset{x}
    ensures SortedBy(s, le) ==> SortedBy(r, le)
  {
    if s == [] || le(x, s[0]) then
      [x] + s
    else
      var rest := InsertSorted(x, s[1..], le);
      assert s == [s[0]] + s[1..];
      assert SortedBy(s, le) ==> SortedBy([s[0]] + rest, le) by {
        if SortedBy(s, le) {
          forall j | 0 <= j < |rest| ensures le(s[0], rest[j]) {
            assert rest[j] in multiset(rest);
            if rest[j] != x {
              assert rest[j] in multiset(s[1..]);
              var k :| 0 <= k < |s[1..]| && s[1..][k] == rest[j];
              assert s[k + 1] == rest[j];
            }
          }
        }
      }
      [s[0]] + rest
  }

  /**
   * A stable insertion sort: the model of Python's `sorted(s, key=...)` and of the order an
   * ORDER BY query returns its rows in.
   */
  function SortBy<T(!new)>(s: seq<T>, le: (T, T) -> bool): (r: seq<T>)
    requires TotalPreorder(le)
    ensures multiset(r) == multiset(s)
    ensures SortedBy(r, le)
  {
    if s == [] then [] else
      assert s == [s[0]] + s[1..];
      InsertSorted(s[0], SortBy(s[1..], le), le)
  }

  lemma SortByMembers<T(!new)>(s: seq<T>, le: (T, T) -> bool, x: T)
    requires TotalPreorder(le)
    ensures x in SortBy(s, le) <==> x in s
  {
    var r := SortBy(s, le);
    assert x in r <==> x in multiset(r);
    assert x in s <==> x in multiset(s);
  }

  predicate StrictlySorted(s: seq<string>)
  {
    forall i, j :: 0 <= i < j < |s| ==> StrLe(s[i], s[j]) && s[i] != s[j]
  }

  /** Drops adjacent repeats; on a sorted list this keeps one copy of each value. */
  function DedupSorted(s: seq<string>): (r: seq<string>)
    ensures forall x :: x in r <==> x in s
    ensures SortedBy(s, StrLe) ==> StrictlySorted(r)
  {
    if |s| <= 1 then s
    else
      var rest := DedupSorted(s[1..]);
      assert forall x :: x in s <==> x == s[0] || x in s[1..];
      if s[0] == s[1] then rest
      else
        assert SortedBy(s, StrLe) ==> StrictlySorted([s[0]] + rest) by {
          if SortedBy(s, StrLe) {
            assert SortedBy(s[1..], StrLe);
            forall j | 0 <= j < |rest| ensures StrLe(s[0], rest[j]) && s[0] != rest[j] {
              assert rest[j] in s[1..];
              var k :| 1 <= k < |s| && s[k] == rest[j];
              if s[0] == rest[j] {
                assert StrLe(s[1], s[k]);
                StrLeAntisymmetric(s[0], s[1]);
              }
            }
          }
        }
        [s[0]] + rest
  }

  /** Python's `sorted(set(s))` for strings. */
  function SortedSet(s: seq<string>): (r: seq<string>)
    ensures forall x :: x in r <==> x in s
    ensures StrictlySorted(r)
  {
    StrLeIsTotalPreorder();
    var sorted := SortBy(s, StrLe);
    assert forall x :: x in sorted <==> x in s by {
      forall x ensures x in sorted <==> x in s { SortByMembers(s, StrLe, x); }
    }
    DedupSorted(sorted)
  }
}
