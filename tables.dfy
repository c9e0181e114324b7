/**
 * The shapes of the in-memory tables that stand in for SQL queries: a first match (a lookup
 * by a unique column), a filter (a WHERE clause) and a flat map (a join, one output row per
 * matching pair, in the order of the outer table).
 */
module Tables {
  import opened Wrappers

  /** The first element satisfying `p`, if any. */
  function Find<T>(s: seq<T>, p: T -> bool): (r: Option<T>)
    ensures r.Some? ==> r.value in s && p(r.value)
    ensures r.None? ==> forall x :: x in s ==> !p(x)
  {
    if s == [] then None
    else if p(s[0]) then Some(s[0])
    else Find(s[1..], p)
  }

  /** The elements satisfying `p`, in their order. */
  function Filter<T(!new)>(s: seq<T>, p: T -> bool): (r: seq<T>)
    ensures forall x :: x in r <==> x in s && p(x)
    ensures |r| <= |s|
  {
    if s == [] then []
    else
      var k := |s| - 1;
      assert s == s[..k] + [s[k]];
      Filter(s[..k], p) + (if p(s[k]) then [s[k]] else [])
  }

  /** Filtering a list with one more element at the end. */
  lemma FilterSnoc<T(!new)>(s: seq<T>, x: T, p: T -> bool)
    ensures Filter(s + [x], p) == Filter(s, p) + (if p(x) then [x] else [])
  {
    assert (s + [x])[..|s|] == s;
  }

  /** An element of a run inside a list, found by its offset in the list. */
  lemma PrefixIndex<T>(pre: seq<T>, run: seq<T>, whole: seq<T>, j: nat)
    requires pre + run <= whole && j < |run|
    ensures |pre| + j < |whole| && whole[|pre| + j] == run[j]
  {
    assert (pre + run)[|pre| + j] == run[j];
  }

  /** Filtering twice keeps what passes both filters. */
  lemma {:induction false} FilterFilter<T(!new)>(s: seq<T>, p: T -> bool, q: T -> bool, pq: T -> bool)
    requires forall x :: pq(x) == (p(x) && q(x))
    ensures Filter(Filter(s, p), q) == Filter(s, pq)
  {
    if s != [] {
      var k := |s| - 1;
      FilterFilter(s[..k], p, q, pq);
      var front := Filter(s[..k], p);
      if p(s[k]) {
        assert Filter(s, p)[..|Filter(s, p)| - 1] == front;
      } else {
        assert Filter(s, p) == front;
      }
    }
  }

  /** A filter everything passes keeps everything. */
  lemma {:induction false} FilterAll<T(!new)>(s: seq<T>, p: T -> bool)
    requires forall x :: x in s ==> p(x)
    ensures Filter(s, p) == s
  {
    if s != [] {
      var k := |s| - 1;
      var front := s[..k];
      assert s == front + [s[k]];
      assert p(s[k]);
      assert forall x :: x in front ==> x in s;
      FilterAll(front, p);
      FilterSnoc(front, s[k], p);
    }
  }

  /** A filter nothing passes leaves nothing. */
  lemma {:induction false} FilterNone<T(!new)>(s: seq<T>, p: T -> bool)
    requires forall x :: x in s ==> !p(x)
    ensures Filter(s, p) == []
  {
    if s != [] {
      var k := |s| - 1;
      var front := s[..k];
      assert s == front + [s[k]];
      assert !p(s[k]);
      assert forall x :: x in front ==> x in s;
      FilterNone(front, p);
      FilterSnoc(front, s[k], p);
    }
  }

  /** A filter keeps every copy of what passes it and no copy of anything else. */
  lemma {:induction false} FilterCount<T(!new)>(s: seq<T>, p: T -> bool, x: T)
    ensures multiset(Filter(s, p))[x] == if p(x) then multiset(s)[x] else 0
  {
    if s != [] {
      var k := |s| - 1;
      var front := s[..k];
      assert s == front + [s[k]];
      FilterCount(front, p, x);
      FilterSnoc(front, s[k], p);
    }
  }

  /** The concatenation of `f(a)` over the elements `a` of `s`, in order. */
  function FlatMap<A(!new), B(!new)>(s: seq<A>, f: A -> seq<B>): (r: seq<B>)
    ensures forall b :: b in r <==> exists a :: a in s && b in f(a)
  {
    if s == [] then []
    else
      var k := |s| - 1;
      assert s == s[..k] + [s[k]];
      FlatMap(s[..k], f) + f(s[k])
  }

  /** Flat-mapping a concatenation flat-maps each part. */
  lemma {:induction false} FlatMapAppend<A(!new), B(!new)>(a: seq<A>, b: seq<A>, f: A -> seq<B>)
    ensures FlatMap(a + b, f) == FlatMap(a, f) + FlatMap(b, f)
  {
    if b == [] {
      assert a + b == a;
    } else {
      var k := |b| - 1;
      FlatMapAppend(a, b[..k], f);
      assert (a + b)[..|a + b| - 1] == a + b[..k];
      assert (a + b)[|a + b| - 1] == b[k];
    }
  }

  /**
   * Two elements of `s` that both yield `y` put two copies of `y` in the result: the flat map
   * keeps one output per source element and never merges them.
   */
  lemma FlatMapKeepsBoth<A(!new), B(!new)>(s: seq<A>, f: A -> seq<B>, i: nat, j: nat, y: B)
    requires i < j < |s| && y in f(s[i]) && y in f(s[j])
    ensures multiset(FlatMap(s, f))[y] >= 2
  {
    var front := s[..j];
    var back := s[j + 1..];
    assert s == front + [s[j]] + back;
    FlatMapAppend(front + [s[j]], back, f);
    FlatMapAppend(front, [s[j]], f);
    assert [s[j]][..0] == [];
    assert FlatMap([s[j]], f) == f(s[j]);
    assert front[i] == s[i];
    assert y in FlatMap(front, f);
    assert multiset(FlatMap(s, f)) == multiset(FlatMap(front, f)) + multiset(f(s[j])) + multiset(FlatMap(back, f));
  }

  /** `[f(x) for x in s]`. */
  function Map<A(!new), B(!new)>(s: seq<A>, f: A -> B): (r: seq<B>)
    ensures |r| == |s|
    ensures forall i :: 0 <= i < |s| ==> r[i] == f(s[i])
    ensures forall b :: b in r <==> exists a :: a in s && b == f(a)
  {
    if s == [] then []
    else
      var rest := Map(s[1..], f);
      assert forall a :: a in s <==> a == s[0] || a in s[1..];
      [f(s[0])] + rest
  }

  /** Mapping a list with one more element at the end. */
  lemma MapSnoc<A(!new), B(!new)>(s: seq<A>, x: A, f: A -> B)
    ensures Map(s + [x], f) == Map(s, f) + [f(x)]
  {
    var l := Map(s + [x], f);
    var r := Map(s, f) + [f(x)];
    assert |l| == |r|;
    forall i | 0 <= i < |l| ensures l[i] == r[i] {
      if i < |s| {
        assert (s + [x])[i] == s[i];
      }
    }
  }

  /**
   * The concatenation of `f(a)` over the elements of `s`, in order, stopping at the first
   * element whose `f` fails (a loop that appends each result and returns on the first error).
   */
  function Concatenated<A, B, E>(s: seq<A>, f: A -> Result<seq<B>, E>): Result<seq<B>, E>
  {
    if s == [] then Ok([])
    else
      var k := |s| - 1;
      var front := Concatenated(s[..k], f);
      if front.Err? then front
      else if f(s[k]).Err? then Err(f(s[k]).error)
      else Ok(front.value + f(s[k]).value)
  }

  /** One more element: its result is appended, or its failure is the result. */
  lemma ConcatenatedStep<A, B, E>(s: seq<A>, f: A -> Result<seq<B>, E>, i: nat)
    requires i < |s| && Concatenated(s[..i], f).Ok?
    ensures Concatenated(s[..i + 1], f) ==
      if f(s[i]).Err? then Err(f(s[i]).error) else Ok(Concatenated(s[..i], f).value + f(s[i]).value)
  {
    assert s[..i + 1][..i] == s[..i];
  }

  /** A failure within the first `n` elements is the failure of the whole. */
  lemma {:induction false} ConcatenatedFailureStays<A, B, E>(s: seq<A>, f: A -> Result<seq<B>, E>, n: nat)
    requires n <= |s| && Concatenated(s[..n], f).Err?
    ensures Concatenated(s, f) == Concatenated(s[..n], f)
    decreases |s| - n
  {
    if n < |s| {
      assert s[..n + 1][..n] == s[..n];
      ConcatenatedFailureStays(s, f, n + 1);
    } else {
      assert s[..n] == s;
    }
  }

  /** When the whole succeeds, every element succeeds and its result sits inside, contiguous. */
  lemma {:induction false} ConcatenatedHas<A, B, E>(s: seq<A>, f: A -> Result<seq<B>, E>, i: nat) returns (pre: seq<B>)
    requires i < |s| && Concatenated(s, f).Ok?
    ensures f(s[i]).Ok?
    ensures pre + f(s[i]).value <= Concatenated(s, f).value
  {
    var k := |s| - 1;
    assert s[..k + 1] == s;
    ConcatenatedStep(s, f, k);
    if i < k {
      assert s[..k][i] == s[i];
      pre := ConcatenatedHas(s[..k], f, i);
    } else {
      pre := Concatenated(s[..k], f).value;
    }
  }
}
