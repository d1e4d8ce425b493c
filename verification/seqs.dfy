/** Sequence operations the views get from Rust iterators and `Vec`: `filter`, `retain`,
    `contains`, `push` and a comparison sort (`sort_by`). */
module Seqs {
  import opened Common

  /** `iter().filter(p).collect()`. */
  function Filter<T(!new)>(s: seq<T>, p: T -> bool): (r: seq<T>)
    ensures forall x :: x in r <==> x in s && p(x)
    ensures forall x :: multiset(r)[x] == if p(x) then multiset(s)[x] else 0
    ensures multiset(r) <= multiset(s)
    ensures |r| <= |s|
    ensures (forall x :: x in s ==> p(x)) ==> r == s
  {
    if |s| == 0 then []
    else
      var rest := Filter(s[1..], p);
      var r := if p(s[0]) then [s[0]] + rest else rest;
      FilterCons(s, p, rest, r);
      r
  }

  /** Keeping or dropping the head of `s` extends what holds of the filtered tail. */
  lemma FilterCons<T(!new)>(s: seq<T>, p: T -> bool, rest: seq<T>, r: seq<T>)
    requires |s| > 0
    requires forall x :: x in rest <==> x in s[1..] && p(x)
    requires forall x :: multiset(rest)[x] == if p(x) then multiset(s[1..])[x] else 0
    requires |rest| <= |s[1..]|
    requires (forall x :: x in s[1..] ==> p(x)) ==> rest == s[1..]
    requires r == if p(s[0]) then [s[0]] + rest else rest
    ensures forall x :: x in r <==> x in s && p(x)
    ensures forall x :: multiset(r)[x] == if p(x) then multiset(s)[x] else 0
    ensures multiset(r) <= multiset(s)
    ensures |r| <= |s|
    ensures (forall x :: x in s ==> p(x)) ==> r == s
  {
    assert s == [s[0]] + s[1..];
    assert multiset(s) == multiset{s[0]} + multiset(s[1..]);
    if p(s[0]) {
      assert multiset(r) == multiset{s[0]} + multiset(rest);
    }
    if forall x :: x in s ==> p(x) {
      assert forall x :: x in s[1..] ==> x in s;
    }
  }

  /** `x` is what `f` gives for some element of `s`. */
  predicate ImageOf<A, B(==)>(s: seq<A>, f: A -> Option<B>, x: B) {
    exists i :: 0 <= i < |s| && f(s[i]) == Some(x)
  }

  /** `iter().filter_map(f).collect()`: the values `f` gives, in order, dropping the `None`s. */
  function FilterMap<A, B(==,!new)>(s: seq<A>, f: A -> Option<B>): (r: seq<B>)
    ensures |r| <= |s|
    ensures forall i :: 0 <= i < |s| && f(s[i]).Some? ==> f(s[i]).value in r
    ensures forall x :: x in r ==> ImageOf(s, f, x)
    ensures (forall i :: 0 <= i < |s| ==> f(s[i]).Some?) ==> |r| == |s| && forall i :: 0 <= i < |s| ==> r[i] == f(s[i]).value
  {
    if |s| == 0 then []
    else
      var init := s[..|s| - 1];
      var rest := FilterMap(init, f);
      var last := f(s[|s| - 1]);
      assert forall i :: 0 <= i < |init| ==> init[i] == s[i];
      assert forall x :: ImageOf(init, f, x) ==> ImageOf(s, f, x) by {
        forall x | ImageOf(init, f, x) ensures ImageOf(s, f, x) {
          var i :| 0 <= i < |init| && f(init[i]) == Some(x);
          assert s[i] == init[i];
        }
      }
      if last.Some? then rest + [last.value] else rest
  }

  /** `filter_map` distributes over concatenation: the values of `a` come first, then those of `b`. */
  lemma {:induction false} FilterMapAppend<A, B(!new)>(a: seq<A>, b: seq<A>, f: A -> Option<B>)
    ensures FilterMap(a + b, f) == FilterMap(a, f) + FilterMap(b, f)
    decreases |b|
  {
    if |b| == 0 {
      assert a + b == a;
    } else {
      var init, x := b[..|b| - 1], b[|b| - 1];
      assert b == init + [x];
      assert a + b == (a + init) + [x];
      FilterMapAppend(a, init, f);
      FilterMapSnoc(a + init, x, f);
      FilterMapSnoc(init, x, f);
    }
  }

  /** One more element at the end adds its value, if it has one, at the end. */
  lemma FilterMapSnoc<A, B(!new)>(s: seq<A>, x: A, f: A -> Option<B>)
    ensures FilterMap(s + [x], f) == FilterMap(s, f) + if f(x).Some? then [f(x).value] else []
  {
    assert (s + [x])[..|s|] == s;
  }

  /** A single element gives its value, or nothing. */
  lemma FilterMapSingle<A, B(!new)>(x: A, f: A -> Option<B>)
    ensures FilterMap([x], f) == if f(x).Some? then [f(x).value] else []
  {
    assert [x][..0] == [];
  }

  /** Distinct elements whose values `f` keeps apart give distinct values. */
  lemma {:induction false} FilterMapDistinct<A, B(!new)>(s: seq<A>, f: A -> Option<B>)
    requires NoDuplicates(s)
    requires forall i, j :: 0 <= i < |s| && 0 <= j < |s| && f(s[i]).Some? && f(s[i]) == f(s[j]) ==> s[i] == s[j]
    ensures NoDuplicates(FilterMap(s, f))
  {
    if |s| > 0 {
      var init := s[..|s| - 1];
      assert forall i :: 0 <= i < |init| ==> init[i] == s[i];
      FilterMapDistinct(init, f);
      var rest := FilterMap(init, f);
      var last := f(s[|s| - 1]);
      if last.Some? {
        assert last.value !in rest by {
          assert forall x :: x in rest ==> ImageOf(init, f, x);
        }
        var r := rest + [last.value];
        assert forall i, j :: 0 <= i < j < |r| ==> r[i] != r[j] by {
          forall i, j | 0 <= i < j < |r| ensures r[i] != r[j] {
            if j == |r| - 1 { assert r[i] in rest; }
          }
        }
      }
    }
  }

  /** `filter_map` keeps one value for each element `f` maps to a value, so it gives as many
      values as `filter` keeps elements. */
  lemma {:induction false} FilterMapCount<A(!new), B(!new)>(s: seq<A>, f: A -> Option<B>, p: A -> bool)
    requires forall x :: p(x) == f(x).Some?
    ensures |FilterMap(s, f)| == |Filter(s, p)|
  {
    if |s| > 0 {
      var init := s[..|s| - 1];
      var x := s[|s| - 1];
      assert s == init + [x];
      FilterMapCount(init, f, p);
      FilterMapAppend(init, [x], f);
      FilterMapSingle(x, f);
      FilterSnocCount(init, x, p);
    }
  }

  /** Appending an element adds one to the filter's count exactly when the element is kept. */
  lemma FilterSnocCount<T(!new)>(s: seq<T>, x: T, p: T -> bool)
    ensures |Filter(s + [x], p)| == |Filter(s, p)| + if p(x) then 1 else 0
  {
    assert multiset(s + [x]) == multiset([x] + s);
    FilterCountPermutation(s + [x], [x] + s, p);
    assert ([x] + s)[0] == x && ([x] + s)[1..] == s;
  }

  /** How many elements a filter keeps does not depend on their order. */
  lemma FilterCountPermutation<T(!new)>(s: seq<T>, t: seq<T>, p: T -> bool)
    requires multiset(s) == multiset(t)
    ensures |Filter(s, p)| == |Filter(t, p)|
  {
    var a, b := Filter(s, p), Filter(t, p);
    assert multiset(a) == multiset(b) by {
      forall y ensures multiset(a)[y] == multiset(b)[y] { }
    }
    assert |a| == |multiset(a)| && |b| == |multiset(b)|;
  }

  /** `filter_map` keeps the order of what it keeps. */
  lemma {:induction false} FilterMapSorted<A, B(!new)>(s: seq<A>, f: A -> Option<B>, le: (B, B) -> bool)
    requires forall i, j :: 0 <= i < j < |s| && f(s[i]).Some? && f(s[j]).Some? ==> le(f(s[i]).value, f(s[j]).value)
    ensures SortedBy(FilterMap(s, f), le)
  {
    if |s| > 0 {
      var init := s[..|s| - 1];
      assert forall i :: 0 <= i < |init| ==> init[i] == s[i];
      FilterMapSorted(init, f, le);
      var rest := FilterMap(init, f);
      var last := f(s[|s| - 1]);
      if last.Some? && |rest| > 0 {
        var x := rest[|rest| - 1];
        assert ImageOf(init, f, x);
        var i :| 0 <= i < |init| && f(init[i]) == Some(x);
        assert le(x, last.value);
        var r := rest + [last.value];
        assert forall k :: 0 < k < |r| ==> le(r[k - 1], r[k]) by {
          forall k | 0 < k < |r| ensures le(r[k - 1], r[k]) {
            if k < |rest| { assert r[k - 1] == rest[k - 1] && r[k] == rest[k]; }
          }
        }
      }
    }
  }

  predicate NoDuplicates<T(==)>(s: seq<T>) {
    forall i, j :: 0 <= i < j < |s| ==> s[i] != s[j]
  }

  /** `v.retain(|x| x != y)`: every occurrence of `y` removed, the rest kept in order. */
  function RemoveAll<T(==,!new)>(s: seq<T>, y: T): (r: seq<T>)
    ensures forall x :: x in r <==> x in s && x != y
    ensures y !in s ==> r == s
    ensures multiset(r) <= multiset(s)
  {
    if |s| == 0 then []
    else
      assert s == [s[0]] + s[1..];
      (if s[0] == y then [] else [s[0]]) + RemoveAll(s[1..], y)
  }

  /** Removing keeps a list free of duplicates. */
  lemma {:induction false} RemoveAllDistinct<T(!new)>(s: seq<T>, y: T)
    requires NoDuplicates(s)
    ensures NoDuplicates(RemoveAll(s, y))
  {
    if |s| > 0 {
      assert NoDuplicates(s[1..]);
      RemoveAllDistinct(s[1..], y);
      assert s[0] !in s[1..];
    }
  }

  /** Removing an element that only occurs at the end gives back the rest. */
  lemma {:induction false} RemoveAllAppended<T(!new)>(s: seq<T>, y: T)
    requires y !in s
    ensures RemoveAll(s + [y], y) == s
  {
    if |s| == 0 {
      assert RemoveAll([y], y) == [] + RemoveAll([y][1..], y);
    } else {
      assert (s + [y])[1..] == s[1..] + [y];
      RemoveAllAppended(s[1..], y);
      assert s == [s[0]] + s[1..];
    }
  }

  /** A checkbox over a list: a present element is removed (every occurrence), an absent one
      appended. */
  function Toggle<T(==,!new)>(s: seq<T>, x: T): (r: seq<T>)
    ensures x in r <==> x !in s
    ensures forall y :: y != x ==> (y in r <==> y in s)
  {
    if x in s then RemoveAll(s, x) else s + [x]
  }

  /** Toggling keeps a list free of duplicates, and toggling twice gives back the same list
      when the element was absent, the same elements when it was present. */
  lemma ToggleTwice<T(!new)>(s: seq<T>, x: T)
    requires NoDuplicates(s)
    ensures NoDuplicates(Toggle(s, x))
    ensures x !in s ==> Toggle(Toggle(s, x), x) == s
    ensures forall y :: y in Toggle(Toggle(s, x), x) <==> y in s
  {
    if x in s {
      RemoveAllDistinct(s, x);
    } else {
      RemoveAllAppended(s, x);
    }
  }

  /** `le` is total on the elements of `s`: any two of them are comparable. */
  predicate TotalOn<T>(s: seq<T>, le: (T, T) -> bool) {
    forall i, j :: 0 <= i < |s| && 0 <= j < |s| ==> le(s[i], s[j]) || le(s[j], s[i])
  }

  /** Each element is `le` its successor. */
  predicate SortedBy<T>(s: seq<T>, le: (T, T) -> bool) {
    forall i :: 0 < i < |s| ==> le(s[i - 1], s[i])
  }

  /** Insert `x` before the first element it is `le` to. */
  function Insert<T>(x: T, s: seq<T>, le: (T, T) -> bool): (r: seq<T>)
    requires SortedBy(s, le)
    requires forall i :: 0 <= i < |s| ==> le(x, s[i]) || le(s[i], x)
    ensures multiset(r) == multiset(s) + multiset{x}
    ensures SortedBy(r, le)
    ensures |r| == |s| + 1
    ensures r[0] == x || (|s| > 0 && r[0] == s[0])
  {
    if |s| == 0 then [x]
    else if le(x, s[0]) then [x] + s
    else
      var rest := Insert(x, s[1..], le);
      assert s == [s[0]] + s[1..];
      [s[0]] + rest
  }

  /** `sort_by` with a comparison whose "not greater" relation is `le`: the result is a
      permutation of the input in `le` order. */
  function SortBy<T>(s: seq<T>, le: (T, T) -> bool): (r: seq<T>)
    requires TotalOn(s, le)
    ensures multiset(r) == multiset(s)
    ensures SortedBy(r, le)
    ensures |r| == |s|
  {
    if |s| == 0 then []
    else
      TotalOnTail(s, le);
      var rest := SortBy(s[1..], le);
      ComparableWithHead(s, le, rest);
      assert s == [s[0]] + s[1..];
      Insert(s[0], rest, le)
  }

  lemma TotalOnTail<T>(s: seq<T>, le: (T, T) -> bool)
    requires |s| > 0 && TotalOn(s, le)
    ensures TotalOn(s[1..], le)
  {
    forall i, j | 0 <= i < |s| - 1 && 0 <= j < |s| - 1
      ensures le(s[1..][i], s[1..][j]) || le(s[1..][j], s[1..][i])
    {
      assert s[1..][i] == s[i + 1] && s[1..][j] == s[j + 1];
    }
  }

  /** A rearrangement of the tail holds only elements comparable with the head. */
  lemma ComparableWithHead<T>(s: seq<T>, le: (T, T) -> bool, rest: seq<T>)
    requires |s| > 0 && TotalOn(s, le) && multiset(rest) == multiset(s[1..])
    ensures forall i :: 0 <= i < |rest| ==> le(s[0], rest[i]) || le(rest[i], s[0])
  {
    forall i | 0 <= i < |rest| ensures le(s[0], rest[i]) || le(rest[i], s[0]) {
      assert rest[i] in multiset(s[1..]);
      var j :| 0 <= j < |s| - 1 && s[1..][j] == rest[i];
      assert s[j + 1] == rest[i];
    }
  }

  /** Under a transitive order, a list sorted neighbour by neighbour is sorted pairwise. */
  lemma {:induction false} SortedChain<T>(s: seq<T>, le: (T, T) -> bool, i: int, j: int)
    requires SortedBy(s, le)
    requires forall a, b, c :: le(a, b) && le(b, c) ==> le(a, c)
    requires 0 <= i < j < |s|
    ensures le(s[i], s[j])
    decreases j - i
  {
    if i + 1 < j {
      SortedChain(s, le, i, j - 1);
    }
  }

  /** Sorting keeps exactly the elements of the input. */
  lemma SortBySameElements<T(!new)>(s: seq<T>, le: (T, T) -> bool)
    requires TotalOn(s, le)
    ensures forall x :: x in SortBy(s, le) <==> x in s
  {
    var r := SortBy(s, le);
    forall x ensures x in r <==> x in s {
      assert x in r <==> x in multiset(r);
      assert x in s <==> x in multiset(s);
    }
  }
}
