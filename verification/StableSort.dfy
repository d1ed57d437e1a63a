/**
 What `Array.prototype.sort` does with a comparator: a stable sort.  It is given
 here as an insertion sort; the lemmas say that any sorted arrangement keeping
 equal elements in their order is the same sequence.
 */
module StableSort {

  ghost predicate TotalPreorder<T(!new)>(le: (T, T) -> bool) {
    && (forall x, y :: le(x, y) || le(y, x))
    && (forall x, y, z :: le(x, y) && le(y, z) ==> le(x, z))
  }

  predicate Sorted<T>(le: (T, T) -> bool, s: seq<T>) {
    forall i, j :: 0 <= i < j < |s| ==> le(s[i], s[j])
  }

  function Insert<T>(le: (T, T) -> bool, x: T, s: seq<T>): seq<T> {
    if s == [] || le(x, s[0]) then [x] + s else [s[0]] + Insert(le, x, s[1..])
  }

  function Sort<T>(le: (T, T) -> bool, s: seq<T>): seq<T> {
    if s == [] then [] else Insert(le, s[0], Sort(le, s[1..]))
  }

  function Filter<T>(p: T -> bool, s: seq<T>): seq<T> {
    if s == [] then [] else (if p(s[0]) then [s[0]] else []) + Filter(p, s[1..])
  }

  function Alike<T>(le: (T, T) -> bool, x: T): T -> bool {
    y => le(x, y) && le(y, x)
  }

  // ---- Sorting sorts, permutes, and is stable

  lemma {:induction false} InsertContents<T>(le: (T, T) -> bool, x: T, s: seq<T>)
    ensures multiset(Insert(le, x, s)) == multiset{x} + multiset(s)
  {
    if s != [] && !le(x, s[0]) {
      InsertContents(le, x, s[1..]);
      assert s == [s[0]] + s[1..];
    }
  }

  lemma {:induction false} SortContents<T>(le: (T, T) -> bool, s: seq<T>)
    ensures multiset(Sort(le, s)) == multiset(s)
  {
    if s != [] {
      SortContents(le, s[1..]);
      InsertContents(le, s[0], Sort(le, s[1..]));
      assert s == [s[0]] + s[1..];
    }
  }

  lemma {:induction false} InsertSorted<T(!new)>(le: (T, T) -> bool, x: T, s: seq<T>)
    requires TotalPreorder(le) && Sorted(le, s)
    ensures Sorted(le, Insert(le, x, s))
  {
    if s != [] && !le(x, s[0]) {
      InsertSorted(le, x, s[1..]);
      InsertContents(le, x, s[1..]);
      var rest := Insert(le, x, s[1..]);
      forall j | 0 <= j < |rest|
        ensures le(s[0], rest[j])
      {
        assert rest[j] in multiset(rest);
        assert rest[j] == x || rest[j] in s[1..];
      }
    }
  }

  lemma {:induction false} SortSorted<T(!new)>(le: (T, T) -> bool, s: seq<T>)
    requires TotalPreorder(le)
    ensures Sorted(le, Sort(le, s))
  {
    if s != [] {
      SortSorted(le, s[1..]);
      InsertSorted(le, s[0], Sort(le, s[1..]));
    }
  }

  lemma {:induction false} InsertStable<T(!new)>(le: (T, T) -> bool, x: T, s: seq<T>, y: T)
    requires TotalPreorder(le)
    ensures Filter(Alike(le, y), Insert(le, x, s)) == Filter(Alike(le, y), [x]) + Filter(Alike(le, y), s)
  {
    if s == [] || le(x, s[0]) {
      assert ([x] + s)[1..] == s && [x][1..] == [];
    } else {
      InsertStable(le, x, s[1..], y);
      assert Insert(le, x, s)[1..] == Insert(le, x, s[1..]) && [x][1..] == [];
      assert !(Alike(le, y)(x) && Alike(le, y)(s[0]));
    }
  }

  /** Elements the order does not tell apart stay in their order. */
  lemma {:induction false} SortStable<T(!new)>(le: (T, T) -> bool, s: seq<T>, y: T)
    requires TotalPreorder(le)
    ensures Filter(Alike(le, y), Sort(le, s)) == Filter(Alike(le, y), s)
  {
    if s != [] {
      SortStable(le, s[1..], y);
      InsertStable(le, s[0], Sort(le, s[1..]), y);
      assert [s[0]][1..] == [];
    }
  }

  // ---- A sorted, stable arrangement is unique

  lemma {:induction false} FilterContents<T>(p: T -> bool, s: seq<T>, x: T)
    ensures x in Filter(p, s) <==> x in s && p(x)
  {
    if s != [] {
      FilterContents(p, s[1..], x);
    }
  }

  lemma {:induction false} SortUnique<T(!new)>(le: (T, T) -> bool, r: seq<T>, s: seq<T>)
    requires TotalPreorder(le) && Sorted(le, r) && Sorted(le, s)
    requires forall y :: Filter(Alike(le, y), r) == Filter(Alike(le, y), s)
    ensures r == s
  {
    if r == [] || s == [] {
      if r != [] { NonemptyClass(le, r[0], r, s); }
      if s != [] { NonemptyClass(le, s[0], s, r); }
    } else {
      NonemptyClass(le, r[0], r, s);
      NonemptyClass(le, s[0], s, r);
      assert Alike(le, r[0])(s[0]) && Alike(le, r[0])(r[0]);
      assert Filter(Alike(le, r[0]), r)[0] == r[0];
      assert Filter(Alike(le, r[0]), s)[0] == s[0];
      assert r[0] == s[0];
      forall y
        ensures Filter(Alike(le, y), r[1..]) == Filter(Alike(le, y), s[1..])
      {
        var c := Alike(le, y);
        assert Filter(c, r) == Filter(c, s);
        assert Filter(c, r) == (if c(r[0]) then [r[0]] else []) + Filter(c, r[1..]);
        assert Filter(c, s) == (if c(s[0]) then [s[0]] else []) + Filter(c, s[1..]);
        if c(r[0]) {
          assert Filter(c, r)[1..] == Filter(c, r[1..]) && Filter(c, s)[1..] == Filter(c, s[1..]);
        } else {
          assert Filter(c, r) == Filter(c, r[1..]) && Filter(c, s) == Filter(c, s[1..]);
        }
      }
      SortUnique(le, r[1..], s[1..]);
    }
  }

  /** A member of one sequence has its equals in the other. */
  lemma NonemptyClass<T(!new)>(le: (T, T) -> bool, x: T, r: seq<T>, s: seq<T>)
    requires TotalPreorder(le) && x in r
    requires forall y :: Filter(Alike(le, y), r) == Filter(Alike(le, y), s)
    ensures x in s
  {
    FilterContents(Alike(le, x), r, x);
    FilterContents(Alike(le, x), s, x);
  }

  // ---- Two passes

  /** First by `major`, then by `minor`. */
  function Lexicographic<T>(major: (T, T) -> bool, minor: (T, T) -> bool): (T, T) -> bool {
    (x, y) => major(x, y) && (major(y, x) ==> minor(x, y))
  }

  lemma {:induction false} FilterBoth<T>(p: T -> bool, q: T -> bool, pq: T -> bool, s: seq<T>)
    requires forall x :: x in s ==> (pq(x) <==> p(x) && q(x))
    ensures Filter(pq, s) == Filter(q, Filter(p, s))
  {
    if s != [] {
      FilterBoth(p, q, pq, s[1..]);
      var x, rest := s[0], Filter(p, s[1..]);
      assert pq(x) <==> p(x) && q(x);
      if p(x) {
        assert Filter(p, s) == [x] + rest;
        assert ([x] + rest)[1..] == rest;
        assert Filter(q, [x] + rest) == (if q(x) then [x] else []) + Filter(q, rest);
      } else {
        assert Filter(p, s) == rest;
      }
    }
  }

  lemma {:induction false} FilterSorted<T>(le: (T, T) -> bool, p: T -> bool, s: seq<T>)
    requires Sorted(le, s)
    ensures Sorted(le, Filter(p, s))
  {
    if s != [] {
      FilterSorted(le, p, s[1..]);
      var rest := Filter(p, s[1..]);
      forall j | 0 <= j < |rest|
        ensures le(s[0], rest[j])
      {
        FilterContents(p, s[1..], rest[j]);
      }
    }
  }

  /** Where the elements at i < j of a sequence appear in its filtered form, in the same order. */
  lemma {:induction false} FilterKeepsOrder<T>(p: T -> bool, s: seq<T>, i: int, j: int) returns (k: int, l: int)
    requires 0 <= i < j < |s| && p(s[i]) && p(s[j])
    ensures 0 <= k < l < |Filter(p, s)| && Filter(p, s)[k] == s[i] && Filter(p, s)[l] == s[j]
  {
    var head := if p(s[0]) then [s[0]] else [];
    assert Filter(p, s) == head + Filter(p, s[1..]);
    if i > 0 {
      k, l := FilterKeepsOrder(p, s[1..], i - 1, j - 1);
      k, l := k + |head|, l + |head|;
    } else {
      FilterContents(p, s[1..], s[j]);
      assert s[j] == s[1..][j - 1];
      l :| 0 <= l < |Filter(p, s[1..])| && Filter(p, s[1..])[l] == s[j];
      k, l := 0, l + 1;
    }
  }

  /** Sorting by `minor` and then by `major` is sorting once by `major`, then `minor`. */
  lemma TwoPasses<T(!new)>(major: (T, T) -> bool, minor: (T, T) -> bool, s: seq<T>)
    requires TotalPreorder(major) && TotalPreorder(minor)
    ensures Sort(major, Sort(minor, s)) == Sort(Lexicographic(major, minor), s)
  {
    var both := Lexicographic(major, minor);
    var once := Sort(minor, s);
    var twice := Sort(major, once);
    LexicographicTotal(major, minor);
    SortSorted(both, s);
    SortSorted(minor, s);
    SortSorted(major, once);
    forall i, j | 0 <= i < j < |twice|
      ensures both(twice[i], twice[j])
    {
      if major(twice[j], twice[i]) {
        var c := Alike(major, twice[i]);
        assert major(twice[i], twice[i]);
        var k, l := FilterKeepsOrder(c, twice, i, j);
        SortStable(major, once, twice[i]);
        FilterSorted(minor, c, once);
      }
    }
    forall y
      ensures Filter(Alike(both, y), twice) == Filter(Alike(both, y), Sort(both, s))
    {
      SortStable(both, s, y);
      SortStable(minor, s, y);
      SortStable(major, once, y);
      var p, q, pq := Alike(major, y), Alike(minor, y), Alike(both, y);
      FilterBoth(p, q, pq, twice);
      FilterBoth(p, q, pq, once);
      FilterBoth(q, p, pq, once);
      FilterBoth(q, p, pq, s);
    }
    SortUnique(both, twice, Sort(both, s));
  }

  lemma LexicographicTotal<T(!new)>(major: (T, T) -> bool, minor: (T, T) -> bool)
    requires TotalPreorder(major) && TotalPreorder(minor)
    ensures TotalPreorder(Lexicographic(major, minor))
  {
  }

  // ---- An order that tells all elements apart

  /** Two sorted sequences of the same elements are equal when the order tells those elements apart. */
  lemma {:induction false} SortedPermutation<T(!new)>(le: (T, T) -> bool, r: seq<T>, s: seq<T>)
    requires Sorted(le, r) && Sorted(le, s) && multiset(r) == multiset(s)
    requires forall x, y :: x in r && y in r && le(x, y) && le(y, x) ==> x == y
    ensures r == s
  {
    assert |multiset(r)| == |r| && |multiset(s)| == |s|;
    if r != [] {
      SmallestFirst(le, r, s);
      SmallestFirst(le, s, r);
      TailContents(r);
      TailContents(s);
      SortedPermutation(le, r[1..], s[1..]);
    }
  }

  lemma SmallestFirst<T>(le: (T, T) -> bool, r: seq<T>, s: seq<T>)
    requires Sorted(le, r) && multiset(r) == multiset(s) && r != [] && s != []
    ensures s[0] in r && (r[0] == s[0] || le(r[0], s[0]))
  {
    assert s[0] in multiset(r);
  }

  lemma TailContents<T>(s: seq<T>)
    requires s != []
    ensures multiset(s[1..]) == multiset(s) - multiset{s[0]}
    ensures forall x :: x in s[1..] ==> x in s
  {
    assert s == [s[0]] + s[1..];
  }
}
