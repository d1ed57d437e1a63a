/** Ordering, grouping and paging of the shared table (legacy/web/components.tsx). */
module DataTable {
  import opened StableSort
  import opened Wrappers

  datatype SortState = SortState(key: string, dir: int)

  // ---- Operations

  /** The comparison of a column, turned round for a descending sort. */
  function Directed<T>(le: (T, T) -> bool, dir: int): (T, T) -> bool {
    (x, y) => if dir >= 0 then le(x, y) else le(y, x)
  }

  /** `rank` stands for the collation of `localeCompare`. */
  function ByGroup<T>(group: T -> string, rank: string -> int): (T, T) -> bool {
    (x, y) => rank(group(x)) <= rank(group(y))
  }

  function Ordered<T>(rows: seq<T>, column: Option<(T, T) -> bool>, dir: int, group: Option<T -> string>, rank: string -> int): seq<T> {
    var sorted := if column.Some? then Sort(Directed(column.value, dir), rows) else rows;
    if group.Some? then Sort(ByGroup(group.value, rank), sorted) else sorted
  }

  /** `Math.max(0, Math.ceil(length / size) - 1)`. */
  function LastPage(length: nat, size: nat): nat
    requires size > 0
  {
    if length == 0 then 0 else (length - 1) / size
  }

  function CurrentPage(page: nat, length: nat, size: nat): nat
    requires size > 0
  {
    if page <= LastPage(length, size) then page else LastPage(length, size)
  }

  /** `slice`, whose ends are clamped to the sequence. */
  function Slice<T>(s: seq<T>, from: nat, to: nat): seq<T> {
    var hi := if to <= |s| then to else |s|;
    if from <= hi then s[from..hi] else []
  }

  function Page<T>(ordered: seq<T>, page: nat, size: nat): seq<T>
    requires size > 0
  {
    var current := CurrentPage(page, |ordered|, size);
    Slice(ordered, current * size, (current + 1) * size)
  }

  /** A heading is drawn above the first row of the page and wherever the group's key changes. */
  predicate HasHeading<T>(visible: seq<T>, group: T -> string, i: nat)
    requires i < |visible|
  {
    i == 0 || group(visible[i - 1]) != group(visible[i])
  }

  function Multiple(n: nat, size: nat): nat {
    n * size
  }

  /** The state behind the heading buttons and the pager. */
  class TableState {
    var sort: Option<SortState>
    var page: nat
    var size: nat

    predicate Valid()
      reads this
    {
      size > 0 && (sort.Some? ==> sort.value.dir == 1 || sort.value.dir == -1)
    }

    /** The rows of the page shown. */
    function Shown<T>(ordered: seq<T>): seq<T>
      requires Valid()
      reads this
    {
      Page(ordered, page, size)
    }

    constructor (initialPageSize: nat)
      requires initialPageSize > 0
      ensures Valid() && sort == None && page == 0 && size == initialPageSize
    {
      sort, page, size := None, 0, initialPageSize;
    }

    /** Ascending on a new column; the other way round on the same one. */
    method SortBy(key: string)
      requires Valid()
      modifies this`sort
      ensures Valid() && sort.Some? && sort.value.key == key
      ensures sort.value.dir == (if old(sort).Some? && old(sort).value.key == key then -old(sort).value.dir else 1)
    {
      var dir := 1;
      if sort.Some? && sort.value.key == key { dir := -sort.value.dir; }
      sort := Some(SortState(key, dir));
    }

    /** The rows shown next follow on those shown before. */
    method Next<T>(ordered: seq<T>)
      requires Valid() && CurrentPage(page, |ordered|, size) != LastPage(|ordered|, size)
      modifies this`page
      ensures Valid() && 1 <= page <= LastPage(|ordered|, size)
      ensures old(Shown(ordered)) + Shown(ordered) == Slice(ordered, Multiple(page - 1, size), Multiple(page + 1, size))
      ensures |old(Shown(ordered))| == size && Shown(ordered) != []
    {
      page := CurrentPage(page, |ordered|, size) + 1;
      AdjacentPages(ordered, page - 1, size);
    }

    /** The rows shown next come right before those shown before, and fill the page. */
    method Previous<T>(ordered: seq<T>)
      requires Valid() && CurrentPage(page, |ordered|, size) != 0
      modifies this`page
      ensures Valid() && page < LastPage(|ordered|, size)
      ensures Shown(ordered) + old(Shown(ordered)) == Slice(ordered, Multiple(page, size), Multiple(page + 2, size))
      ensures |Shown(ordered)| == size && old(Shown(ordered)) != []
    {
      page := CurrentPage(page, |ordered|, size) - 1;
      AdjacentPages(ordered, page, size);
    }

    /** The first rows are shown, as many as the new size lets. */
    method Resize<T>(size': nat, ordered: seq<T>)
      requires size' > 0 && Valid()
      modifies this`page, this`size
      ensures Valid() && size == size'
      ensures Shown(ordered) == ordered[..if size' <= |ordered| then size' else |ordered|]
    {
      size := size';
      page := 0;
    }
  }

  // ---- Order

  lemma DirectedTotal<T(!new)>(le: (T, T) -> bool, dir: int)
    requires TotalPreorder(le)
    ensures TotalPreorder(Directed(le, dir))
  {
  }

  /**
   Sorting by the chosen column and then by group is one stable sort: by group,
   within a group by the column, and rows that tie in their given order.
   */
  lemma GroupedOrder<T(!new)>(rows: seq<T>, column: (T, T) -> bool, dir: int, group: T -> string, rank: string -> int)
    requires TotalPreorder(column)
    ensures var both := Lexicographic(ByGroup(group, rank), Directed(column, dir));
            var ordered := Ordered(rows, Some(column), dir, Some(group), rank);
            && ordered == Sort(both, rows)
            && Sorted(both, ordered) && multiset(ordered) == multiset(rows)
            && forall y :: Filter(Alike(both, y), ordered) == Filter(Alike(both, y), rows)
  {
    var major, minor := ByGroup(group, rank), Directed(column, dir);
    DirectedTotal(column, dir);
    assert TotalPreorder(major);
    TwoPasses(major, minor, rows);
    LexicographicTotal(major, minor);
    var both := Lexicographic(major, minor);
    SortSorted(both, rows);
    SortContents(both, rows);
    forall y
      ensures Filter(Alike(both, y), Sort(both, rows)) == Filter(Alike(both, y), rows)
    {
      SortStable(both, rows, y);
    }
  }

  /** The rows stand in this order: by group, ascending, and within a group by the column in its direction. */
  ghost predicate InOrder<T(!new)>(ordered: seq<T>, column: Option<(T, T) -> bool>, dir: int, group: Option<T -> string>, rank: string -> int) {
    forall i, j :: 0 <= i < j < |ordered| ==>
      var a, b := ordered[i], ordered[j];
      var same := group.None? || rank(group.value(a)) == rank(group.value(b));
      && (group.Some? ==> rank(group.value(a)) <= rank(group.value(b)))
      && (same && column.Some? ==> if dir == 1 then column.value(a, b) else column.value(b, a))
  }

  /**
   What a table shows, with and without a sorted column and with and without
   groups: the given rows, in that order; as they are if there is neither.
   */
  lemma OrderedExact<T(!new)>(rows: seq<T>, column: Option<(T, T) -> bool>, dir: int, group: Option<T -> string>, rank: string -> int)
    requires (column.Some? ==> TotalPreorder(column.value)) && (dir == 1 || dir == -1)
    ensures var ordered := Ordered(rows, column, dir, group, rank);
            && multiset(ordered) == multiset(rows)
            && InOrder(ordered, column, dir, group, rank)
            && (column.None? && group.None? ==> ordered == rows)
  {
    match (column, group)
    case (Some(c), Some(g)) => GroupedRows(rows, c, dir, g, rank);
    case (Some(c), None) => SortedRows(rows, c, dir, rank);
    case (None, Some(g)) =>
      SortSorted(ByGroup(g, rank), rows);
      SortContents(ByGroup(g, rank), rows);
    case (None, None) =>
  }

  lemma SortedRows<T(!new)>(rows: seq<T>, column: (T, T) -> bool, dir: int, rank: string -> int)
    requires TotalPreorder(column) && (dir == 1 || dir == -1)
    ensures var ordered := Sort(Directed(column, dir), rows);
            multiset(ordered) == multiset(rows) && InOrder(ordered, Some(column), dir, None, rank)
  {
    var le := Directed(column, dir);
    DirectedTotal(column, dir);
    hide TotalPreorder;
    SortSorted(le, rows);
    SortContents(le, rows);
    var ordered := Sort(le, rows);
    hide Sort;
    assert forall i, j :: 0 <= i < j < |ordered| ==> le(ordered[i], ordered[j]);
  }

  lemma GroupedRows<T(!new)>(rows: seq<T>, column: (T, T) -> bool, dir: int, group: T -> string, rank: string -> int)
    requires TotalPreorder(column) && (dir == 1 || dir == -1)
    ensures var ordered := Ordered(rows, Some(column), dir, Some(group), rank);
            multiset(ordered) == multiset(rows) && InOrder(ordered, Some(column), dir, Some(group), rank)
  {
    GroupedOrder(rows, column, dir, group, rank);
    hide TotalPreorder, Sort;
    var both := Lexicographic(ByGroup(group, rank), Directed(column, dir));
    var ordered := Ordered(rows, Some(column), dir, Some(group), rank);
    hide Ordered;
    assert forall i, j :: 0 <= i < j < |ordered| ==> both(ordered[i], ordered[j]);
  }

  /** Without a sorted column, the rows of a group stay in their given order. */
  lemma GroupsKeepOrder<T(!new)>(rows: seq<T>, dir: int, group: T -> string, rank: string -> int, y: T)
    ensures var same := x => rank(group(x)) == rank(group(y));
            Filter(same, Ordered(rows, None, dir, Some(group), rank)) == Filter(same, rows)
  {
    var le := ByGroup(group, rank);
    SortStable(le, rows, y);
    var same := x => rank(group(x)) == rank(group(y));
    FilterSame(Alike(le, y), same, rows);
    FilterSame(Alike(le, y), same, Sort(le, rows));
  }

  /**
   Sorting by a column the other way round turns the rows round when the column
   tells them apart, and leaves rows that tie in their given order.
   */
  lemma TurnedRound<T(!new)>(rows: seq<T>, column: (T, T) -> bool, dir: int, rank: string -> int, y: T)
    requires TotalPreorder(column) && (dir == 1 || dir == -1)
    ensures var there, back := Ordered(rows, Some(column), dir, None, rank), Ordered(rows, Some(column), -dir, None, rank);
            && Filter(Alike(column, y), back) == Filter(Alike(column, y), there) == Filter(Alike(column, y), rows)
            && (TellsApart(column, rows) ==> back == Reversed(there))
  {
    TiesKept(rows, column, dir, y);
    TiesKept(rows, column, -dir, y);
    if TellsApart(column, rows) {
      RowsReversed(rows, column, dir);
    }
  }

  /** No two rows tie in the column. */
  ghost predicate TellsApart<T(!new)>(column: (T, T) -> bool, rows: seq<T>) {
    forall a, b :: a in rows && b in rows && column(a, b) && column(b, a) ==> a == b
  }

  lemma TiesKept<T(!new)>(rows: seq<T>, column: (T, T) -> bool, dir: int, y: T)
    requires TotalPreorder(column)
    ensures Filter(Alike(column, y), Sort(Directed(column, dir), rows)) == Filter(Alike(column, y), rows)
  {
    var le := Directed(column, dir);
    DirectedTotal(column, dir);
    SortStable(le, rows, y);
    FilterSame(Alike(le, y), Alike(column, y), rows);
    FilterSame(Alike(le, y), Alike(column, y), Sort(le, rows));
  }

  lemma RowsReversed<T(!new)>(rows: seq<T>, column: (T, T) -> bool, dir: int)
    requires TotalPreorder(column) && (dir == 1 || dir == -1) && TellsApart(column, rows)
    ensures Sort(Directed(column, -dir), rows) == Reversed(Sort(Directed(column, dir), rows))
  {
    hide TotalPreorder, TellsApart;
    var le, ge := Directed(column, dir), Directed(column, -dir);
    var there, back := Sort(le, rows), Sort(ge, rows);
    DirectedTotal(column, dir);
    DirectedTotal(column, -dir);
    SortSorted(le, rows);
    SortSorted(ge, rows);
    SortContents(le, rows);
    SortContents(ge, rows);
    ReversedContents(there);
    assert Sorted(ge, Reversed(there));
    ContentsApart(column, dir, rows, back);
    SortedPermutation(ge, back, Reversed(there));
  }

  lemma ContentsApart<T(!new)>(column: (T, T) -> bool, dir: int, rows: seq<T>, back: seq<T>)
    requires TellsApart(column, rows) && multiset(back) == multiset(rows)
    ensures forall x, y :: x in back && y in back && Directed(column, -dir)(x, y) && Directed(column, -dir)(y, x) ==> x == y
  {
    assert forall x :: x in back ==> x in multiset(back);
  }

  function Reversed<T>(s: seq<T>): (r: seq<T>)
    ensures |r| == |s| && forall i :: 0 <= i < |s| ==> r[i] == s[|s| - 1 - i]
  {
    if s == [] then [] else Reversed(s[1..]) + [s[0]]
  }

  lemma {:induction false} ReversedContents<T>(s: seq<T>)
    ensures multiset(Reversed(s)) == multiset(s)
  {
    if s != [] {
      ReversedContents(s[1..]);
      assert s == [s[0]] + s[1..];
    }
  }

  lemma {:induction false} FilterSame<T>(p: T -> bool, q: T -> bool, s: seq<T>)
    requires forall x :: x in s ==> (p(x) <==> q(x))
    ensures Filter(p, s) == Filter(q, s)
  {
    if s != [] {
      FilterSame(p, q, s[1..]);
    }
  }

  // ---- Pages

  function Pages<T>(ordered: seq<T>, size: nat, count: nat): seq<T>
    requires size > 0
  {
    if count == 0 then [] else Pages(ordered, size, count - 1) + Page(ordered, count - 1, size)
  }

  lemma PageBounds(length: nat, size: nat, page: nat)
    requires size > 0 && page <= LastPage(length, size)
    ensures page * size >= 0 && (length > 0 ==> page * size < length)
    ensures page < LastPage(length, size) ==> (page + 1) * size <= length
    ensures page == LastPage(length, size) ==> (page + 1) * size >= length
  {
    var last := LastPage(length, size);
    Multiples(page, last, size);
    Multiples(last, last, size);
    if length > 0 {
      assert length - 1 == last * size + (length - 1) % size;
    }
  }

  lemma {:induction false} Multiples(a: nat, b: nat, k: nat)
    requires a <= b
    ensures 0 <= a * k <= b * k && (a + 1) * k == a * k + k
    ensures a < b ==> (a + 1) * k <= b * k
    decreases b
  {
    if a < b {
      Multiples(a, b - 1, k);
      assert b * k == (b - 1) * k + k;
    }
  }

  lemma NextSlice<T>(s: seq<T>, from: nat, to: nat)
    requires from <= to && (from < |s| || from == to || s == [])
    ensures Slice(s, 0, from) + Slice(s, from, to) == Slice(s, 0, to)
  {
  }

  lemma {:induction false} PagesPrefix<T>(ordered: seq<T>, size: nat, count: nat)
    requires size > 0 && count <= LastPage(|ordered|, size) + 1
    ensures count * size >= 0
    ensures Pages(ordered, size, count) == Slice(ordered, 0, count * size)
  {
    if count > 0 {
      hide LastPage;
      PagesPrefix(ordered, size, count - 1);
      PageBounds(|ordered|, size, count - 1);
      Multiples(count - 1, count - 1, size);
      NextSlice(ordered, (count - 1) * size, count * size);
    }
  }

  /**
   The pages from the first to the last show every row once and in order, none
   is longer than the page size, and a page number past the end shows the last.
   */
  lemma PagesPartition<T>(ordered: seq<T>, size: nat, page: nat)
    requires size > 0
    ensures Pages(ordered, size, LastPage(|ordered|, size) + 1) == ordered
    ensures |Page(ordered, page, size)| <= size
    ensures ordered != [] ==> Page(ordered, page, size) != []
    ensures page > LastPage(|ordered|, size) ==> Page(ordered, page, size) == Page(ordered, LastPage(|ordered|, size), size)
  {
    var last := LastPage(|ordered|, size);
    PagesPrefix(ordered, size, last + 1);
    PageBounds(|ordered|, size, last);
    var current := CurrentPage(page, |ordered|, size);
    PageBounds(|ordered|, size, current);
    Multiples(current, current, size);
    hide LastPage, Pages;
    Multiples(last, last, size);
    assert Pages(ordered, size, last + 1) == Slice(ordered, 0, (last + 1) * size);
  }

  /** Pages that follow each other show rows that follow each other, and the earlier one is full. */
  lemma AdjacentPages<T>(ordered: seq<T>, page: nat, size: nat)
    requires size > 0 && page < LastPage(|ordered|, size)
    ensures Page(ordered, page, size) + Page(ordered, page + 1, size)
         == Slice(ordered, Multiple(page, size), Multiple(page + 2, size))
    ensures |Page(ordered, page, size)| == size && Page(ordered, page + 1, size) != []
  {
    hide LastPage;
    PageBounds(|ordered|, size, page);
    PageBounds(|ordered|, size, page + 1);
    Multiples(page, page + 2, size);
    Multiples(page + 1, page + 1, size);
    HasRows(|ordered|, size, page);
  }

  lemma HasRows(length: nat, size: nat, page: nat)
    requires size > 0 && page < LastPage(length, size)
    ensures length > 0
  {
  }

  // ---- Headings

  /** Row h carries the heading of row i's group. */
  ghost predicate HeadingFor<T>(visible: seq<T>, group: T -> string, h: nat, i: nat)
    requires i < |visible|
  {
    h < |visible| && HasHeading(visible, group, h) && group(visible[h]) == group(visible[i])
  }

  /** The page is in group order, and the collation tells its group keys apart. */
  ghost predicate InGroups<T(!new)>(visible: seq<T>, group: T -> string, rank: string -> int) {
    && Sorted(ByGroup(group, rank), visible)
    && (forall i, j :: 0 <= i < |visible| && 0 <= j < |visible| && rank(group(visible[i])) == rank(group(visible[j]))
                       ==> group(visible[i]) == group(visible[j]))
  }

  /** On such a page the group of each row has exactly one heading, and not below the row. */
  lemma OneHeadingPerGroup<T(!new)>(visible: seq<T>, group: T -> string, rank: string -> int, i: nat)
    requires InGroups(visible, group, rank) && i < |visible|
    ensures exists h: nat :: h <= i && HeadingFor(visible, group, h, i) && forall k: nat :: HeadingFor(visible, group, k, i) ==> k == h
  {
    var h := NearestHeading(visible, group, i);
    forall k: nat | HeadingFor(visible, group, k, i)
      ensures k == h
    {
      if k < h {
        NoSecondHeading(visible, group, rank, k, h);
      } else if h < k {
        NoSecondHeading(visible, group, rank, h, k);
      }
    }
  }

  lemma {:induction false} NearestHeading<T>(visible: seq<T>, group: T -> string, i: nat) returns (h: nat)
    requires i < |visible|
    ensures h <= i && HeadingFor(visible, group, h, i)
  {
    h := i;
    if i > 0 && group(visible[i - 1]) == group(visible[i]) {
      h := NearestHeading(visible, group, i - 1);
    }
  }

  lemma NoSecondHeading<T(!new)>(visible: seq<T>, group: T -> string, rank: string -> int, a: nat, b: nat)
    requires InGroups(visible, group, rank) && a < b < |visible| && group(visible[a]) == group(visible[b])
    ensures !HasHeading(visible, group, b)
  {
    var le := ByGroup(group, rank);
    assert le(visible[b - 1], visible[b]);
    assert a < b - 1 ==> le(visible[a], visible[b - 1]);
  }
}
