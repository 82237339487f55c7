/**
 * Keyset pages over a list of rows: filter by the key to continue after, sort, cut off one page, and give the
 * last key when there is more. Keys are integers standing for tuples of strings in their order.
 */
module Paging {
  import opened Common

  datatype Row = Row(key: int, identity: string, value: int)

  ghost predicate Sorted(s: seq<Row>) { forall i, j | 0 <= i < j < |s| :: s[i].key <= s[j].key }

  // ---------------------------------------------------------------- sorting

  /** The row before every row whose key is no smaller. */
  function Insert(r: Row, s: seq<Row>): seq<Row> {
    if s == [] || r.key <= s[0].key then [r] + s else [s[0]] + Insert(r, s[1..])
  }

  /** The rows by key, and rows of one key in the order they were in. */
  function Sort(rows: seq<Row>): seq<Row> { if rows == [] then [] else Insert(rows[0], Sort(rows[1..])) }

  lemma {:induction false} InsertKeepsRows(r: Row, s: seq<Row>)
    ensures multiset(Insert(r, s)) == multiset(s) + multiset{r}
  {
    if s != [] && s[0].key < r.key {
      InsertKeepsRows(r, s[1..]);
      assert s == [s[0]] + s[1..];
    }
  }

  lemma {:induction false} InsertSorts(r: Row, s: seq<Row>)
    requires Sorted(s)
    ensures Sorted(Insert(r, s)) && Insert(r, s) != [] && (Insert(r, s)[0] == r || (s != [] && Insert(r, s)[0] == s[0]))
  {
    if s != [] && s[0].key < r.key {
      InsertSorts(r, s[1..]);
      ConsSorts(s[0], Insert(r, s[1..]));
    } else {
      ConsSorts(r, s);
    }
  }

  lemma ConsSorts(r: Row, s: seq<Row>)
    requires Sorted(s) && (s != [] ==> r.key <= s[0].key)
    ensures Sorted([r] + s)
  {
  }

  lemma {:induction false} SortSorts(rows: seq<Row>)
    ensures Sorted(Sort(rows))
  {
    if rows != [] {
      SortSorts(rows[1..]);
      InsertSorts(rows[0], Sort(rows[1..]));
    }
  }

  lemma {:induction false} SortKeepsRows(rows: seq<Row>)
    ensures multiset(Sort(rows)) == multiset(rows) && |Sort(rows)| == |rows|
  {
    if rows != [] {
      SortKeepsRows(rows[1..]);
      InsertKeepsRows(rows[0], Sort(rows[1..]));
      assert rows == [rows[0]] + rows[1..];
      assert |multiset(Sort(rows))| == |Sort(rows)|;
    }
  }

  /** Rows of one key keep the order they were in. */
  lemma {:induction false} SortIsStable(rows: seq<Row>, key: int)
    ensures OfKey(Sort(rows), key) == OfKey(rows, key)
  {
    if rows != [] {
      SortIsStable(rows[1..], key);
      InsertIsStable(rows[0], Sort(rows[1..]), key);
    }
  }

  ghost function OfKey(rows: seq<Row>, key: int): seq<Row> {
    if rows == [] then []
    else if rows[0].key == key then [rows[0]] + OfKey(rows[1..], key)
    else OfKey(rows[1..], key)
  }

  lemma OfKeyCons(r: Row, s: seq<Row>, key: int)
    ensures OfKey([r] + s, key) == if r.key == key then [r] + OfKey(s, key) else OfKey(s, key)
  {
    assert ([r] + s)[1..] == s;
  }

  lemma {:induction false} InsertIsStable(r: Row, s: seq<Row>, key: int)
    ensures OfKey(Insert(r, s), key) == if r.key == key then [r] + OfKey(s, key) else OfKey(s, key)
  {
    if s == [] || r.key <= s[0].key {
      OfKeyCons(r, s, key);
    } else {
      InsertIsStable(r, s[1..], key);
      OfKeyCons(s[0], Insert(r, s[1..]), key);
    }
  }

  lemma SortCons(r: Row, s: seq<Row>)
    ensures Sort([r] + s) == Insert(r, Sort(s))
  {
    assert ([r] + s)[1..] == s;
  }

  lemma InsertCons(r: Row, x: Row, s: seq<Row>)
    ensures Insert(r, [x] + s) == if r.key <= x.key then [r] + ([x] + s) else [x] + Insert(r, s)
  {
    assert ([x] + s)[1..] == s;
  }

  // ---------------------------------------------------------------- continuing after a key

  /** The rows whose key is greater. */
  function After(rows: seq<Row>, key: int): (r: seq<Row>)
    ensures |r| <= |rows| && (|r| == |rows| ==> forall i | 0 <= i < |rows| :: rows[i].key > key)
  {
    if rows == [] then []
    else if rows[0].key > key then [rows[0]] + After(rows[1..], key)
    else After(rows[1..], key)
  }

  function AfterAny(rows: seq<Row>, after: Option<int>): seq<Row> {
    if after.Some? then After(rows, after.value) else rows
  }

  lemma AfterCons(r: Row, s: seq<Row>, key: int)
    ensures After([r] + s, key) == if r.key > key then [r] + After(s, key) else After(s, key)
  {
    assert ([r] + s)[1..] == s;
  }

  lemma {:induction false} AfterKeepsAll(s: seq<Row>, key: int)
    requires forall i | 0 <= i < |s| :: s[i].key > key
    ensures After(s, key) == s
  {
    if s != [] { AfterKeepsAll(s[1..], key); }
  }

  lemma {:induction false} AfterInsert(r: Row, s: seq<Row>, key: int)
    requires Sorted(s)
    ensures After(Insert(r, s), key) == if r.key > key then Insert(r, After(s, key)) else After(s, key)
  {
    if s == [] || r.key <= s[0].key {
      AfterCons(r, s, key);
      if r.key > key { AfterKeepsAll(s, key); }
    } else {
      AfterInsert(r, s[1..], key);
      AfterCons(s[0], Insert(r, s[1..]), key);
      if s[0].key > key { InsertCons(r, s[0], After(s[1..], key)); }
    }
  }

  /** Filtering and then sorting is sorting and then filtering. */
  lemma {:induction false} SortCommutes(rows: seq<Row>, key: int)
    ensures Sort(After(rows, key)) == After(Sort(rows), key)
  {
    if rows != [] {
      var r, rest := rows[0], rows[1..];
      SortCommutes(rest, key);
      SortSorts(rest);
      AfterInsert(r, Sort(rest), key);
      SortCons(r, After(rest, key));
    }
  }

  /** In sorted rows what comes after a key is a suffix. */
  lemma {:induction false} AfterIsSuffix(s: seq<Row>, key: int) returns (k: nat)
    requires Sorted(s)
    ensures k <= |s| && After(s, key) == s[k..] && (k > 0 ==> s[k - 1].key <= key) && (k < |s| ==> s[k].key > key)
  {
    if s == [] || s[0].key > key {
      k := 0;
      AfterKeepsAll(s, key);
    } else {
      k := AfterIsSuffix(s[1..], key);
      k := k + 1;
    }
  }

  /** Continuing after a later key skips everything continuing after an earlier one did. */
  lemma {:induction false} AfterLater(rows: seq<Row>, first: int, second: int)
    requires first <= second
    ensures After(After(rows, first), second) == After(rows, second)
  {
    if rows != [] {
      AfterLater(rows[1..], first, second);
      AfterCons(rows[0], After(rows[1..], first), second);
    }
  }

  // ---------------------------------------------------------------- pages

  datatype Page = Page(items: seq<Row>, next: Option<int>, total: nat)

  /** The first rows of an ordered list, with the key to continue after when there are more. */
  function Cut(ordered: seq<Row>, limit: nat): Page
    requires limit >= 1
  {
    var page := if |ordered| <= limit + 1 then ordered else ordered[..limit + 1];
    var items := if |page| <= limit then page else page[..limit];
    Page(items, if |page| > limit && items != [] then Some(items[|items| - 1].key) else None, |ordered|)
  }

  /** One page of the rows after a key. */
  function PageOf(rows: seq<Row>, after: Option<int>, limit: nat): Page
    requires limit >= 1
  {
    Cut(Sort(AfterAny(rows, after)), limit)
  }

  lemma {:induction false} AfterIsGreater(rows: seq<Row>, key: int)
    ensures forall r | r in After(rows, key) :: r.key > key && r in rows
  {
    if rows != [] { AfterIsGreater(rows[1..], key); }
  }

  /** What is left of the sorted rows after a key. */
  ghost function Left(rows: seq<Row>, after: Option<int>): seq<Row> {
    if after.Some? then After(Sort(rows), after.value) else Sort(rows)
  }

  lemma CutTakesPrefix(ordered: seq<Row>, limit: nat)
    requires limit >= 1
    ensures
      var page := Cut(ordered, limit);
      && page.total == |ordered|
      && page.items == (if |ordered| <= limit then ordered else ordered[..limit])
      && page.next == if |ordered| > limit then Some(ordered[limit - 1].key) else None
  {
  }

  lemma LeftIsOrdered(rows: seq<Row>, after: Option<int>)
    ensures Sort(AfterAny(rows, after)) == Left(rows, after)
    ensures forall r | r in Left(rows, after) && after.Some? :: r.key > after.value
  {
    if after.Some? {
      SortCommutes(rows, after.value);
      AfterIsGreater(Sort(rows), after.value);
    }
  }

  lemma LeftIsFewer(rows: seq<Row>, after: Option<int>, i: nat)
    requires i < |Left(rows, after)|
    ensures
      var left := Left(rows, after);
      Left(rows, Some(left[i].key)) == After(left, left[i].key) && |After(left, left[i].key)| < |left|
  {
    LeftIsOrdered(rows, after);
    var left := Left(rows, after);
    assert left[i] in left;
    if after.Some? { AfterLater(Sort(rows), after.value, left[i].key); }
    AfterIsFewer(left, i);
  }

  /** A page is cut off what is left, and its next key leaves the rest: fewer rows, after a greater key. */
  lemma PageIsCutOffLeft(rows: seq<Row>, after: Option<int>, limit: nat)
    requires limit >= 1
    ensures
      var left, page := Left(rows, after), PageOf(rows, after, limit);
      && page.total == |left|
      && page.items == (if |left| <= limit then left else left[..limit])
      && (page.next.Some? <==> |left| > limit)
      && (page.next.Some? ==>
          && (after.Some? ==> page.next.value > after.value)
          && Left(rows, page.next) == After(left, left[limit - 1].key) && |Left(rows, page.next)| < |left|)
  {
    LeftIsOrdered(rows, after);
    var left := Left(rows, after);
    CutTakesPrefix(left, limit);
    if |left| > limit {
      assert left[limit - 1] in left;
      LeftIsFewer(rows, after, limit - 1);
    }
  }

  lemma AfterIsFewer(s: seq<Row>, i: nat)
    requires i < |s|
    ensures |After(s, s[i].key)| < |s|
  {
  }

  /** All rows that following the next keys gives, from sorted rows. */
  ghost function Walk(s: seq<Row>, limit: nat): seq<Row>
    requires limit >= 1
    decreases |s|
  {
    if |s| <= limit then s
    else s[..limit] + Walk(After(s, s[limit - 1].key), limit)
  }

  /** How many pages it takes. */
  ghost function PagesOf(s: seq<Row>, limit: nat): nat
    requires limit >= 1
    decreases |s|
  {
    if |s| <= limit then 1
    else 1 + PagesOf(After(s, s[limit - 1].key), limit)
  }

  /** Walking what is left takes its page, and then what the next key leaves. */
  lemma WalkTakesPage(rows: seq<Row>, after: Option<int>, limit: nat)
    requires limit >= 1
    ensures
      var left, page := Left(rows, after), PageOf(rows, after, limit);
      if page.next.None? then Walk(left, limit) == page.items && PagesOf(left, limit) == 1
      else
        Walk(left, limit) == page.items + Walk(Left(rows, page.next), limit)
        && PagesOf(left, limit) == 1 + PagesOf(Left(rows, page.next), limit)
  {
    PageIsCutOffLeft(rows, after, limit);
  }

  /** No two rows on either side of the end of a page have the same key. */
  ghost predicate NoTieAtACut(s: seq<Row>, limit: nat)
    requires limit >= 1
  {
    |s| <= limit || (s[limit - 1].key < s[limit].key && NoTieAtACut(s[limit..], limit))
  }

  lemma RestAfterPage(s: seq<Row>, limit: nat)
    requires Sorted(s) && 1 <= limit < |s|
    ensures var rest := After(s, s[limit - 1].key);
      && |rest| <= |s| - limit && Sorted(rest)
      && (|rest| == |s| - limit <==> s[limit - 1].key < s[limit].key)
      && (|rest| == |s| - limit ==> rest == s[limit..])
  {
    var k := AfterIsSuffix(s, s[limit - 1].key);
    assert k >= limit;
  }

  lemma {:induction false} WalkIsNoLonger(s: seq<Row>, limit: nat)
    requires Sorted(s) && limit >= 1
    ensures |Walk(s, limit)| <= |s|
    decreases |s|
  {
    if |s| > limit {
      RestAfterPage(s, limit);
      WalkIsNoLonger(After(s, s[limit - 1].key), limit);
    }
  }

  /** Following next keys gives every row exactly once, in order, exactly when no tie falls on the end of a
      page. */
  lemma {:induction false} WalkIsCompleteIffNoTie(s: seq<Row>, limit: nat)
    requires Sorted(s) && limit >= 1
    ensures Walk(s, limit) == s <==> NoTieAtACut(s, limit)
    decreases |s|
  {
    if |s| > limit {
      RestAfterPage(s, limit);
      var rest := After(s, s[limit - 1].key);
      if |rest| == |s| - limit {
        WalkIsCompleteIffNoTie(rest, limit);
        SamePrefix(s[..limit], Walk(rest, limit), s[limit..]);
        assert s == s[..limit] + s[limit..];
      } else {
        WalkIsNoLonger(rest, limit);
        assert |Walk(s, limit)| < |s|;
      }
    }
  }

  lemma SamePrefix(front: seq<Row>, a: seq<Row>, b: seq<Row>)
    ensures front + a == front + b <==> a == b
  {
    if front + a == front + b { assert a == (front + a)[|front|..] && b == (front + b)[|front|..]; }
  }

  /** Without a tie there are as many pages as it takes to hold the rows, and one when there are none. */
  lemma {:induction false} PagesNeeded(s: seq<Row>, limit: nat)
    requires Sorted(s) && limit >= 1 && NoTieAtACut(s, limit)
    ensures var n := PagesOf(s, limit);
      if s == [] then n == 1 else (n - 1) * limit < |s| <= n * limit
    decreases |s|
  {
    if |s| > limit {
      RestAfterPage(s, limit);
      PagesNeeded(s[limit..], limit);
      var n := PagesOf(s[limit..], limit);
      Multiply(n, limit);
      Multiply(n - 1, limit);
    }
  }

  lemma Multiply(n: int, k: nat)
    ensures (n + 1) * k == n * k + k
  {
  }

  ghost predicate StrictlySorted(s: seq<Row>) { forall i, j | 0 <= i < j < |s| :: s[i].key < s[j].key }

  lemma {:induction false} DistinctNeighboursHaveNoTie(s: seq<Row>, limit: nat)
    requires limit >= 1 && StrictlySorted(s)
    ensures NoTieAtACut(s, limit)
    decreases |s|
  {
    if |s| > limit { DistinctNeighboursHaveNoTie(s[limit..], limit); }
  }

  lemma {:induction false} InsertSortsStrictly(r: Row, s: seq<Row>)
    requires StrictlySorted(s) && forall x | x in s :: x.key != r.key
    ensures StrictlySorted(Insert(r, s)) && forall x :: x in Insert(r, s) <==> x == r || x in s
  {
    if s != [] && s[0].key < r.key {
      assert s == [s[0]] + s[1..];
      InsertSortsStrictly(r, s[1..]);
      ConsSortsStrictly(s[0], Insert(r, s[1..]));
    } else {
      if s != [] { assert s[0] in s; }
      ConsSortsStrictly(r, s);
    }
  }

  lemma ConsSortsStrictly(r: Row, s: seq<Row>)
    requires StrictlySorted(s) && forall x | x in s :: r.key < x.key
    ensures StrictlySorted([r] + s)
  {
  }

  lemma {:induction false} SortSortsStrictly(rows: seq<Row>)
    requires forall i, j | 0 <= i < j < |rows| :: rows[i].key != rows[j].key
    ensures StrictlySorted(Sort(rows)) && forall x :: x in Sort(rows) <==> x in rows
  {
    if rows != [] {
      SortSortsStrictly(rows[1..]);
      InsertSortsStrictly(rows[0], Sort(rows[1..]));
    }
  }

  /** Distinct keys are enough. */
  lemma DistinctKeysHaveNoTie(rows: seq<Row>, limit: nat)
    requires limit >= 1 && forall i, j | 0 <= i < j < |rows| :: rows[i].key != rows[j].key
    ensures NoTieAtACut(Sort(rows), limit)
  {
    SortSortsStrictly(rows);
    DistinctNeighboursHaveNoTie(Sort(rows), limit);
  }

  /** A tie on the end of a page loses a row: of two rows of one key a page of one gives the first only. */
  lemma TieLosesARow()
    ensures
      var s := [Row(1, "a", 0), Row(1, "b", 0)];
      Sorted(s) && Walk(s, 1) == [s[0]]
  {
    var s := [Row(1, "a", 0), Row(1, "b", 0)];
    assert s[..1] == [s[0]];
    var k := AfterIsSuffix(s, 1);
    assert k == 2;
  }
}
