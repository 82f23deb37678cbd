/**
 * The query shape every listing in the controllers uses:
 * `findAll`/`findAndCountAll` with a `where` filter, an `order` on `match_date`,
 * and `limit`/`offset`. Rows are first taken in id order; the sort decides the
 * rest. Among rows with equal `match_date` the database guarantees no order, so
 * contracts speak of "sorted", not of one particular arrangement.
 */
module Listing {
  import opened Wrappers
  import opened Database

  datatype Direction = Asc | Desc

  predicate InOrder(a: Match, b: Match, dir: Direction) {
    if dir == Asc then a.match_date <= b.match_date else a.match_date >= b.match_date
  }

  /** Ordered by `match_date` in direction `dir` (each row in order with the next). */
  predicate SortedBy(s: seq<Match>, dir: Direction) {
    forall i :: 0 < i < |s| ==> InOrder(s[i - 1], s[i], dir)
  }

  /** Any two rows of a sorted sequence are in order, not only neighbours. */
  lemma {:induction false} SortedPairs(s: seq<Match>, dir: Direction, i: nat, j: nat)
    requires SortedBy(s, dir) && i <= j < |s|
    ensures InOrder(s[i], s[j], dir)
    decreases j - i
  {
    if i < j {
      SortedPairs(s, dir, i, j - 1);
    }
  }

  function InsertInOrder(x: Match, s: seq<Match>, dir: Direction): (r: seq<Match>)
    requires SortedBy(s, dir)
    ensures SortedBy(r, dir)
    ensures multiset(r) == multiset(s) + multiset{x}
    ensures |r| == |s| + 1
    ensures r[0] == x || (s != [] && r[0] == s[0])
  {
    if s == [] || InOrder(x, s[0], dir) then [x] + s
    else
      var rest := InsertInOrder(x, s[1..], dir);
      assert s == [s[0]] + s[1..];
      [s[0]] + rest
  }

  /** The `order: [['match_date', dir]]` clause: a sorted permutation of its input. */
  function SortByDate(s: seq<Match>, dir: Direction): (r: seq<Match>)
    ensures SortedBy(r, dir)
    ensures multiset(r) == multiset(s)
    ensures |r| == |s|
  {
    if s == [] then []
    else
      assert s == [s[0]] + s[1..];
      InsertInOrder(s[0], SortByDate(s[1..], dir), dir)
  }

  /** The `where` clause: the rows satisfying `p`, each as often as in `s`, in their order. */
  function Where(s: seq<Match>, p: Match -> bool): (r: seq<Match>)
    ensures |r| <= |s|
    ensures forall m :: multiset(r)[m] == if p(m) then multiset(s)[m] else 0
    ensures forall m :: m in r <==> m in s && p(m)
  {
    if s == [] then []
    else
      assert s == [s[0]] + s[1..];
      (if p(s[0]) then [s[0]] else []) + Where(s[1..], p)
  }

  /** Counting with a weaker filter never gives less. */
  lemma {:induction false} WhereCountMonotone(s: seq<Match>, p: Match -> bool, q: Match -> bool)
    requires forall m :: p(m) ==> q(m)
    ensures |Where(s, p)| <= |Where(s, q)|
  {
    if s != [] {
      WhereCountMonotone(s[1..], p, q);
    }
  }

  /** Two filters no row satisfies together never select more rows than there are. */
  lemma {:induction false} WhereDisjointCount(s: seq<Match>, p: Match -> bool, q: Match -> bool)
    requires forall m :: !(p(m) && q(m))
    ensures |Where(s, p)| + |Where(s, q)| <= |s|
  {
    if s != [] {
      WhereDisjointCount(s[1..], p, q);
    }
  }

  predicate IsUpcoming(m: Match) {
    m.status == Upcoming
  }

  predicate IsFinished(m: Match) {
    m.status == Finished
  }

  /** The empty `where` clause. */
  predicate AnyMatch(m: Match) {
    true
  }

  /** How many of `n` selected rows a page of `limit` rows starting at `offset` holds. */
  function PageLength(n: nat, offset: int, limit: nat): nat {
    var o := if offset < 0 then 0 else offset;
    if o >= n then 0 else if limit <= n - o then limit else n - o
  }

  /** The `LIMIT`/`OFFSET` clause; a negative offset reads as zero, as SQLite treats it. */
  function Window<T>(s: seq<T>, offset: int, limit: nat): (r: seq<T>)
    ensures |r| == PageLength(|s|, offset, limit)
    ensures |r| <= limit
    ensures 0 <= offset <= |s| ==> |r| == if limit <= |s| - offset then limit else |s| - offset
    ensures 0 <= offset ==> forall i :: 0 <= i < |r| ==> offset + i < |s| && r[i] == s[offset + i]
    ensures offset <= 0 ==> |r| == (if limit <= |s| then limit else |s|) && r == s[..|r|]
    ensures offset >= |s| ==> r == []
  {
    var o := if offset < 0 then 0 else if offset > |s| then |s| else offset;
    var n := if limit <= |s| - o then limit else |s| - o;
    s[o..o + n]
  }

  /** Paging is complete: element `i` is on page `i / limit + 1`, at position `i % limit`. */
  lemma WindowCovers<T>(s: seq<T>, limit: nat, i: nat)
    requires limit > 0 && i < |s|
    ensures var w := Window(s, (i / limit) * limit, limit);
      i % limit < |w| && w[i % limit] == s[i]
  {
    var o := (i / limit) * limit;
    assert o + i % limit == i;
    assert 0 <= o <= i;
  }

  /** Descending from a member of `ks` reaches the least member. */
  lemma {:induction false} LeastFrom(ks: set<nat>, n: nat) returns (k: nat)
    requires n in ks
    ensures k in ks && forall j :: j in ks ==> k <= j
    decreases n
  {
    if forall j :: j in ks ==> n <= j {
      k := n;
    } else {
      var j :| j in ks && j < n;
      k := LeastFrom(ks, j);
    }
  }

  lemma MinKeyExists(ks: set<nat>)
    requires ks != {}
    ensures exists k :: k in ks && forall j :: j in ks ==> k <= j
  {
    var x :| x in ks;
    var k := LeastFrom(ks, x);
  }

  function MinKey(ks: set<nat>): (k: nat)
    requires ks != {}
    ensures k in ks && forall j :: j in ks ==> k <= j
  {
    MinKeyExists(ks);
    var k :| k in ks && forall j :: j in ks ==> k <= j;
    k
  }

  function KeysAscending(ks: set<nat>): (r: seq<nat>)
    ensures |r| == |ks|
    ensures forall k :: k in ks <==> k in r
    ensures forall i, j :: 0 <= i < j < |r| ==> r[i] < r[j]
    decreases |ks|
  {
    if ks == {} then []
    else
      var k := MinKey(ks);
      var rest := KeysAscending(ks - {k});
      PrependLeast(ks, k, rest);
      [k] + rest
  }

  /** Putting the least key in front of the others, listed in ascending order, lists them all in ascending order. */
  lemma PrependLeast(ks: set<nat>, k: nat, rest: seq<nat>)
    requires k in ks && forall j :: j in ks ==> k <= j
    requires |rest| == |ks - {k}| && forall j :: j in ks - {k} <==> j in rest
    requires forall i, j :: 0 <= i < j < |rest| ==> rest[i] < rest[j]
    ensures |[k] + rest| == |ks|
    ensures forall j :: j in ks <==> j in [k] + rest
    ensures forall i, j :: 0 <= i < j < |[k] + rest| ==> ([k] + rest)[i] < ([k] + rest)[j]
  {
    var r := [k] + rest;
    forall i, j | 0 <= i < j < |r|
      ensures r[i] < r[j]
    {
      if i == 0 {
        assert r[j] == rest[j - 1] && r[j] in ks - {k};
      } else {
        assert r[i] == rest[i - 1] && r[j] == rest[j - 1];
      }
    }
  }

  /** The rows stored under the keys `ks`, in that order. */
  function RowsAt(rows: map<nat, Match>, ks: seq<nat>): (r: seq<Match>)
    requires forall i :: 0 <= i < |ks| ==> ks[i] in rows
    ensures |r| == |ks|
    ensures forall i :: 0 <= i < |ks| ==> r[i] == rows[ks[i]]
  {
    if ks == [] then [] else [rows[ks[0]]] + RowsAt(rows, ks[1..])
  }

  /** Reading every key of the table gives every row and nothing else. */
  lemma RowsAtCovers(rows: map<nat, Match>, ks: seq<nat>)
    requires forall k :: k in rows <==> k in ks
    ensures forall m :: m in RowsAt(rows, ks) <==> m in rows.Values
  {
    var r := RowsAt(rows, ks);
    forall m | m in rows.Values
      ensures m in r
    {
      var k :| k in rows && rows[k] == m;
      var i :| 0 <= i < |ks| && ks[i] == k;
      assert r[i] == m;
    }
    forall m | m in r
      ensures m in rows.Values
    {
      var i :| 0 <= i < |r| && r[i] == m;
      assert rows[ks[i]] == m;
    }
  }

  /** The table scanned in id order: each row once. */
  function Records(rows: map<nat, Match>): (r: seq<Match>)
    ensures |r| == |rows|
    ensures forall m :: m in r <==> m in rows.Values
  {
    var ks := KeysAscending(rows.Keys);
    RowsAtCovers(rows, ks);
    RowsAt(rows, ks)
  }

  /** The scan lists rows by increasing id, so no row appears twice. */
  lemma RecordsInIdOrder(rows: map<nat, Match>, nextId: nat)
    requires Keyed(rows, nextId)
    ensures var r := Records(rows); forall i, j :: 0 <= i < j < |r| ==> r[i].id < r[j].id
  {
    var ks := KeysAscending(rows.Keys);
    var r := Records(rows);
    forall i, j | 0 <= i < j < |r|
      ensures r[i].id < r[j].id
    {
      assert r[i] == rows[ks[i]] && r[j] == rows[ks[j]];
    }
  }

  /** The rows of the table that satisfy `p` (what `count` counts). */
  function Matching(rows: map<nat, Match>, p: Match -> bool): (r: seq<Match>)
    ensures forall m :: m in r <==> m in rows.Values && p(m)
    ensures |r| <= |rows|
  {
    Where(Records(rows), p)
  }

  lemma WindowMembers(s: seq<Match>, offset: int, limit: nat)
    ensures forall m :: m in Window(s, offset, limit) ==> m in s
  {
  }

  /** A page of a sorted listing is sorted. */
  lemma WindowSorted(s: seq<Match>, dir: Direction, offset: int, limit: nat)
    requires SortedBy(s, dir)
    ensures SortedBy(Window(s, offset, limit), dir)
  {
    var w := Window(s, offset, limit);
    var o := if offset < 0 then 0 else offset;
    forall i | 0 < i < |w|
      ensures InOrder(w[i - 1], w[i], dir)
    {
      assert w[i - 1] == s[o + i - 1] && w[i] == s[o + i];
    }
  }

  lemma SortedMembers(s: seq<Match>, dir: Direction)
    ensures forall m :: m in SortByDate(s, dir) <==> m in s
  {
    forall m
      ensures m in SortByDate(s, dir) <==> m in s
    {
      assert m in SortByDate(s, dir) <==> m in multiset(SortByDate(s, dir));
    }
  }

  /** `count({ where: p })`. */
  function Count(rows: map<nat, Match>, p: Match -> bool): (n: nat)
    ensures n <= |rows|
  {
    |Matching(rows, p)|
  }

  /** A stricter filter never counts more rows. */
  lemma CountMonotone(rows: map<nat, Match>, p: Match -> bool, q: Match -> bool)
    requires forall m :: p(m) ==> q(m)
    ensures Count(rows, p) <= Count(rows, q)
  {
    WhereCountMonotone(Records(rows), p, q);
  }

  /**
   * Page `offset`/`limit` of some arrangement of the selected rows by date. Rows
   * with equal `match_date` may come in any order, so the page is the window of
   * one of the sorted arrangements, not of a particular one.
   */
  ghost predicate IsPage(r: seq<Match>, rows: map<nat, Match>, p: Match -> bool, dir: Direction, offset: int, limit: nat) {
    exists s :: SortedBy(s, dir) && multiset(s) == multiset(Matching(rows, p)) && r == Window(s, offset, limit)
  }

  /** `findAll({ where: p, order: [['match_date', dir]], limit, offset })`. */
  function Query(rows: map<nat, Match>, p: Match -> bool, dir: Direction, offset: int, limit: nat): (r: seq<Match>)
    ensures IsPage(r, rows, p, dir, offset, limit)
    ensures |r| == PageLength(|Matching(rows, p)|, offset, limit)
    ensures forall m :: m in r ==> m in rows.Values && p(m)
    ensures SortedBy(r, dir)
  {
    var matching := Matching(rows, p);
    var sorted := SortByDate(matching, dir);
    WindowMembers(sorted, offset, limit);
    SortedMembers(matching, dir);
    WindowSorted(sorted, dir, offset, limit);
    assert SortedBy(sorted, dir) && multiset(sorted) == multiset(matching);
    Window(sorted, offset, limit)
  }

  /** In a sorted sequence, a row outside a first window comes after every row inside it. */
  lemma PrefixBoundary(s: seq<Match>, dir: Direction, n: nat, x: Match, m: Match)
    requires SortedBy(s, dir) && n <= |s|
    requires x in s[..n] && m in s && m !in s[..n]
    ensures InOrder(x, m, dir)
  {
    var i :| 0 <= i < |s| && s[i] == m;
    var j :| 0 <= j < n && s[..n][j] == x;
    SortedPairs(s, dir, j, i);
  }

  /**
   * A first page holds the first rows in date order: a selected row it leaves
   * out comes, in the page's direction, after every row it shows.
   */
  lemma FirstPageBoundary(r: seq<Match>, rows: map<nat, Match>, p: Match -> bool, dir: Direction, offset: int, limit: nat, x: Match, m: Match)
    requires offset <= 0 && IsPage(r, rows, p, dir, offset, limit)
    requires x in r && m in rows.Values && p(m) && m !in r
    ensures InOrder(x, m, dir)
  {
    var s :| SortedBy(s, dir) && multiset(s) == multiset(Matching(rows, p)) && r == Window(s, offset, limit);
    assert m in s by {
      assert m in multiset(Matching(rows, p));
    }
    PrefixBoundary(s, dir, |r|, x, m);
  }

  /** In a sorted sequence, the rows of a window come before the rows of any window past its end. */
  lemma WindowsOrdered(s: seq<Match>, dir: Direction, o1: nat, o2: nat, limit: nat, x: Match, y: Match)
    requires SortedBy(s, dir) && o1 + limit <= o2
    requires x in Window(s, o1, limit) && y in Window(s, o2, limit)
    ensures InOrder(x, y, dir)
  {
    var u := Window(s, o1, limit);
    var v := Window(s, o2, limit);
    var i :| 0 <= i < |u| && u[i] == x;
    var j :| 0 <= j < |v| && v[j] == y;
    SortedPairs(s, dir, o1 + i, o2 + j);
  }

  /** Rows on an earlier page come, in the listing's direction, before rows on a later page. */
  lemma QueryPagesOrdered(rows: map<nat, Match>, p: Match -> bool, dir: Direction, limit: nat, a: int, b: int, x: Match, y: Match)
    requires 1 <= a < b
    requires x in Query(rows, p, dir, (a - 1) * limit, limit) && y in Query(rows, p, dir, (b - 1) * limit, limit)
    ensures InOrder(x, y, dir)
  {
    var sorted := SortByDate(Matching(rows, p), dir);
    var o1, o2 := PageOffsets(a, b, limit);
    assert Query(rows, p, dir, (a - 1) * limit, limit) == Window(sorted, o1, limit);
    assert Query(rows, p, dir, (b - 1) * limit, limit) == Window(sorted, o2, limit);
    WindowsOrdered(sorted, dir, o1, o2, limit, x, y);
  }

  /** Page `a` ends no later than page `b` starts. */
  lemma PageOffsets(a: int, b: int, limit: nat) returns (o1: nat, o2: nat)
    requires 1 <= a < b
    ensures o1 == (a - 1) * limit && o2 == (b - 1) * limit && o1 + limit <= o2
  {
    var i: nat := a - 1;
    var j: nat := b - 1;
    assert i * limit + limit == (i + 1) * limit;
    assert (i + 1) * limit <= j * limit by {
      var d: nat := j - (i + 1);
      assert j * limit == (i + 1) * limit + d * limit;
    }
    o1, o2 := i * limit, j * limit;
  }

  /** A first page that can hold every element holds all of them. */
  lemma WindowWhole<T>(s: seq<T>, offset: int, limit: nat)
    requires offset <= 0 && |s| <= limit
    ensures Window(s, offset, limit) == s
  {
  }

  /** When every selected row fits on the first page, the page holds exactly those rows. */
  lemma QueryFirstPageComplete(rows: map<nat, Match>, p: Match -> bool, dir: Direction, offset: int, limit: nat)
    requires offset <= 0 && |Matching(rows, p)| <= limit
    ensures multiset(Query(rows, p, dir, offset, limit)) == multiset(Matching(rows, p))
  {
    var sorted := SortByDate(Matching(rows, p), dir);
    WindowWhole(sorted, offset, limit);
    assert Query(rows, p, dir, offset, limit) == sorted;
  }

  /** Row `m` is listed on page `page` (counted from 1) of `limit` rows each. */
  predicate OnPage(rows: map<nat, Match>, p: Match -> bool, dir: Direction, limit: nat, page: int, m: Match) {
    m in Query(rows, p, dir, (page - 1) * limit, limit)
  }

  /** Every element of `s` is on the page its position falls in. */
  lemma WindowPageOf<T>(s: seq<T>, limit: nat, x: T) returns (page: nat)
    requires limit > 0 && x in s
    ensures page >= 1 && x in Window(s, (page - 1) * limit, limit)
  {
    var i :| 0 <= i < |s| && s[i] == x;
    WindowCovers(s, limit, i);
    page := i / limit + 1;
    assert (page - 1) * limit == (i / limit) * limit;
  }

  /** Every row the filter selects is on some page of the listing. */
  lemma QueryPagesCoverMatching(rows: map<nat, Match>, p: Match -> bool, dir: Direction, limit: nat, m: Match)
    requires limit > 0
    requires m in rows.Values && p(m)
    ensures exists page :: page >= 1 && OnPage(rows, p, dir, limit, page, m)
  {
    var matching := Matching(rows, p);
    var sorted := SortByDate(matching, dir);
    SortedMembers(matching, dir);
    var page := WindowPageOf(sorted, limit, m);
    assert OnPage(rows, p, dir, limit, page, m);
  }
}
