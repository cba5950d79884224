/**
 * The live standings: for each category, keep the rows of that category,
 * sum the points per candidate, sort the sums from most to fewest points
 * and number the result 1, 2, 3, ...
 *
 * Each step is a function; the lemmas at the end state what the whole
 * pipeline promises: one entry per candidate seen in the category, each
 * entry's points the sum over exactly that candidate's rows, entries in
 * non-increasing order, positions 1..n, and a result that depends only on
 * which rows the sheet holds, not on their order.
 */
module Leaderboard {
  import opened Votes
  import opened TextOrder

  /** A candidate's name with its summed points. */
  type Group = (string, real)

  /** One line of a category's standings: Position, Candidat, Points. */
  datatype Standing = Standing(position: int, candidat: string, points: real)

  /** Some row of the sheet is a vote in category `cat` for candidate `c`. */
  predicate VotedFor(rows: seq<Row>, cat: string, c: string)
  {
    exists r :: r in rows && r.categorie == cat && r.candidat == c
  }

  // ---------------------------------------------------------------------
  // The pipeline
  // ---------------------------------------------------------------------

  /** The rows whose category is exactly `cat`, in sheet order. */
  function InCategory(rows: seq<Row>, cat: string): (r: seq<Row>)
    ensures forall x :: x in r <==> x in rows && x.categorie == cat
  {
    if rows == [] then []
    else
      var n := |rows| - 1;
      assert rows == rows[..n] + [rows[n]];
      InCategory(rows[..n], cat) + (if rows[n].categorie == cat then [rows[n]] else [])
  }

  /**
   * The filter keeps every row of the category as often as the sheet holds
   * it, and no other row.
   */
  lemma {:induction false} InCategoryCounts(rows: seq<Row>, cat: string)
    ensures forall x :: multiset(InCategory(rows, cat))[x] == if x.categorie == cat then multiset(rows)[x] else 0
  {
    if rows != [] {
      var n := |rows| - 1;
      InCategoryCounts(rows[..n], cat);
      assert rows == rows[..n] + [rows[n]];
    }
  }

  /** Keeping the rows of a category that every row belongs to keeps them all. */
  lemma {:induction false} InCategoryAll(rows: seq<Row>, cat: string)
    requires forall r :: r in rows ==> r.categorie == cat
    ensures InCategory(rows, cat) == rows
  {
    if rows != [] {
      var n := |rows| - 1;
      var front := rows[..n];
      InCategoryAll(front, cat);
      calc {
        InCategory(rows, cat);
        { assert rows[n] in rows; }
        InCategory(front, cat) + [rows[n]];
        front + [rows[n]];
        { assert rows == front + [rows[n]]; }
        rows;
      }
    }
  }

  /** The points of the rows for candidate `c`, summed. */
  function Total(rows: seq<Row>, c: string): real
  {
    if rows == [] then 0.0
    else
      var n := |rows| - 1;
      Total(rows[..n], c) + (if rows[n].candidat == c then rows[n].points else 0.0)
  }

  /** The candidates named by the rows, each once, in the order they first appear. */
  function Candidates(rows: seq<Row>): (cs: seq<string>)
    ensures Distinct(cs)
    ensures forall c :: c in cs <==> exists r :: r in rows && r.candidat == c
  {
    if rows == [] then []
    else
      var n := |rows| - 1;
      var seen := Candidates(rows[..n]);
      assert rows == rows[..n] + [rows[n]];
      if rows[n].candidat in seen then seen else seen + [rows[n].candidat]
  }

  /** Group the rows by candidate and sum each group's points. */
  function GroupSum(rows: seq<Row>): seq<Group>
  {
    var cs := Candidates(rows);
    seq(|cs|, i requires 0 <= i < |cs| => (cs[i], Total(rows, cs[i])))
  }

  /**
   * `a` may stand above `b`: more points, or as many and a name that does
   * not sort after `b`'s.
   */
  predicate AtLeast(a: Group, b: Group)
  {
    a.1 > b.1 || (a.1 == b.1 && !NameLess(b.0, a.0))
  }

  predicate Ranked(s: seq<Group>)
  {
    forall i, j :: 0 <= i < j < |s| ==> AtLeast(s[i], s[j])
  }

  /** Place `g` into the ranked list `s`. */
  function Insert(g: Group, s: seq<Group>): (r: seq<Group>)
    requires Ranked(s)
    ensures Ranked(r)
    ensures multiset(r) == multiset(s) + multiset{g}
  {
    if s == [] then [g]
    else if AtLeast(g, s[0]) then
      InsertAtHead(g, s);
      [g] + s
    else
      var rest := Insert(g, s[1..]);
      assert s == [s[0]] + s[1..];
      InsertBelowHead(g, s, rest);
      [s[0]] + rest
  }

  /** Sort groups from most to fewest points, ties by name. */
  function SortDesc(s: seq<Group>): (r: seq<Group>)
    ensures Ranked(r)
    ensures multiset(r) == multiset(s)
  {
    if s == [] then []
    else
      assert s == [s[0]] + s[1..];
      Insert(s[0], SortDesc(s[1..]))
  }

  /** Number the sorted groups 1, 2, 3, ... */
  function Number(s: seq<Group>): seq<Standing>
  {
    seq(|s|, i requires 0 <= i < |s| => Standing(i + 1, s[i].0, s[i].1))
  }

  /** The standings of one category. */
  function Standings(rows: seq<Row>, cat: string): seq<Standing>
  {
    Number(SortDesc(GroupSum(InCategory(rows, cat))))
  }

  /** The standings of every category of the form, in the form's order. */
  function AllStandings(rows: seq<Row>): seq<(string, seq<Standing>)>
  {
    seq(|Categories|, k requires 0 <= k < |Categories| =>
      (Categories[k].0, Standings(rows, Categories[k].0)))
  }

  // ---------------------------------------------------------------------
  // The reference sum
  // ---------------------------------------------------------------------

  /** The points of all rows of the sheet in category `cat` for candidate `c`, summed. */
  function CategoryTotal(rows: seq<Row>, cat: string, c: string): real
  {
    if rows == [] then 0.0
    else
      var n := |rows| - 1;
      var r := rows[n];
      CategoryTotal(rows[..n], cat, c) + (if r.categorie == cat && r.candidat == c then r.points else 0.0)
  }

  // ---------------------------------------------------------------------
  // The ranking order
  // ---------------------------------------------------------------------

  lemma AtLeastReflexive(a: Group)
    ensures AtLeast(a, a)
  {
    NameLessIrreflexive(a.0);
  }

  lemma AtLeastTotal(a: Group, b: Group)
    ensures AtLeast(a, b) || AtLeast(b, a)
  {
    NameLessTotal(a.0, b.0);
  }

  lemma AtLeastAntisymmetric(a: Group, b: Group)
    requires AtLeast(a, b) && AtLeast(b, a)
    ensures a == b
  {
    NameLessTotal(a.0, b.0);
  }

  lemma AtLeastTransitive(a: Group, b: Group, c: Group)
    requires AtLeast(a, b) && AtLeast(b, c)
    ensures AtLeast(a, c)
  {
    if a.1 == b.1 == c.1 && NameLess(c.0, a.0) {
      NameLessTotal(a.0, b.0);
      if NameLess(a.0, b.0) {
        NameLessTransitive(c.0, a.0, b.0);
      }
    }
  }

  lemma InsertAtHead(g: Group, s: seq<Group>)
    requires Ranked(s) && s != [] && AtLeast(g, s[0])
    ensures Ranked([g] + s)
  {
    forall j | 0 < j < |s|
      ensures AtLeast(g, s[j])
    {
      AtLeastTransitive(g, s[0], s[j]);
    }
  }

  lemma InsertBelowHead(g: Group, s: seq<Group>, rest: seq<Group>)
    requires Ranked(s) && s != [] && !AtLeast(g, s[0])
    requires Ranked(rest) && multiset(rest) == multiset(s[1..]) + multiset{g}
    ensures Ranked([s[0]] + rest)
  {
    AtLeastTotal(g, s[0]);
    forall j | 0 <= j < |rest|
      ensures AtLeast(s[0], rest[j])
    {
      assert rest[j] in multiset(rest);
      if rest[j] != g {
        assert rest[j] in s[1..];
      }
    }
  }

  /** The head of a ranked list may stand above every member of it. */
  lemma RankedHead(s: seq<Group>, x: Group)
    requires Ranked(s) && x in s
    ensures AtLeast(s[0], x)
  {
    if x == s[0] {
      AtLeastReflexive(x);
    }
  }

  /** Two ranked lists holding the same groups are the same list. */
  lemma {:induction false} RankedUnique(a: seq<Group>, b: seq<Group>)
    requires Ranked(a) && Ranked(b) && multiset(a) == multiset(b)
    ensures a == b
  {
    if a == [] || b == [] {
      assert |a| == |multiset(a)| == |multiset(b)| == |b|;
    } else {
      assert a[0] in multiset(b) && b[0] in multiset(a);
      RankedHead(a, b[0]);
      RankedHead(b, a[0]);
      AtLeastAntisymmetric(a[0], b[0]);
      assert a == [a[0]] + a[1..] && b == [b[0]] + b[1..];
      assert multiset(a) == multiset{a[0]} + multiset(a[1..]);
      assert multiset(b) == multiset{a[0]} + multiset(b[1..]);
      Cancel(a[0], multiset(a[1..]), multiset(b[1..]));
      RankedUnique(a[1..], b[1..]);
    }
  }

  // ---------------------------------------------------------------------
  // Counting and sums
  // ---------------------------------------------------------------------

  /** Taking the same element from two equal multisets leaves equal multisets. */
  lemma Cancel<T>(x: T, m: multiset<T>, k: multiset<T>)
    requires multiset{x} + m == multiset{x} + k
    ensures m == k
  {
    assert forall y :: m[y] == (multiset{x} + m)[y] - multiset{x}[y];
    assert forall y :: k[y] == (multiset{x} + k)[y] - multiset{x}[y];
  }

  /** In a list without repeats each value occurs at most once. */
  lemma {:induction false} DistinctCount<T>(s: seq<T>, x: T)
    requires Distinct(s)
    ensures multiset(s)[x] == if x in s then 1 else 0
  {
    if s != [] {
      var n := |s| - 1;
      assert s == s[..n] + [s[n]];
      DistinctCount(s[..n], x);
    }
  }

  /** A value at two places of a list occurs at least twice. */
  lemma Twice<T>(s: seq<T>, i: int, j: int)
    requires 0 <= i < j < |s| && s[i] == s[j]
    ensures multiset(s)[s[i]] >= 2
  {
    assert s == s[..j] + [s[j]] + s[j + 1..];
    assert s[i] in s[..j];
  }

  lemma {:induction false} CategoryTotalAppend(a: seq<Row>, b: seq<Row>, cat: string, c: string)
    ensures CategoryTotal(a + b, cat, c) == CategoryTotal(a, cat, c) + CategoryTotal(b, cat, c)
  {
    if b != [] {
      var n := |b| - 1;
      var x := b[n];
      var w := if x.categorie == cat && x.candidat == c then x.points else 0.0;
      assert a + b == (a + b[..n]) + [x];
      assert (a + b)[..|a + b| - 1] == a + b[..n];
      CategoryTotalAppend(a, b[..n], cat, c);
      assert CategoryTotal(a + b, cat, c) == CategoryTotal(a + b[..n], cat, c) + w;
      assert CategoryTotal(b, cat, c) == CategoryTotal(b[..n], cat, c) + w;
    } else {
      assert a + b == a;
    }
  }

  /** Summing the filtered rows per candidate gives the reference sum. */
  lemma {:induction false} TotalInCategory(rows: seq<Row>, cat: string, c: string)
    ensures Total(InCategory(rows, cat), c) == CategoryTotal(rows, cat, c)
  {
    if rows != [] {
      var n := |rows| - 1;
      var front := InCategory(rows[..n], cat);
      TotalInCategory(rows[..n], cat, c);
      if rows[n].categorie == cat {
        assert (front + [rows[n]])[..|front|] == front;
      } else {
        assert front + [] == front;
      }
    }
  }

  /** A candidate's total in a category does not depend on the order of the rows. */
  lemma {:induction false} CategoryTotalReorder(rows: seq<Row>, other: seq<Row>, cat: string, c: string)
    requires multiset(rows) == multiset(other)
    ensures CategoryTotal(rows, cat, c) == CategoryTotal(other, cat, c)
  {
    if rows == [] {
      assert |other| == |multiset(other)| == 0;
    } else {
      var n := |rows| - 1;
      var x := rows[n];
      assert rows == rows[..n] + [x];
      assert x in multiset(other);
      var j :| 0 <= j < |other| && other[j] == x;
      var rest := other[..j] + other[j + 1..];
      assert other == other[..j] + [x] + other[j + 1..];
      assert multiset(rows) == multiset{x} + multiset(rows[..n]);
      assert multiset(other) == multiset{x} + multiset(rest) by {
        assert other == other[..j] + [x] + other[j + 1..];
        assert rest == other[..j] + other[j + 1..];
      }
      Cancel(x, multiset(rows[..n]), multiset(rest));
      CategoryTotalReorder(rows[..n], rest, cat, c);
      CategoryTotalAppend(other[..j] + [x], other[j + 1..], cat, c);
      CategoryTotalAppend(other[..j], [x], cat, c);
      CategoryTotalAppend(other[..j], other[j + 1..], cat, c);
      assert CategoryTotal([x], cat, c) == (if x.categorie == cat && x.candidat == c then x.points else 0.0);
    }
  }

  /** A group is a candidate named by the rows, with that candidate's total. */
  lemma GroupSumMember(rows: seq<Row>, g: Group)
    requires g in GroupSum(rows)
    ensures g.1 == Total(rows, g.0)
    ensures exists r :: r in rows && r.candidat == g.0
  {
    var cs := Candidates(rows);
    var k :| 0 <= k < |cs| && GroupSum(rows)[k] == g;
    assert cs[k] in cs;
  }

  lemma GroupSumDistinct(rows: seq<Row>)
    ensures Distinct(GroupSum(rows))
  {
  }

  /**
   * Grouping a category's rows yields exactly the pairs of a candidate voted
   * for in that category and the candidate's total there.
   */
  lemma GroupsOfCategory(rows: seq<Row>, cat: string, g: Group)
    ensures g in GroupSum(InCategory(rows, cat))
        <==> VotedFor(rows, cat, g.0) && g.1 == CategoryTotal(rows, cat, g.0)
  {
    if g in GroupSum(InCategory(rows, cat)) {
      GroupOfCategoryVoted(rows, cat, g);
    }
    if VotedFor(rows, cat, g.0) && g.1 == CategoryTotal(rows, cat, g.0) {
      VotedHasGroup(rows, cat, g);
    }
  }

  lemma GroupOfCategoryVoted(rows: seq<Row>, cat: string, g: Group)
    requires g in GroupSum(InCategory(rows, cat))
    ensures VotedFor(rows, cat, g.0) && g.1 == CategoryTotal(rows, cat, g.0)
  {
    var filtered := InCategory(rows, cat);
    TotalInCategory(rows, cat, g.0);
    GroupSumMember(filtered, g);
    var r :| r in filtered && r.candidat == g.0;
    assert r in rows && r.categorie == cat;
  }

  lemma VotedHasGroup(rows: seq<Row>, cat: string, g: Group)
    requires VotedFor(rows, cat, g.0) && g.1 == CategoryTotal(rows, cat, g.0)
    ensures g in GroupSum(InCategory(rows, cat))
  {
    var filtered := InCategory(rows, cat);
    TotalInCategory(rows, cat, g.0);
    var r :| r in rows && r.categorie == cat && r.candidat == g.0;
    assert r in filtered;
    var cs := Candidates(filtered);
    assert g.0 in cs;
    var k :| 0 <= k < |cs| && cs[k] == g.0;
    assert GroupSum(filtered)[k] == g;
  }

  /** Two sheets holding the same rows hold the same set of rows. */
  lemma SameRows(rows: seq<Row>, other: seq<Row>, r: Row)
    requires multiset(rows) == multiset(other)
    ensures r in rows <==> r in other
  {
    assert r in rows <==> r in multiset(rows);
    assert r in other <==> r in multiset(other);
  }

  // ---------------------------------------------------------------------
  // What the standings promise
  // ---------------------------------------------------------------------

  /** Positions run 1..n down the list and points never increase down it. */
  lemma StandingsOrdered(rows: seq<Row>, cat: string)
    ensures var board := Standings(rows, cat);
      && (forall i :: 0 <= i < |board| ==> board[i].position == i + 1)
      && (forall i, j :: 0 <= i < j < |board| ==> board[i].points >= board[j].points)
  {
  }

  /**
   * Each entry is a candidate voted for in the category, and its points
   * are the sum of the points of exactly the rows of that category and
   * candidate.
   */
  lemma StandingsTotals(rows: seq<Row>, cat: string)
    ensures var board := Standings(rows, cat);
      forall i :: 0 <= i < |board| ==>
        VotedFor(rows, cat, board[i].candidat) &&
        board[i].points == CategoryTotal(rows, cat, board[i].candidat)
  {
    var groups := GroupSum(InCategory(rows, cat));
    var sorted := SortDesc(groups);
    forall i | 0 <= i < |sorted|
      ensures VotedFor(rows, cat, sorted[i].0) && sorted[i].1 == CategoryTotal(rows, cat, sorted[i].0)
    {
      assert sorted[i] in multiset(sorted);
      GroupsOfCategory(rows, cat, sorted[i]);
    }
  }

  /** No candidate has two entries. */
  lemma StandingsDistinct(rows: seq<Row>, cat: string)
    ensures var board := Standings(rows, cat);
      forall i, j :: 0 <= i < j < |board| ==> board[i].candidat != board[j].candidat
  {
    var groups := GroupSum(InCategory(rows, cat));
    var sorted := SortDesc(groups);
    GroupSumDistinct(InCategory(rows, cat));
    forall i, j | 0 <= i < j < |sorted|
      ensures sorted[i].0 != sorted[j].0
    {
      if sorted[i].0 == sorted[j].0 {
        assert sorted[i] in multiset(sorted) && sorted[j] in multiset(sorted);
        GroupsOfCategory(rows, cat, sorted[i]);
        GroupsOfCategory(rows, cat, sorted[j]);
        Twice(sorted, i, j);
        DistinctCount(groups, sorted[i]);
        assert false;
      }
    }
  }

  /** Every candidate voted for in the category has an entry. */
  lemma StandingsCover(rows: seq<Row>, cat: string, c: string)
    requires VotedFor(rows, cat, c)
    ensures var board := Standings(rows, cat);
      exists i :: 0 <= i < |board| && board[i].candidat == c
  {
    var groups := GroupSum(InCategory(rows, cat));
    var sorted := SortDesc(groups);
    var g := (c, CategoryTotal(rows, cat, c));
    GroupsOfCategory(rows, cat, g);
    assert g in multiset(sorted);
    var i :| 0 <= i < |sorted| && sorted[i] == g;
    assert Standings(rows, cat)[i].candidat == c;
  }

  /** A category nobody voted in has empty standings. */
  lemma StandingsEmpty(rows: seq<Row>, cat: string)
    requires forall r :: r in rows ==> r.categorie != cat
    ensures Standings(rows, cat) == []
  {
  }

  /** The standings depend only on which rows the sheet holds, not on their order. */
  lemma StandingsReorder(rows: seq<Row>, other: seq<Row>, cat: string)
    requires multiset(rows) == multiset(other)
    ensures Standings(rows, cat) == Standings(other, cat)
  {
    var g1 := GroupSum(InCategory(rows, cat));
    var g2 := GroupSum(InCategory(other, cat));
    GroupSumDistinct(InCategory(rows, cat));
    GroupSumDistinct(InCategory(other, cat));
    forall x: Group
      ensures multiset(g1)[x] == multiset(g2)[x]
    {
      GroupsOfCategory(rows, cat, x);
      GroupsOfCategory(other, cat, x);
      CategoryTotalReorder(rows, other, cat, x.0);
      if VotedFor(rows, cat, x.0) {
        var r :| r in rows && r.categorie == cat && r.candidat == x.0;
        SameRows(rows, other, r);
      }
      if VotedFor(other, cat, x.0) {
        var r :| r in other && r.categorie == cat && r.candidat == x.0;
        SameRows(rows, other, r);
      }
      DistinctCount(g1, x);
      DistinctCount(g2, x);
    }
    assert multiset(g1) == multiset(g2);
    RankedUnique(SortDesc(g1), SortDesc(g2));
  }

  /**
   * When every row is of the category and its groups are already ranked,
   * the standings are those groups numbered in that order.
   */
  lemma StandingsOfRanked(rows: seq<Row>, cat: string)
    requires forall r :: r in rows ==> r.categorie == cat
    requires Ranked(GroupSum(rows))
    ensures Standings(rows, cat) == Number(GroupSum(rows))
  {
    InCategoryAll(rows, cat);
    RankedUnique(SortDesc(GroupSum(rows)), GroupSum(rows));
  }

  /**
   * The display lists the form's categories once each, in the form's order,
   * and every entry under a category is a candidate voted for there, with
   * that candidate's reference total.
   */
  lemma AllStandingsTotals(rows: seq<Row>)
    ensures var boards := AllStandings(rows);
      && |boards| == |Categories|
      && (forall k :: 0 <= k < |boards| ==> boards[k].0 == Categories[k].0)
      && (forall k, i :: 0 <= k < |boards| && 0 <= i < |boards[k].1| ==>
            VotedFor(rows, boards[k].0, boards[k].1[i].candidat) &&
            boards[k].1[i].points == CategoryTotal(rows, boards[k].0, boards[k].1[i].candidat))
  {
    forall k | 0 <= k < |Categories|
      ensures var board := Standings(rows, Categories[k].0);
        forall i :: 0 <= i < |board| ==>
          VotedFor(rows, Categories[k].0, board[i].candidat) &&
          board[i].points == CategoryTotal(rows, Categories[k].0, board[i].candidat)
    {
      StandingsTotals(rows, Categories[k].0);
    }
  }

  /** The whole display depends only on which rows the sheet holds, not on their order. */
  lemma AllStandingsReorder(rows: seq<Row>, other: seq<Row>)
    requires multiset(rows) == multiset(other)
    ensures AllStandings(rows) == AllStandings(other)
  {
    forall k | 0 <= k < |Categories|
      ensures Standings(rows, Categories[k].0) == Standings(other, Categories[k].0)
    {
      StandingsReorder(rows, other, Categories[k].0);
    }
  }
}
