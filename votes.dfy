/**
 * Ballots and the rows they become.
 *
 * The vote sheet has the columns Nom, Categorie, Candidat, Position and
 * Points. A ballot lists, for each category of the form in the form's
 * order, the candidates the voter picked in rank order; saving it writes
 * one row per pick, scored by the points schedule.
 */
module Votes {

  /** One line of the vote sheet. */
  datatype Row = Row(nom: string, categorie: string, candidat: string, position: int, points: real)

  /** A category name with the candidates picked in it, best first. */
  type Picks = (string, seq<string>)

  /** The picks of one voter, in the order the form lists the categories. */
  type Ballot = seq<Picks>

  /** The categories of the form, in display order, each with its eligible candidates. */
  const Categories: seq<(string, seq<string>)> := [
    ("Meilleur gardien", ["Oussama", "Zakaria", "Abderrahmane", "Tarek"]),
    ("Meilleur club", ["MCA", "USMA", "CSC", "CRB"]),
    ("Meilleur joueur", ["Adel", "Aymen", "Ibrahim", "Salim"]),
    ("Meilleur entraîneur", ["Khaled", "Joseph", "Sead", "Bilal"])
  ]

  /** How many candidates the form lets a voter pick in one category. */
  const MaxSelections := 5

  /** The points schedule: rank 1 to 5 are worth 5, 3, 2, 1 and 0.5 points. */
  const Schedule: map<int, real> := map[1 := 5.0, 2 := 3.0, 3 := 2.0, 4 := 1.0, 5 := 0.5]

  /** The points a pick at 1-based rank `rank` earns; a rank outside the schedule earns nothing. */
  function PointsFor(rank: int): (p: real)
    ensures 0.0 <= p <= 5.0
    ensures p > 0.0 <==> 1 <= rank <= 5
  {
    if rank in Schedule then Schedule[rank] else 0.0
  }

  lemma ScheduleValues()
    ensures PointsFor(1) == 5.0 && PointsFor(2) == 3.0 && PointsFor(3) == 2.0
    ensures PointsFor(4) == 1.0 && PointsFor(5) == 0.5
    ensures forall rank :: !(1 <= rank <= 5) ==> PointsFor(rank) == 0.0
  {
  }

  /** A better rank never earns fewer points. */
  lemma ScheduleNonIncreasing(better: int, worse: int)
    requires 1 <= better <= worse
    ensures PointsFor(better) >= PointsFor(worse) >= 0.0
  {
  }

  /** The rows written for one category: the pick at 0-based index i gets Position i + 1. */
  function CategoryRows(nom: string, cat: string, picks: seq<string>): seq<Row>
  {
    if picks == [] then []
    else
      var n := |picks|;
      CategoryRows(nom, cat, picks[..n - 1]) + [Row(nom, cat, picks[n - 1], n, PointsFor(n))]
  }

  /** The number of picks over all categories of a ballot. */
  function TotalPicks(votes: Ballot): nat
  {
    if votes == [] then 0
    else TotalPicks(votes[..|votes| - 1]) + |votes[|votes| - 1].1|
  }

  /** The rows written for a whole ballot: category by category, each in rank order. */
  function BallotRows(nom: string, votes: Ballot): seq<Row>
  {
    if votes == [] then []
    else
      var last := votes[|votes| - 1];
      BallotRows(nom, votes[..|votes| - 1]) + CategoryRows(nom, last.0, last.1)
  }

  /** No value occurs twice in `s`. */
  predicate Distinct<T(==)>(s: seq<T>)
  {
    forall i, j :: 0 <= i < j < |s| ==> s[i] != s[j]
  }

  /** True when some row of the sheet carries exactly the name `nom`. */
  predicate Voted(rows: seq<Row>, nom: string)
  {
    exists r :: r in rows && r.nom == nom
  }

  /** Every row is scored by the schedule from its rank. */
  predicate Scored(rows: seq<Row>)
  {
    forall r :: r in rows ==> 1 <= r.position && r.points == PointsFor(r.position)
  }

  lemma {:induction false} CategoryRowsLength(nom: string, cat: string, picks: seq<string>)
    ensures |CategoryRows(nom, cat, picks)| == |picks|
  {
    if picks != [] {
      CategoryRowsLength(nom, cat, picks[..|picks| - 1]);
    }
  }

  /** The pick at 0-based index i becomes the row at index i, ranked i + 1 and scored by the schedule. */
  lemma {:induction false} CategoryRowsAt(nom: string, cat: string, picks: seq<string>, i: int)
    requires 0 <= i < |picks|
    ensures |CategoryRows(nom, cat, picks)| == |picks|
    ensures CategoryRows(nom, cat, picks)[i] == Row(nom, cat, picks[i], i + 1, PointsFor(i + 1))
  {
    var n := |picks|;
    CategoryRowsLength(nom, cat, picks);
    if i < n - 1 {
      CategoryRowsAt(nom, cat, picks[..n - 1], i);
    }
  }

  /** A ballot adds exactly as many rows as it has picks. */
  lemma {:induction false} BallotRowsLength(nom: string, votes: Ballot)
    ensures |BallotRows(nom, votes)| == TotalPicks(votes)
  {
    if votes != [] {
      var last := votes[|votes| - 1];
      BallotRowsLength(nom, votes[..|votes| - 1]);
      CategoryRowsLength(nom, last.0, last.1);
    }
  }

  /**
   * The pick at index i of the k-th category sits after all picks of the
   * earlier categories, at offset i: category order first, then rank order.
   */
  lemma {:induction false} BallotRowsAt(nom: string, votes: Ballot, k: int, i: int)
    requires 0 <= k < |votes| && 0 <= i < |votes[k].1|
    ensures TotalPicks(votes[..k]) + i < |BallotRows(nom, votes)|
    ensures BallotRows(nom, votes)[TotalPicks(votes[..k]) + i]
         == Row(nom, votes[k].0, votes[k].1[i], i + 1, PointsFor(i + 1))
  {
    var n := |votes| - 1;
    var front := votes[..n];
    var last := votes[n];
    BallotRowsLength(nom, front);
    if k < n {
      assert front[..k] == votes[..k];
      BallotRowsAt(nom, front, k, i);
    } else {
      assert votes[..k] == front;
      CategoryRowsAt(nom, last.0, last.1, i);
    }
  }

  /** Conversely, every row of a ballot comes from one of its picks. */
  lemma {:induction false} BallotRowsFromPicks(nom: string, votes: Ballot, r: Row)
    requires r in BallotRows(nom, votes)
    ensures exists k, i :: 0 <= k < |votes| && 0 <= i < |votes[k].1| &&
                           r == Row(nom, votes[k].0, votes[k].1[i], i + 1, PointsFor(i + 1))
  {
    var n := |votes| - 1;
    var front := votes[..n];
    var last := votes[n];
    if r in BallotRows(nom, front) {
      BallotRowsFromPicks(nom, front, r);
      var k, i :| 0 <= k < |front| && 0 <= i < |front[k].1| &&
                  r == Row(nom, front[k].0, front[k].1[i], i + 1, PointsFor(i + 1));
      assert front[k] == votes[k];
    } else {
      var rows := CategoryRows(nom, last.0, last.1);
      CategoryRowsLength(nom, last.0, last.1);
      var i :| 0 <= i < |rows| && rows[i] == r;
      CategoryRowsAt(nom, last.0, last.1, i);
    }
  }

  /** Every row a ballot writes carries the voter's name and is scored by the schedule. */
  lemma BallotRowsScored(nom: string, votes: Ballot)
    ensures Scored(BallotRows(nom, votes))
    ensures forall r :: r in BallotRows(nom, votes) ==> r.nom == nom
  {
    forall r | r in BallotRows(nom, votes)
      ensures 1 <= r.position && r.points == PointsFor(r.position) && r.nom == nom
    {
      BallotRowsFromPicks(nom, votes, r);
    }
  }

  /**
   * After a ballot is appended, a name counts as having voted exactly when
   * it did before, or it is the ballot's voter and the ballot picked at
   * least one candidate: a ballot with no picks leaves no trace of its voter.
   */
  lemma VotedAfterBallot(rows: seq<Row>, nom: string, votes: Ballot, who: string)
    ensures Voted(rows + BallotRows(nom, votes), who)
        <==> Voted(rows, who) || (who == nom && TotalPicks(votes) > 0)
  {
    var added := BallotRows(nom, votes);
    BallotRowsScored(nom, votes);
    BallotRowsLength(nom, votes);
    if Voted(rows + added, who) && !Voted(rows, who) {
      var r :| r in rows + added && r.nom == who;
      assert r in added;
    }
    if who == nom && TotalPicks(votes) > 0 {
      assert added[0] in rows + added;
    }
  }

  /**
   * A ballot the form can produce: the form's categories in the form's
   * order, each with at most MaxSelections candidates eligible there, none
   * picked twice (a multiselect holds each option once).
   */
  predicate FromForm(votes: Ballot)
  {
    |votes| == |Categories| &&
    forall k :: 0 <= k < |votes| ==>
      votes[k].0 == Categories[k].0 && |votes[k].1| <= MaxSelections && Distinct(votes[k].1) &&
      forall c :: c in votes[k].1 ==> c in Categories[k].1
  }

  /** A list without repeats has as many distinct values as elements. */
  lemma {:induction false} DistinctCard<T>(s: seq<T>)
    requires Distinct(s)
    ensures |set x | x in s| == |s|
  {
    if s != [] {
      var n := |s| - 1;
      DistinctCard(s[..n]);
      assert s[n] !in s[..n];
      assert (set x | x in s) == (set x | x in s[..n]) + {s[n]} by {
        assert s == s[..n] + [s[n]];
      }
    }
  }

  /** A list has at most as many distinct values as elements. */
  lemma {:induction false} SeqCard<T>(t: seq<T>)
    ensures |set x | x in t| <= |t|
  {
    if t != [] {
      var n := |t| - 1;
      SeqCard(t[..n]);
      assert (set x | x in t) == (set x | x in t[..n]) + {t[n]} by {
        assert t == t[..n] + [t[n]];
      }
    }
  }

  /** Picks without repeats, all taken from the offered list, are at most as many as the offers. */
  lemma DistinctPicksBound(picks: seq<string>, offered: seq<string>)
    requires Distinct(picks) && forall c :: c in picks ==> c in offered
    ensures |picks| <= |offered|
  {
    DistinctCard(picks);
    SeqCard(offered);
    SubsetCard(set x | x in picks, set x | x in offered);
  }

  lemma {:induction false} SubsetCard<T>(a: set<T>, b: set<T>)
    requires a <= b
    ensures |a| <= |b|
  {
    if a != {} {
      var x :| x in a;
      SubsetCard(a - {x}, b - {x});
    }
  }

  /**
   * A ballot from the form ranks every pick within the category's offers,
   * four in every category of the form, so no row reaches rank 5 and every
   * row earns at least one point; each row names a candidate eligible in
   * its category.
   */
  lemma FormBallotRows(nom: string, votes: Ballot)
    requires FromForm(votes)
    ensures forall r :: r in BallotRows(nom, votes) ==>
              1 <= r.position <= 4 && r.points >= 1.0 &&
              exists k :: 0 <= k < |Categories| && r.categorie == Categories[k].0 && r.candidat in Categories[k].1
  {
    forall r | r in BallotRows(nom, votes)
      ensures 1 <= r.position <= 4 && r.points >= 1.0
      ensures exists k :: 0 <= k < |Categories| && r.categorie == Categories[k].0 && r.candidat in Categories[k].1
    {
      BallotRowsFromPicks(nom, votes, r);
      var k, i :| 0 <= k < |votes| && 0 <= i < |votes[k].1| &&
                  r == Row(nom, votes[k].0, votes[k].1[i], i + 1, PointsFor(i + 1));
      assert votes[k].1[i] in votes[k].1;
      DistinctPicksBound(votes[k].1, Categories[k].1);
      ScheduleNonIncreasing(i + 1, 4);
    }
  }

  /**
   * The nested loop of the save: walk the categories in order and, within
   * each, the picks in rank order, appending one row per pick to `df`.
   */
  method AppendBallot(df: seq<Row>, nom: string, votes: Ballot) returns (out: seq<Row>)
    ensures out == df + BallotRows(nom, votes)
  {
    out := df;
    for k := 0 to |votes|
      invariant out == df + BallotRows(nom, votes[..k])
    {
      var cat, top5 := votes[k].0, votes[k].1;
      for i := 0 to |top5|
        invariant out == df + BallotRows(nom, votes[..k]) + CategoryRows(nom, cat, top5[..i])
      {
        assert top5[..i + 1][..i] == top5[..i];
        out := out + [Row(nom, cat, top5[i], i + 1, PointsFor(i + 1))];
      }
      assert top5[..|top5|] == top5;
      assert votes[..k + 1][..k] == votes[..k];
    }
    assert votes[..|votes|] == votes;
  }
}
