/**
 * Worked examples: ballots become rows, the rows become standings.
 */
module Scenarios {
  import opened Votes
  import opened Leaderboard

  /** "Amine" ranks MCA first and USMA second for best club: two rows, MCA on 5 points above USMA on 3. */
  lemma OneBallot(rows: seq<Row>)
    requires rows == BallotRows("Amine", [("Meilleur club", ["MCA", "USMA"])])
    ensures rows == [Row("Amine", "Meilleur club", "MCA", 1, 5.0), Row("Amine", "Meilleur club", "USMA", 2, 3.0)]
    ensures Standings(rows, "Meilleur club") == [Standing(1, "MCA", 5.0), Standing(2, "USMA", 3.0)]
  {
    var mca := Row("Amine", "Meilleur club", "MCA", 1, 5.0);
    var usma := Row("Amine", "Meilleur club", "USMA", 2, 3.0);
    assert CategoryRows("Amine", "Meilleur club", ["MCA"]) == [mca];
    OneBallotStandings(mca, usma);
  }

  lemma OneBallotStandings(mca: Row, usma: Row)
    requires mca == Row("Amine", "Meilleur club", "MCA", 1, 5.0)
    requires usma == Row("Amine", "Meilleur club", "USMA", 2, 3.0)
    ensures Standings([mca, usma], "Meilleur club") == [Standing(1, "MCA", 5.0), Standing(2, "USMA", 3.0)]
  {
    OneBallotGroups(mca, usma);
    var g := GroupSum([mca, usma]);
    assert g == [("MCA", 5.0), ("USMA", 3.0)];
    StandingsOfRanked([mca, usma], "Meilleur club");
    assert Number(g) == [Standing(1, "MCA", 5.0), Standing(2, "USMA", 3.0)];
  }

  lemma OneBallotGroups(mca: Row, usma: Row)
    requires mca.candidat == "MCA" && usma.candidat == "USMA"
    requires mca.points == 5.0 && usma.points == 3.0
    ensures GroupSum([mca, usma]) == [("MCA", 5.0), ("USMA", 3.0)]
  {
    assert [mca, usma][..1] == [mca] && [mca][..0] == [];
    assert "MCA" != "USMA" by { assert |"MCA"| == 3 && |"USMA"| == 4; }
    assert Candidates([mca]) == ["MCA"];
    assert Candidates([mca, usma]) == ["MCA", "USMA"];
    assert Total([], "MCA") == 0.0 && Total([], "USMA") == 0.0;
    assert Total([mca], "MCA") == 5.0;
    assert Total([mca], "USMA") == 0.0;
  }

  /** Two voters both rank CRB first and CSC second: CRB on 10 points above CSC on 6. */
  lemma TwoVoters(rows: seq<Row>)
    requires rows == BallotRows("Amine", [("Meilleur club", ["CRB", "CSC"])])
                   + BallotRows("Yacine", [("Meilleur club", ["CRB", "CSC"])])
    ensures Standings(rows, "Meilleur club") == [Standing(1, "CRB", 10.0), Standing(2, "CSC", 6.0)]
  {
    var a1 := Row("Amine", "Meilleur club", "CRB", 1, 5.0);
    var a2 := Row("Amine", "Meilleur club", "CSC", 2, 3.0);
    var y1 := Row("Yacine", "Meilleur club", "CRB", 1, 5.0);
    var y2 := Row("Yacine", "Meilleur club", "CSC", 2, 3.0);
    assert CategoryRows("Amine", "Meilleur club", ["CRB"]) == [a1];
    assert CategoryRows("Yacine", "Meilleur club", ["CRB"]) == [y1];
    assert rows == [a1, a2, y1, y2];
    TwoVotersStandings(a1, a2, y1, y2);
  }

  lemma TwoVotersStandings(a1: Row, a2: Row, y1: Row, y2: Row)
    requires a1.categorie == a2.categorie == y1.categorie == y2.categorie == "Meilleur club"
    requires a1.candidat == y1.candidat == "CRB" && a2.candidat == y2.candidat == "CSC"
    requires a1.points == y1.points == 5.0 && a2.points == y2.points == 3.0
    ensures Standings([a1, a2, y1, y2], "Meilleur club") == [Standing(1, "CRB", 10.0), Standing(2, "CSC", 6.0)]
  {
    var rows := [a1, a2, y1, y2];
    TwoVotersGroups(a1, a2, y1, y2);
    TwoVotersRanked(GroupSum(rows));
    StandingsOfRanked(rows, "Meilleur club");
  }

  lemma TwoVotersRanked(g: seq<Group>)
    requires g == [("CRB", 10.0), ("CSC", 6.0)]
    ensures Ranked(g)
    ensures Number(g) == [Standing(1, "CRB", 10.0), Standing(2, "CSC", 6.0)]
  {
    assert AtLeast(g[0], g[1]);
  }

  lemma TwoVotersGroups(a1: Row, a2: Row, y1: Row, y2: Row)
    requires a1.candidat == y1.candidat == "CRB" && a2.candidat == y2.candidat == "CSC"
    requires a1.points == y1.points == 5.0 && a2.points == y2.points == 3.0
    ensures GroupSum([a1, a2, y1, y2]) == [("CRB", 10.0), ("CSC", 6.0)]
  {
    TwoVotersCandidates(a1, a2, y1, y2);
    TwoVotersTotals(a1, a2, y1, y2);
  }

  lemma TwoVotersCandidates(a1: Row, a2: Row, y1: Row, y2: Row)
    requires a1.candidat == y1.candidat == "CRB" && a2.candidat == y2.candidat == "CSC"
    ensures Candidates([a1, a2, y1, y2]) == ["CRB", "CSC"]
  {
    assert [a1, a2, y1, y2][..3] == [a1, a2, y1] && [a1, a2, y1][..2] == [a1, a2];
    assert [a1, a2][..1] == [a1] && [a1][..0] == [];
    assert "CRB" != "CSC";
    assert Candidates([a1]) == ["CRB"];
    assert Candidates([a1, a2]) == ["CRB", "CSC"];
    assert Candidates([a1, a2, y1]) == ["CRB", "CSC"];
  }

  lemma TwoVotersTotals(a1: Row, a2: Row, y1: Row, y2: Row)
    requires a1.candidat == y1.candidat == "CRB" && a2.candidat == y2.candidat == "CSC"
    requires a1.points == y1.points == 5.0 && a2.points == y2.points == 3.0
    ensures Total([a1, a2, y1, y2], "CRB") == 10.0 && Total([a1, a2, y1, y2], "CSC") == 6.0
  {
    assert [a1, a2, y1, y2][..3] == [a1, a2, y1] && [a1, a2, y1][..2] == [a1, a2];
    assert [a1, a2][..1] == [a1] && [a1][..0] == [];
    assert "CRB" != "CSC";
    assert Total([], "CRB") == 0.0 && Total([], "CSC") == 0.0;
    assert Total([a1], "CRB") == 5.0;
    assert Total([a1], "CSC") == 0.0;
    assert Total([a1, a2], "CRB") == 5.0 && Total([a1, a2], "CSC") == 3.0;
    assert Total([a1, a2, y1], "CRB") == 10.0 && Total([a1, a2, y1], "CSC") == 3.0;
  }
}
