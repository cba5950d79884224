/**
 * The vote sheet and the two things a submission does to it: the guard on
 * the voter's name, then the save that refuses a name already on the sheet
 * and otherwise appends one row per pick.
 */
module VoteLedger {
  import opened Votes

  // ---------------------------------------------------------------------
  // The blank-name guard
  // ---------------------------------------------------------------------

  /** The characters Python's `str.strip()` removes by default (those `str.isspace()` accepts). */
  predicate IsSpace(c: char)
  {
    c == ' ' || '\t' <= c <= '\r' || '\U{1c}' <= c <= '\U{1f}' ||
    c == '\U{85}' || c == '\U{a0}' || c == '\U{1680}' || '\U{2000}' <= c <= '\U{200a}' ||
    c == '\U{2028}' || c == '\U{2029}' || c == '\U{202f}' || c == '\U{205f}' || c == '\U{3000}'
  }

  /** `s` without its leading white space. */
  function TrimStart(s: string): (r: string)
    ensures |r| <= |s| && r == s[|s| - |r|..]
    ensures forall i :: 0 <= i < |s| - |r| ==> IsSpace(s[i])
    ensures r == [] || !IsSpace(r[0])
  {
    if s != [] && IsSpace(s[0]) then TrimStart(s[1..]) else s
  }

  /** `s` without its trailing white space. */
  function TrimEnd(s: string): (r: string)
    ensures |r| <= |s| && r == s[..|r|]
    ensures forall i :: |r| <= i < |s| ==> IsSpace(s[i])
    ensures r == [] || !IsSpace(r[|r| - 1])
  {
    if s != [] && IsSpace(s[|s| - 1]) then TrimEnd(s[..|s| - 1]) else s
  }

  /** `s.strip()`: the part of `s` between its leading and trailing white space. */
  function Strip(s: string): (r: string)
  {
    TrimEnd(TrimStart(s))
  }

  /** The guard's test `not nom.strip()`. */
  predicate IsBlank(nom: string)
  {
    Strip(nom) == []
  }

  /** A name is blank exactly when every character of it is white space. */
  lemma BlankIffAllSpace(nom: string)
    ensures IsBlank(nom) <==> forall i :: 0 <= i < |nom| ==> IsSpace(nom[i])
  {
  }

  // ---------------------------------------------------------------------
  // The sheet
  // ---------------------------------------------------------------------

  /** What a submission comes to. */
  datatype Outcome = MissingName | AlreadyVoted | Recorded

  class Ledger {
    /** The rows of the vote sheet, in the order they were written. */
    var rows: seq<Row>

    /** Every row is scored by the schedule and no row carries a blank name. */
    ghost predicate Valid()
      reads this
    {
      Scored(rows) && forall r :: r in rows ==> !IsBlank(r.nom)
    }

    /** Before the first vote there is no sheet: no rows. */
    constructor ()
      ensures rows == [] && Valid()
    {
      rows := [];
    }

    /**
     * Refuse a name already on the sheet, compared exactly; otherwise
     * append one row per pick, category by category and rank by rank.
     */
    method SaveVote(nom: string, votes: Ballot) returns (saved: bool)
      modifies this
      ensures saved <==> !Voted(old(rows), nom)
      ensures rows == if saved then old(rows) + BallotRows(nom, votes) else old(rows)
      ensures |rows| == |old(rows)| + (if saved then TotalPicks(votes) else 0)
      ensures Scored(old(rows)) ==> Scored(rows)
    {
      var df := rows;
      if Voted(df, nom) {
        return false;
      }
      df := AppendBallot(df, nom, votes);
      BallotRowsLength(nom, votes);
      BallotRowsScored(nom, votes);
      rows := df;
      return true;
    }

    /**
     * A submission: a name that is blank once stripped is refused before
     * the sheet is touched; any other name, as typed, goes to SaveVote.
     */
    method Submit(nom: string, votes: Ballot) returns (outcome: Outcome)
      modifies this
      ensures outcome == if IsBlank(nom) then MissingName
                         else if Voted(old(rows), nom) then AlreadyVoted
                         else Recorded
      ensures rows == if outcome == Recorded then old(rows) + BallotRows(nom, votes) else old(rows)
      ensures old(Valid()) ==> Valid()
    {
      if IsBlank(nom) {
        return MissingName;
      }
      var saved := SaveVote(nom, votes);
      BallotRowsScored(nom, votes);
      outcome := if saved then Recorded else AlreadyVoted;
    }
  }

  /** One voter: a ballot recorded, then the same name refused. */
  method VoteTwice()
  {
    var ledger := new Ledger();
    var ballot := [("Meilleur club", ["MCA", "USMA"])];
    BallotRowsLength("Amine", ballot);
    BallotRowsAt("Amine", ballot, 0, 0);
    BallotRowsAt("Amine", ballot, 0, 1);
    ScheduleValues();
    var amine := [Row("Amine", "Meilleur club", "MCA", 1, 5.0), Row("Amine", "Meilleur club", "USMA", 2, 3.0)];
    assert BallotRows("Amine", ballot) == amine;
    BlankIffAllSpace("Amine");
    assert !IsSpace('A');

    var first := ledger.Submit("Amine", ballot);
    assert first == Recorded && ledger.rows == amine;

    assert amine[0] in ledger.rows;
    var second := ledger.Submit("Amine", [("Meilleur gardien", ["Tarek"])]);
    assert second == AlreadyVoted && ledger.rows == amine;
  }

  /** The name is stored and compared as typed: the same name with a leading space is another voter. */
  method PaddedName()
  {
    var ledger := new Ledger();
    var ballot := [("Meilleur club", ["MCA"])];
    var name, padded := "Amine", " Amine";
    assert !IsSpace(name[0]) && padded[1] == name[0] && |padded| != |name|;
    NotBlank(name, 0);
    NotBlank(padded, 1);

    var first := ledger.Submit(name, ballot);
    assert first == Recorded;
    BallotRowsScored(name, ballot);
    assert !Voted(ledger.rows, padded);
    var second := ledger.Submit(padded, ballot);
    assert second == Recorded;
  }

  /** A name made of white space only is refused and nothing is written. */
  method BlankName()
  {
    var ledger := new Ledger();
    var blank := " \t";
    assert IsSpace(blank[0]) && IsSpace(blank[1]) && |blank| == 2;
    BlankIffAllSpace(blank);
    var outcome := ledger.Submit(blank, [("Meilleur club", ["MCA"])]);
    assert outcome == MissingName && ledger.rows == [];
  }

  lemma NotBlank(nom: string, i: int)
    requires 0 <= i < |nom| && !IsSpace(nom[i])
    ensures !IsBlank(nom)
  {
  }
}
