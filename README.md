# DZMatch Votes — ballot ledger and live standings, in Dafny

DZMatch Votes is a one-page voting form. A voter types a name and, for
each of four categories (best goalkeeper, club, player and coach), picks
candidates in rank order. The widget allows up to five picks, but each
category offers only four candidates, and a pick cannot be repeated, so a
ballot has at most four picks per category. The app keeps the votes in a spreadsheet
whose rows have the columns `Nom, Categorie, Candidat, Position, Points`. On
every page load it shows, per category, the candidates ranked by their
summed points.

This project models the core of `app.py`:

- **The points schedule** (`Votes.Schedule`, `Votes.PointsFor`). Ranks 1 to 5
  earn 5, 3, 2, 1 and 0.5 points, and any other rank earns 0. Points are
  Dafny `real`, which is exact, so 0.5 involves no rounding.
- **The save** (`VoteLedger.Ledger.SaveVote`). The sheet is the `rows` field
  of a `Ledger` object. A name already in the `Nom` column is refused. The
  match is exact and case-sensitive. Otherwise the nested loop
  (`Votes.AppendBallot`) appends one row per pick, category by category and
  then rank by rank. The pick at 1-based rank `i` gets `Position = i` and
  `Points = PointsFor(i)`. The spec functions `Votes.BallotRows` and
  `Votes.TotalPicks` say which rows are added and how many.
- **The submit guard** (`VoteLedger.Ledger.Submit`). A name that is empty
  after Python's `str.strip()` (`VoteLedger.Strip`) is refused before the
  sheet is touched. Otherwise the name is saved exactly as typed, so
  `" Amine"` and `"Amine"` are different voters.
- **The standings** (`Leaderboard.Standings`, and `Leaderboard.AllStandings`
  for every category of the form). The pipeline has four steps:
  1. keep the rows of the category (`InCategory`);
  2. group them by candidate and sum the points (`Candidates`, `Total`,
     `GroupSum`);
  3. sort from most to fewest points (`SortDesc`);
  4. number the entries 1..n (`Number`).

  The lemmas state what the pipeline promises:
  - each total equals an independent reference sum over the whole sheet
    (`CategoryTotal`);
  - each candidate voted for in the category appears exactly once;
  - points never increase down the list;
  - positions run 1..n;
  - a category with no votes has empty standings;
  - the result depends only on which rows the sheet holds, not on their order.

The sort in the source (`sort_values` with its default algorithm) promises
no order among candidates with equal points. The model breaks such ties by
candidate name, in ascending code-point order (`TextOrder.NameLess`). That
is the order in which `groupby` hands the groups to the sort. Only the
non-increasing order of points is claimed as the source's promise. The fixed
tie order is what lets `StandingsReorder` prove that the whole standings,
not only the totals, ignore row order.

Three further facts about `app.py` that the model keeps:

- A voter is identified by `nom` alone. There is no phone or media field.
- The sheet is written once per ballot, after all of the ballot's rows are
  built (`to_excel` at app.py:69).
- Ties are ordered as explained above.

A consequence of the code, proved in `Votes.VotedAfterBallot`: a ballot
with no picks adds no row. Its voter's name therefore never reaches the
sheet, and the same name is accepted again later.

Modules: `Votes` (votes.dfy), `TextOrder` (textorder.dfy), `Leaderboard`
(leaderboard.dfy), `VoteLedger` (ledger.dfy), `Scenarios` (scenarios.dfy).

## Model

| member | source | states |
|---|---|---|
| `Votes.PointsFor` | app.py:21 | the points for a rank are between 0 and 5 and are positive exactly for ranks 1..5 (`points.get(i, 0)`) |
| `Votes.ScheduleValues` | app.py:21 | ranks 1..5 earn exactly 5, 3, 2, 1 and 0.5; every other rank earns 0 |
| `Votes.ScheduleNonIncreasing` | app.py:21 | a better rank never earns fewer points, and no rank earns a negative amount |
| `Votes.CategoryRowsLength` | app.py:65-67 | a category's pick list yields exactly one row per pick |
| `Votes.CategoryRowsAt` | app.py:65-67 | the pick at 0-based index i becomes row i, with the voter's name, the category, the candidate, Position i + 1 and Points `PointsFor(i + 1)` |
| `Votes.BallotRowsLength` | app.py:64-67 | a ballot adds exactly the sum of the lengths of its pick lists |
| `Votes.BallotRowsAt` | app.py:64-67 | the i-th pick of the k-th category sits at offset (picks of categories before k) + i: category order first, then rank order |
| `Votes.BallotRowsFromPicks` | app.py:64-67 | conversely, every row a ballot adds comes from one of its picks, ranked and scored by the schedule |
| `Votes.BallotRowsScored` | app.py:64-67 | every added row carries the voter's name, a Position of at least 1 and the schedule's Points for it |
| `Votes.VotedAfterBallot` | app.py:59-67 | after a ballot is appended, a name is on the sheet exactly when it was before, or it is the voter's name and the ballot had at least one pick |
| `Votes.DistinctPicksBound` | app.py:35-38 | picks without repeats, all taken from the offered candidates, number at most as many as the offers |
| `Votes.FormBallotRows` | app.py:11-41 | a ballot the form can produce (eligible picks, none repeated, at most 5 per category) yields only rows ranked 1..4 with at least 1 point, because every category offers four candidates; each row names a candidate eligible in its category |
| `Votes.AppendBallot` | app.py:64-67 | the nested loop leaves the frame equal to the old rows followed by `BallotRows(nom, votes)` |
| `VoteLedger.TrimStart` | app.py:76 | the result is a suffix of the input, everything dropped is white space, and the result does not start with white space |
| `VoteLedger.TrimEnd` | app.py:76 | the result is a prefix of the input, everything dropped is white space, and the result does not end with white space |
| `VoteLedger.BlankIffAllSpace` | app.py:76 | `not nom.strip()` holds exactly when every character of the name is white space |
| `VoteLedger.Ledger.constructor` | app.py:54-57 | with no sheet yet, the table is empty (and trivially valid) |
| `VoteLedger.Ledger.SaveVote` | app.py:53-70 | returns True exactly when the name is not already in the Nom column; then the rows become the old rows followed by the ballot's rows, otherwise they are unchanged; the row count grows by the number of picks; scoring by the schedule is preserved |
| `VoteLedger.Ledger.Submit` | app.py:75-83 | a blank name is refused with the sheet unchanged; otherwise the outcome is "already voted" or "recorded" as SaveVote decides; the invariant (rows scored, no blank names) is preserved |
| `TextOrder.NameLessTotal` | app.py:95 | two different names compare one way and not the other (the key order of the grouping) |
| `TextOrder.NameLessTransitive` | app.py:95 | the name order is transitive |
| `Leaderboard.InCategory` | app.py:95 | a row is in the filtered rows exactly when it is on the sheet and its Categorie equals the category |
| `Leaderboard.InCategoryCounts` | app.py:95 | the filter keeps each row of the category as many times as the sheet holds it, and drops every other row |
| `Leaderboard.Candidates` | app.py:95 | the group keys are distinct and are exactly the candidates named by the rows |
| `Leaderboard.Insert` | app.py:96 | inserting a group into a ranked list keeps it ranked and adds exactly that group |
| `Leaderboard.SortDesc` | app.py:96 | the result is ranked (most points first) and is a permutation of the input |
| `Leaderboard.RankedUnique` | app.py:96 | two ranked lists with the same elements are equal |
| `Leaderboard.TotalInCategory` | app.py:95 | summing a candidate's points over the filtered rows gives the reference sum over the whole sheet |
| `Leaderboard.CategoryTotalReorder` | app.py:95 | a candidate's total does not depend on the order of the rows |
| `Leaderboard.GroupsOfCategory` | app.py:95 | a (candidate, points) pair is a group exactly when the candidate was voted for in the category and the points are its reference total |
| `Leaderboard.StandingsOrdered` | app.py:96-97 | positions are 1..n in output order and points are non-increasing |
| `Leaderboard.StandingsTotals` | app.py:95 | every entry is a candidate voted for in the category, and its points equal the sum of Points over exactly that category's rows for that candidate |
| `Leaderboard.StandingsDistinct` | app.py:95 | no candidate has two entries |
| `Leaderboard.StandingsCover` | app.py:95 | every candidate voted for in the category has an entry |
| `Leaderboard.StandingsEmpty` | app.py:95-97 | a category with no rows has empty standings |
| `Leaderboard.StandingsReorder` | app.py:89-97 | two sheets holding the same rows in any order have the same standings |
| `Leaderboard.AllStandingsTotals` | app.py:93-98 | the display lists each form category once, in form order, and every entry under a category is a candidate voted for there with the reference total of that candidate's rows |
| `Leaderboard.AllStandingsReorder` | app.py:93-98 | the whole display depends only on which rows the sheet holds, not on their order |
| `Leaderboard.StandingsOfRanked` | app.py:95-97 | when the groups are already ranked, the standings are those groups numbered in order |
| `Scenarios.OneBallot` | app.py:64-97 | "Amine" ranking MCA then USMA writes (MCA, 1, 5) and (USMA, 2, 3), and the standings are [(1, MCA, 5), (2, USMA, 3)] |
| `Scenarios.TwoVoters` | app.py:89-97 | two voters ranking CRB then CSC give the standings [(1, CRB, 10), (2, CSC, 6)] |

## Left out

- The Streamlit page (title, text input, form, multiselect widgets, success and error messages, tables) is presentation only. What the form guarantees about a ballot is the predicate `Votes.FromForm`.
- Excel persistence (`read_excel`, `to_excel`, `exists()`) is left out. The sheet is the `rows` field and starts empty. The model assumes a read returns exactly what was written. It ignores that a name or candidate that looks like a number may be read back as a number. It also ignores that a name read back as missing (such as "NA" or "null") never matches the `in df["Nom"].values` test, so such a voter could vote again.
- The check `excel_file.exists()` around the standings only decides whether they are displayed. Standings computed over an empty sheet are empty.
- `pd.to_numeric(..., errors="coerce")` is left out. It only matters for non-numeric Points cells, and rows written by the save always hold numbers from the schedule.
- red.py is left out. It only prints credentials and has no logic.
- Concurrency is left out: two submissions that read the sheet before either writes can both pass the duplicate check. Storage faults are left out too. The model is sequential and its writes are atomic.
- Leaderboard.StandingsOrdered: promises only non-increasing points, as the source does. The tie order among equal totals (by name) is a property of the model's sort and is not claimed of pandas.
