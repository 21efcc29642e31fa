/** Team totals, the points standings and the team table writes
    (Services/TeamService.cs). */
module TeamService {
  import opened Entities
  import opened Data
  import opened Sorting

  /** `GetTeamTotalPointsAsync`: the Points of every row of the team, summed
      over all its workouts. */
  function TeamTotalPoints(rows: seq<WorkoutResult>, teamId: int): int {
    if rows == [] then 0
    else (if rows[0].teamId == teamId then rows[0].points else 0) + TeamTotalPoints(rows[1..], teamId)
  }

  /** The plain sum of Points, the reference the total is checked against. */
  function SumPoints(rows: seq<WorkoutResult>): int {
    if rows == [] then 0 else rows[0].points + SumPoints(rows[1..])
  }

  /** The total is the sum over the team's rows, whatever their workout or category. */
  lemma {:induction false} TotalIsSumOfTeamRows(rows: seq<WorkoutResult>, teamId: int)
    ensures TeamTotalPoints(rows, teamId) == SumPoints(Filter(rows, (r: WorkoutResult) => r.teamId == teamId))
  {
    if rows != [] {
      TotalIsSumOfTeamRows(rows[1..], teamId);
      var p := (r: WorkoutResult) => r.teamId == teamId;
      assert Filter(rows, p) == (if p(rows[0]) then [rows[0]] else []) + Filter(rows[1..], p);
      if p(rows[0]) {
        var f := Filter(rows, p);
        assert f[0] == rows[0] && f[1..] == Filter(rows[1..], p);
      } else {
        assert Filter(rows, p) == Filter(rows[1..], p);
      }
    }
  }

  /** A team without rows has total 0. */
  lemma {:induction false} NoRowsNoPoints(rows: seq<WorkoutResult>, teamId: int)
    requires forall i :: 0 <= i < |rows| ==> rows[i].teamId != teamId
    ensures TeamTotalPoints(rows, teamId) == 0
  {
    if rows != [] {
      NoRowsNoPoints(rows[1..], teamId);
    }
  }

  /** The total of two tables laid end to end is the sum of their totals. */
  lemma {:induction false} TotalOfConcat(a: seq<WorkoutResult>, b: seq<WorkoutResult>, teamId: int)
    ensures TeamTotalPoints(a + b, teamId) == TeamTotalPoints(a, teamId) + TeamTotalPoints(b, teamId)
  {
    if a == [] {
      assert a + b == b;
    } else {
      TotalOfConcat(a[1..], b, teamId);
      assert (a + b)[0] == a[0] && (a + b)[1..] == a[1..] + b;
    }
  }

  /** Rows with non-negative Points give a non-negative total. */
  lemma {:induction false} TotalNonNegative(rows: seq<WorkoutResult>, teamId: int)
    requires forall i :: 0 <= i < |rows| ==> rows[i].points >= 0
    ensures TeamTotalPoints(rows, teamId) >= 0
  {
    if rows != [] {
      TotalNonNegative(rows[1..], teamId);
    }
  }

  /** The teams as the ordering loop leaves them: each one's TotalPoints replaced by its total. */
  function WithTotals(ts: seq<Team>, rows: seq<WorkoutResult>): (r: seq<Team>)
    ensures |r| == |ts|
    ensures forall i :: 0 <= i < |ts| ==> r[i] == ts[i].(totalPoints := TeamTotalPoints(rows, ts[i].id))
  {
    if ts == [] then [] else [ts[0].(totalPoints := TeamTotalPoints(rows, ts[0].id))] + WithTotals(ts[1..], rows)
  }

  function PointsKey(t: Team): seq<int> {
    [t.totalPoints]
  }

  /** The test "has TotalPoints `p`", as a named predicate value. */
  function HasPoints(p: int): Team -> bool {
    (t: Team) => t.totalPoints == p
  }

  /** The teams with TotalPoints `p`, in their order. */
  function TeamsWithPoints(ts: seq<Team>, p: int): seq<Team> {
    Filter(ts, HasPoints(p))
  }

  lemma SingletonLexLe(a: int, b: int)
    ensures LexLe([a], [b]) <==> a <= b
  {
    assert [a][1..] == [] && [b][1..] == [];
    assert !LexLess([], []);
    assert LexLess([b], [a]) <==> b < a;
  }

  /** Sorting by TotalPoints gives a permutation in ascending order in which
      teams with equal points keep their order. */
  lemma SortByPointsFacts(ts: seq<Team>)
    ensures multiset(SortBy(ts, PointsKey)) == multiset(ts)
    ensures forall i, j :: 0 <= i < j < |SortBy(ts, PointsKey)| ==>
      SortBy(ts, PointsKey)[i].totalPoints <= SortBy(ts, PointsKey)[j].totalPoints
    ensures forall p :: TeamsWithPoints(SortBy(ts, PointsKey), p) == TeamsWithPoints(ts, p)
  {
    var ordered := SortBy(ts, PointsKey);
    SortByPermutes(ts, PointsKey);
    SortBySorted(ts, PointsKey);
    forall i, j | 0 <= i < j < |ordered| ensures ordered[i].totalPoints <= ordered[j].totalPoints {
      SingletonLexLe(ordered[i].totalPoints, ordered[j].totalPoints);
    }
    forall p ensures TeamsWithPoints(ordered, p) == TeamsWithPoints(ts, p) {
      SortByStable(ts, PointsKey, [p]);
      forall t: Team ensures HasPoints(p)(t) == KeyIs(PointsKey, [p])(t) {
        assert [t.totalPoints][0] == t.totalPoints;
      }
      FilterCongruent(ordered, HasPoints(p), KeyIs(PointsKey, [p]));
      FilterCongruent(ts, HasPoints(p), KeyIs(PointsKey, [p]));
    }
  }

  /** The loop of `GetTeamsOrderedByPointsAsync` that writes each team's total. */
  method StampTotals(ts: seq<Team>, rows: seq<WorkoutResult>) returns (teams: seq<Team>)
    ensures teams == WithTotals(ts, rows)
  {
    teams := ts;
    for i := 0 to |teams|
      invariant |teams| == |ts|
      invariant forall k :: 0 <= k < i ==> teams[k] == ts[k].(totalPoints := TeamTotalPoints(rows, ts[k].id))
      invariant forall k :: i <= k < |teams| ==> teams[k] == ts[k]
    {
      teams := teams[i := teams[i].(totalPoints := TeamTotalPoints(rows, teams[i].id))];
    }
  }

  /** `GetTeamsOrderedByPointsAsync`: every team with its TotalPoints replaced
      by its current total, in ascending order of that total (the winner has
      the fewest points). The stored teams are not written back. */
  method GetTeamsOrderedByPoints(db: Store) returns (ordered: seq<Team>)
    ensures multiset(ordered) == multiset(WithTotals(db.teams, db.results))
    ensures forall t :: t in ordered ==> t.totalPoints == TeamTotalPoints(db.results, t.id)
    ensures forall i, j :: 0 <= i < j < |ordered| ==> ordered[i].totalPoints <= ordered[j].totalPoints
    ensures forall p :: TeamsWithPoints(ordered, p) == TeamsWithPoints(WithTotals(db.teams, db.results), p)
  {
    var teams := StampTotals(db.teams, db.results);
    ordered := SortBy(teams, PointsKey);
    SortByPointsFacts(teams);
    forall t | t in ordered ensures t.totalPoints == TeamTotalPoints(db.results, t.id) {
      assert t in multiset(teams);
    }
  }

  /** `CreateTeamAsync`: inserts the team; the store assigns its Id. */
  method CreateTeam(db: Store, team: Team) returns (r: Result<Team>)
    requires db.Valid()
    modifies db`teams, db`nextTeamId
    ensures db.Valid()
    ensures r.Err? <==> db.CategoryMissing(team, db.categories) || db.TeamClashes(team.(id := old(db.nextTeamId)), old(db.teams))
    ensures r.Err? ==> db.teams == old(db.teams)
    ensures r.Ok? ==> (r.value == team.(id := old(db.nextTeamId)) && db.teams == old(db.teams) + [r.value])
  {
    r := db.AddTeam(team);
  }

  /** `UpdateTeamAsync`: overwrites every column of the team with the same Id. */
  method UpdateTeam(db: Store, team: Team) returns (o: Outcome)
    requires db.Valid()
    modifies db`teams
    ensures db.Valid()
    ensures o.Fail? <==> (team.id !in TeamIds(old(db.teams)) || db.CategoryMissing(team, db.categories)
                          || db.TeamClashes(team, old(db.teams)))
    ensures o.Fail? ==> db.teams == old(db.teams)
    ensures o.Pass? ==> (|db.teams| == |old(db.teams)| &&
      forall i :: 0 <= i < |db.teams| ==> db.teams[i] == if old(db.teams)[i].id == team.id then team else old(db.teams)[i])
  {
    o := db.UpdateTeam(team);
  }

  /** `DeleteTeamAsync`: removes the team, and by cascade its results, when it
      exists; reports whether it did. */
  method DeleteTeam(db: Store, id: int) returns (deleted: bool)
    requires db.Valid()
    modifies db`teams, db`results
    ensures db.Valid()
    ensures deleted <==> id in TeamIds(old(db.teams))
    ensures deleted ==> (db.teams == Filter(old(db.teams), TeamOtherThan(id))
                     && db.results == Filter(old(db.results), NotOfTeam(id)))
    ensures !deleted ==> db.teams == old(db.teams) && db.results == old(db.results)
  {
    var team := FirstWhere(db.teams, (t: Team) => t.id == id);
    if team.None? {
      return false;
    }
    db.RemoveTeam(id);
    deleted := true;
  }
}
