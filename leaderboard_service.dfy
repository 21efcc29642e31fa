/** The scoreboard engine (Services/LeaderboardService.cs): upserting a
    result, re-ranking one workout, composing the leaderboard view and
    resetting all results. */
module LeaderboardService {
  import opened Entities
  import opened Data
  import opened Sorting

  // ===========================================================================
  // Ranking: which rows take part, in which order, and what they are given
  // ===========================================================================

  /** A row takes part in the ranking of `workoutId` when it belongs to that
      workout and its Result is > 0; the team's category plays no part. */
  predicate IsRanked(r: WorkoutResult, workoutId: int) {
    r.workoutId == workoutId && IsPositive(r)
  }

  /** The positions, in storage order, of the rows that take part. */
  function RankedIndices(rows: seq<WorkoutResult>, workoutId: int): (r: seq<nat>)
    ensures forall j: nat :: j in r <==> j < |rows| && IsRanked(rows[j], workoutId)
    ensures StrictlyIncreasing(r)
    ensures forall k :: 0 <= k < |r| ==> r[k] < |rows|
  {
    if rows == [] then []
    else
      var init := RankedIndices(rows[..|rows| - 1], workoutId);
      var last := |rows| - 1;
      assert forall j :: 0 <= j < last ==> rows[..last][j] == rows[j];
      init + (if IsRanked(rows[last], workoutId) then [last] else [])
  }

  /** The measurement as the sort sees it (a ranked row is never null). */
  function Measurement(r: WorkoutResult): int {
    if r.result.Some? then r.result.value else 0
  }

  /** The sort key: more is better for Repetitions and Weight
      (OrderByDescending, so the key is negated), less is better for Time (OrderBy). */
  function RankKey(t: WorkoutType, r: WorkoutResult): seq<int> {
    match t
    case Repetitions => [-Measurement(r)]
    case Weight => [-Measurement(r)]
    case Time => [Measurement(r)]
  }

  function KeyAt(rows: seq<WorkoutResult>, t: WorkoutType): nat -> seq<int> {
    (j: nat) => if j < |rows| then RankKey(t, rows[j]) else []
  }

  /** The ranked rows in the order the stable sort puts them. */
  function RankingOrder(rows: seq<WorkoutResult>, workoutId: int, t: WorkoutType): seq<nat> {
    SortBy(RankedIndices(rows, workoutId), KeyAt(rows, t))
  }

  /** `rows` after the first `n` steps of the positions loop: the i-th row
      of `order` gets Position = Points = i + 1. */
  function AssignPositions(rows: seq<WorkoutResult>, order: seq<nat>, n: nat): (r: seq<WorkoutResult>)
    requires n <= |order|
    requires forall k :: 0 <= k < |order| ==> order[k] < |rows|
    ensures |r| == |rows|
  {
    if n == 0 then rows
    else
      var prev := AssignPositions(rows, order, n - 1);
      prev[order[n - 1] := prev[order[n - 1]].(position := n, points := n)]
  }

  /** The results table after `CalculatePositionsAndPointsAsync` ranked `workoutId` of type `t`. */
  function Reranked(rows: seq<WorkoutResult>, workoutId: int, t: WorkoutType): (r: seq<WorkoutResult>)
    ensures |r| == |rows|
  {
    var order := RankingOrder(rows, workoutId, t);
    SortByPermutes(RankedIndices(rows, workoutId), KeyAt(rows, t));
    assert forall k :: 0 <= k < |order| ==> order[k] in multiset(RankedIndices(rows, workoutId));
    AssignPositions(rows, order, |order|)
  }

  // ---------------------------------------------------------------- facts about the order

  /** The order holds exactly the ranked rows, each once, sorted by key, equal keys in storage order. */
  lemma RankingOrderFacts(rows: seq<WorkoutResult>, workoutId: int, t: WorkoutType)
    ensures |RankingOrder(rows, workoutId, t)| == |RankedIndices(rows, workoutId)|
    ensures forall j: nat :: j in RankingOrder(rows, workoutId, t) <==> j < |rows| && IsRanked(rows[j], workoutId)
    ensures forall k :: 0 <= k < |RankingOrder(rows, workoutId, t)| ==> RankingOrder(rows, workoutId, t)[k] < |rows|
    ensures forall a, b :: 0 <= a < b < |RankingOrder(rows, workoutId, t)| ==>
      RankingOrder(rows, workoutId, t)[a] != RankingOrder(rows, workoutId, t)[b]
    ensures SortedBy(RankingOrder(rows, workoutId, t), KeyAt(rows, t))
    ensures TiesIncreasing(RankingOrder(rows, workoutId, t), KeyAt(rows, t))
  {
    var ranked := RankedIndices(rows, workoutId);
    var order := RankingOrder(rows, workoutId, t);
    SortByPermutes(ranked, KeyAt(rows, t));
    SortBySorted(ranked, KeyAt(rows, t));
    SortByTiesIncreasing(ranked, KeyAt(rows, t));
    forall j: nat ensures j in order <==> j in ranked {
      assert j in order <==> j in multiset(order);
    }
    forall k | 0 <= k < |order| ensures order[k] < |rows| {
      assert order[k] in order;
    }
  }

  /** Every place of the order names a row of the table. */
  lemma RankingOrderInRange(rows: seq<WorkoutResult>, workoutId: int, t: WorkoutType)
    ensures forall k :: 0 <= k < |RankingOrder(rows, workoutId, t)| ==> RankingOrder(rows, workoutId, t)[k] < |rows|
  {
    RankingOrderFacts(rows, workoutId, t);
  }

  lemma {:induction false} AssignPositionsAt(rows: seq<WorkoutResult>, order: seq<nat>, n: nat)
    requires n <= |order|
    requires forall k :: 0 <= k < |order| ==> order[k] < |rows|
    requires forall a, b :: 0 <= a < b < |order| ==> order[a] != order[b]
    ensures forall i :: 0 <= i < n ==>
      AssignPositions(rows, order, n)[order[i]] == rows[order[i]].(position := i + 1, points := i + 1)
    ensures forall j :: 0 <= j < |rows| && j !in order[..n] ==> AssignPositions(rows, order, n)[j] == rows[j]
  {
    if n > 0 {
      AssignPositionsAt(rows, order, n - 1);
      assert order[..n] == order[..n - 1] + [order[n - 1]];
      assert forall i :: 0 <= i < n - 1 ==> order[..n - 1][i] == order[i];
    }
  }

  /** The ranked row at place `i` of the order is given Position = Points = i + 1; nothing else changes in it. */
  lemma RerankedAt(rows: seq<WorkoutResult>, workoutId: int, t: WorkoutType, i: nat)
    requires i < |RankingOrder(rows, workoutId, t)|
    ensures RankingOrder(rows, workoutId, t)[i] < |rows|
    ensures Reranked(rows, workoutId, t)[RankingOrder(rows, workoutId, t)[i]]
         == rows[RankingOrder(rows, workoutId, t)[i]].(position := i + 1, points := i + 1)
  {
    var order := RankingOrder(rows, workoutId, t);
    RankingOrderFacts(rows, workoutId, t);
    AssignPositionsAt(rows, order, |order|);
  }

  /** Rows that do not take part in the ranking keep every field, stale Position and Points included. */
  lemma RerankedLeavesOthers(rows: seq<WorkoutResult>, workoutId: int, t: WorkoutType, j: nat)
    requires j < |rows| && !IsRanked(rows[j], workoutId)
    ensures Reranked(rows, workoutId, t)[j] == rows[j]
  {
    var order := RankingOrder(rows, workoutId, t);
    RankingOrderFacts(rows, workoutId, t);
    assert order[..|order|] == order;
    AssignPositionsAt(rows, order, |order|);
  }

  /** Every ranked row sits at some place of the order. */
  lemma PlaceOf(rows: seq<WorkoutResult>, workoutId: int, t: WorkoutType, j: nat) returns (i: nat)
    requires j < |rows| && IsRanked(rows[j], workoutId)
    ensures i < |RankingOrder(rows, workoutId, t)| && RankingOrder(rows, workoutId, t)[i] == j
    ensures Reranked(rows, workoutId, t)[j] == rows[j].(position := i + 1, points := i + 1)
  {
    RankingOrderFacts(rows, workoutId, t);
    var order := RankingOrder(rows, workoutId, t);
    i :| 0 <= i < |order| && order[i] == j;
    RerankedAt(rows, workoutId, t, i);
  }

  // ---------------------------------------------------------------- the properties of a ranking pass

  /** Re-ranking rewrites only Position and Points. */
  lemma RerankedKeepsMeasurements(rows: seq<WorkoutResult>, workoutId: int, t: WorkoutType)
    ensures SameKeys(rows, Reranked(rows, workoutId, t))
    ensures forall j :: 0 <= j < |rows| ==> Reranked(rows, workoutId, t)[j].result == rows[j].result
  {
    var r := Reranked(rows, workoutId, t);
    forall j | 0 <= j < |rows|
      ensures r[j].id == rows[j].id && r[j].teamId == rows[j].teamId
           && r[j].workoutId == rows[j].workoutId && r[j].result == rows[j].result
    {
      if IsRanked(rows[j], workoutId) {
        var i := PlaceOf(rows, workoutId, t, j);
      } else {
        RerankedLeavesOthers(rows, workoutId, t, j);
      }
    }
  }

  /** A ranked row's Position lies in 1..n, where n is the number of ranked rows, and Points equals Position. */
  lemma PositionsInRange(rows: seq<WorkoutResult>, workoutId: int, t: WorkoutType, j: nat)
    requires j < |rows| && IsRanked(rows[j], workoutId)
    ensures 1 <= Reranked(rows, workoutId, t)[j].position <= |RankedIndices(rows, workoutId)|
    ensures Reranked(rows, workoutId, t)[j].points == Reranked(rows, workoutId, t)[j].position
  {
    RankingOrderFacts(rows, workoutId, t);
    var i := PlaceOf(rows, workoutId, t, j);
  }

  /** Two different ranked rows never share a Position. */
  lemma PositionsDistinct(rows: seq<WorkoutResult>, workoutId: int, t: WorkoutType, j: nat, k: nat)
    requires j < |rows| && k < |rows| && j != k
    requires IsRanked(rows[j], workoutId) && IsRanked(rows[k], workoutId)
    ensures Reranked(rows, workoutId, t)[j].position != Reranked(rows, workoutId, t)[k].position
  {
    var a := PlaceOf(rows, workoutId, t, j);
    var b := PlaceOf(rows, workoutId, t, k);
  }

  /** The integers 1..n. */
  function OneTo(n: nat): (r: set<int>)
    ensures forall p :: p in r <==> 1 <= p <= n
  {
    if n == 0 then {} else OneTo(n - 1) + {n}
  }

  /** The Positions of the ranked rows are exactly 1..n. */
  lemma PositionsAreOneToN(rows: seq<WorkoutResult>, workoutId: int, t: WorkoutType)
    ensures (set j | 0 <= j < |rows| && IsRanked(rows[j], workoutId) :: Reranked(rows, workoutId, t)[j].position)
         == OneTo(|RankedIndices(rows, workoutId)|)
  {
    var r := Reranked(rows, workoutId, t);
    var n := |RankedIndices(rows, workoutId)|;
    var used := set j | 0 <= j < |rows| && IsRanked(rows[j], workoutId) :: r[j].position;
    RankingOrderFacts(rows, workoutId, t);
    forall p | p in used ensures 1 <= p <= n {
      var j :| 0 <= j < |rows| && IsRanked(rows[j], workoutId) && r[j].position == p;
      PositionsInRange(rows, workoutId, t, j);
    }
    forall p | 1 <= p <= n ensures p in used {
      var order := RankingOrder(rows, workoutId, t);
      RerankedAt(rows, workoutId, t, p - 1);
      assert order[p - 1] in order;
    }
  }

  /** In a sorted order an element with a strictly smaller key comes first. */
  lemma StrictlySmallerFirst(order: seq<nat>, key: nat -> seq<int>, a: nat, b: nat)
    requires SortedBy(order, key) && a < |order| && b < |order|
    requires LexLess(key(order[a]), key(order[b]))
    ensures a < b
  {
    LexLessIrreflexive(key(order[a]));
  }

  /** In an order whose ties are in index order, the smaller of two equal-key indices comes first. */
  lemma EqualKeysInIndexOrder(order: seq<nat>, key: nat -> seq<int>, a: nat, b: nat)
    requires TiesIncreasing(order, key) && a < |order| && b < |order|
    requires key(order[a]) == key(order[b]) && order[a] < order[b]
    ensures a < b
  {
  }

  /** A row with a strictly better key gets a strictly smaller Position. */
  lemma BetterKeyFirst(rows: seq<WorkoutResult>, workoutId: int, t: WorkoutType, j: nat, k: nat)
    requires j < |rows| && k < |rows| && IsRanked(rows[j], workoutId) && IsRanked(rows[k], workoutId)
    requires LexLess(RankKey(t, rows[j]), RankKey(t, rows[k]))
    ensures Reranked(rows, workoutId, t)[j].position < Reranked(rows, workoutId, t)[k].position
  {
    RankingOrderFacts(rows, workoutId, t);
    var a := PlaceOf(rows, workoutId, t, j);
    var b := PlaceOf(rows, workoutId, t, k);
    StrictlySmallerFirst(RankingOrder(rows, workoutId, t), KeyAt(rows, t), a, b);
  }

  /** For Repetitions and Weight a strictly larger Result gets a strictly smaller Position. */
  lemma MoreIsBetter(rows: seq<WorkoutResult>, workoutId: int, t: WorkoutType, j: nat, k: nat)
    requires t == Repetitions || t == Weight
    requires j < |rows| && k < |rows| && IsRanked(rows[j], workoutId) && IsRanked(rows[k], workoutId)
    requires rows[j].result.value > rows[k].result.value
    ensures Reranked(rows, workoutId, t)[j].position < Reranked(rows, workoutId, t)[k].position
  {
    BetterKeyFirst(rows, workoutId, t, j, k);
  }

  /** For Time a strictly smaller Result gets a strictly smaller Position. */
  lemma LessIsBetter(rows: seq<WorkoutResult>, workoutId: int, j: nat, k: nat)
    requires j < |rows| && k < |rows| && IsRanked(rows[j], workoutId) && IsRanked(rows[k], workoutId)
    requires rows[j].result.value < rows[k].result.value
    ensures Reranked(rows, workoutId, Time)[j].position < Reranked(rows, workoutId, Time)[k].position
  {
    BetterKeyFirst(rows, workoutId, Time, j, k);
  }

  /** Equal Results keep their storage order (the sort is stable). */
  lemma TiesKeepStorageOrder(rows: seq<WorkoutResult>, workoutId: int, t: WorkoutType, j: nat, k: nat)
    requires j < k < |rows| && IsRanked(rows[j], workoutId) && IsRanked(rows[k], workoutId)
    requires rows[j].result == rows[k].result
    ensures Reranked(rows, workoutId, t)[j].position < Reranked(rows, workoutId, t)[k].position
  {
    RankingOrderFacts(rows, workoutId, t);
    var a := PlaceOf(rows, workoutId, t, j);
    var b := PlaceOf(rows, workoutId, t, k);
    EqualKeysInIndexOrder(RankingOrder(rows, workoutId, t), KeyAt(rows, t), a, b);
  }

  /** A pass with no ranked row changes nothing. */
  lemma {:induction false} NoRankedRowsNoChange(rows: seq<WorkoutResult>, workoutId: int, t: WorkoutType)
    requires forall j :: 0 <= j < |rows| ==> !IsRanked(rows[j], workoutId)
    ensures Reranked(rows, workoutId, t) == rows
  {
    forall j | 0 <= j < |rows| ensures Reranked(rows, workoutId, t)[j] == rows[j] {
      RerankedLeavesOthers(rows, workoutId, t, j);
    }
  }

  lemma {:induction false} InsertCongruent<T>(x: T, s: seq<T>, k1: T -> seq<int>, k2: T -> seq<int>)
    requires k1(x) == k2(x) && forall y :: y in s ==> k1(y) == k2(y)
    ensures Insert(x, s, k1) == Insert(x, s, k2)
  {
    if s != [] {
      assert forall y :: y in s[1..] ==> y in s;
      InsertCongruent(x, s[1..], k1, k2);
    }
  }

  /** The sort only looks at the keys of the elements it sorts. */
  lemma {:induction false} SortByCongruent<T>(s: seq<T>, k1: T -> seq<int>, k2: T -> seq<int>)
    requires forall x :: x in s ==> k1(x) == k2(x)
    ensures SortBy(s, k1) == SortBy(s, k2)
  {
    if s != [] {
      assert forall y :: y in s[1..] ==> y in s;
      SortByCongruent(s[1..], k1, k2);
      SortByPermutes(s[1..], k1);
      forall y | y in SortBy(s[1..], k1) ensures k1(y) == k2(y) {
        assert y in multiset(SortBy(s[1..], k1));
        assert y in s[1..];
      }
      InsertCongruent(s[0], SortBy(s[1..], k1), k1, k2);
    }
  }

  lemma {:induction false} RankedIndicesCongruent(a: seq<WorkoutResult>, b: seq<WorkoutResult>, workoutId: int)
    requires |a| == |b| && forall j :: 0 <= j < |a| ==> (IsRanked(a[j], workoutId) <==> IsRanked(b[j], workoutId))
    ensures RankedIndices(a, workoutId) == RankedIndices(b, workoutId)
  {
    if a != [] {
      var n := |a| - 1;
      assert forall j :: 0 <= j < n ==> a[..n][j] == a[j] && b[..n][j] == b[j];
      RankedIndicesCongruent(a[..n], b[..n], workoutId);
    }
  }

  /** A ranked table sorts the same rows into the same order again. */
  lemma RerankedSameOrder(rows: seq<WorkoutResult>, workoutId: int, t: WorkoutType)
    ensures RankingOrder(Reranked(rows, workoutId, t), workoutId, t) == RankingOrder(rows, workoutId, t)
  {
    var r := Reranked(rows, workoutId, t);
    RerankedKeepsMeasurements(rows, workoutId, t);
    RankedIndicesCongruent(rows, r, workoutId);
    RerankedKeysAgree(rows, workoutId, t);
    SortByCongruent(RankedIndices(rows, workoutId), KeyAt(rows, t), KeyAt(r, t));
  }

  /** Ranking leaves every row's sort key as it was. */
  lemma RerankedKeysAgree(rows: seq<WorkoutResult>, workoutId: int, t: WorkoutType)
    ensures forall x :: x in RankedIndices(rows, workoutId) ==>
      KeyAt(rows, t)(x) == KeyAt(Reranked(rows, workoutId, t), t)(x)
  {
    var r := Reranked(rows, workoutId, t);
    RerankedKeepsMeasurements(rows, workoutId, t);
    forall x | x in RankedIndices(rows, workoutId) ensures KeyAt(rows, t)(x) == KeyAt(r, t)(x) {
      assert x < |rows| && r[x].result == rows[x].result;
      SameResultSameKey(t, r[x], rows[x]);
    }
  }

  lemma SameResultSameKey(t: WorkoutType, a: WorkoutResult, b: WorkoutResult)
    requires a.result == b.result
    ensures RankKey(t, a) == RankKey(t, b)
  {
  }

  /** Ranking an already ranked table again changes nothing. */
  lemma RerankIdempotent(rows: seq<WorkoutResult>, workoutId: int, t: WorkoutType)
    ensures Reranked(Reranked(rows, workoutId, t), workoutId, t) == Reranked(rows, workoutId, t)
  {
    var r := Reranked(rows, workoutId, t);
    var rr := Reranked(r, workoutId, t);
    RerankedKeepsMeasurements(rows, workoutId, t);
    RerankedSameOrder(rows, workoutId, t);
    RankingOrderFacts(rows, workoutId, t);
    forall j | 0 <= j < |rows| ensures rr[j] == r[j] {
      assert IsRanked(r[j], workoutId) == IsRanked(rows[j], workoutId);
      if IsRanked(rows[j], workoutId) {
        var i := PlaceOf(rows, workoutId, t, j);
        var i' := PlaceOf(r, workoutId, t, j);
      } else {
        RerankedLeavesOthers(r, workoutId, t, j);
      }
    }
  }

  // ===========================================================================
  // Upsert
  // ===========================================================================

  /** The row test of the (team, workout) pair, as a predicate value. */
  function RowOf(teamId: int, workoutId: int): WorkoutResult -> bool {
    (r: WorkoutResult) => IsRowOf(r, teamId, workoutId)
  }

  function NewResult(id: int, teamId: int, workoutId: int, value: int): WorkoutResult {
    WorkoutResult(id, teamId, workoutId, Some(value), 0, 0)
  }

  /** The table after the upsert step: the existing row of the pair gets the
      new Result, or a new row (Position = Points = 0) is appended. */
  function Upserted(rows: seq<WorkoutResult>, teamId: int, workoutId: int, value: int, newId: int): seq<WorkoutResult> {
    match IndexWhere(rows, RowOf(teamId, workoutId))
    case Some(i) => rows[i := rows[i].(result := Some(value))]
    case None => rows + [NewResult(newId, teamId, workoutId, value)]
  }

  /** Exactly one row of the pair exists, and it holds `value`. */
  predicate HoldsOnlyRow(rows: seq<WorkoutResult>, teamId: int, workoutId: int, value: int) {
    exists i :: 0 <= i < |rows| && IsRowOf(rows[i], teamId, workoutId) && rows[i].result == Some(value) &&
      forall j :: 0 <= j < |rows| && IsRowOf(rows[j], teamId, workoutId) ==> j == i
  }

  /** After the upsert the pair has exactly one row, holding the new value; every other row is untouched. */
  lemma UpsertedHoldsValue(rows: seq<WorkoutResult>, ts: seq<Team>, ws: seq<Workout>, nextId: int,
                           teamId: int, workoutId: int, value: int)
    requires ResultsWellFormed(rows, ts, ws, nextId)
    ensures var r := Upserted(rows, teamId, workoutId, value, nextId);
      && HoldsOnlyRow(r, teamId, workoutId, value)
      && (forall j :: 0 <= j < |rows| && !IsRowOf(rows[j], teamId, workoutId) ==> r[j] == rows[j])
      && |r| == |rows| + (if exists j :: 0 <= j < |rows| && IsRowOf(rows[j], teamId, workoutId) then 0 else 1)
  {
    var r := Upserted(rows, teamId, workoutId, value, nextId);
    match IndexWhere(rows, RowOf(teamId, workoutId))
    case Some(i) =>
      forall j | 0 <= j < |r| && IsRowOf(r[j], teamId, workoutId) ensures j == i {
        UniqueRowOfPair(rows, ts, ws, nextId, i, j);
      }
      assert IsRowOf(r[i], teamId, workoutId) && r[i].result == Some(value);
    case None =>
      assert IsRowOf(r[|rows|], teamId, workoutId);
  }

  /** Appending the row of a new pair whose team and workout exist keeps the table well formed. */
  lemma InsertedRowWellFormed(rows: seq<WorkoutResult>, ts: seq<Team>, ws: seq<Workout>, nextId: int,
                              teamId: int, workoutId: int, value: int)
    requires ResultsWellFormed(rows, ts, ws, nextId)
    requires forall j :: 0 <= j < |rows| ==> !IsRowOf(rows[j], teamId, workoutId)
    requires teamId in TeamIds(ts) && workoutId in WorkoutIds(ws)
    ensures ResultsWellFormed(rows + [NewResult(nextId, teamId, workoutId, value)], ts, ws, nextId + 1)
  {
    var r := rows + [NewResult(nextId, teamId, workoutId, value)];
    forall i, j | 0 <= i < j < |r|
      ensures (r[i].teamId, r[i].workoutId) != (r[j].teamId, r[j].workoutId)
    {
      assert j == |rows| ==> !IsRowOf(rows[i], teamId, workoutId);
    }
  }

  // ===========================================================================
  // The operations
  // ===========================================================================

  function FindWorkout(ws: seq<Workout>, id: int): Option<Workout> {
    FirstWhere(ws, (w: Workout) => w.id == id)
  }

  /** The positions loop: the i-th row of `order` gets Position = Points = i + 1. */
  method AssignInOrder(rows: seq<WorkoutResult>, order: seq<nat>) returns (r: seq<WorkoutResult>)
    requires forall k :: 0 <= k < |order| ==> order[k] < |rows|
    ensures r == AssignPositions(rows, order, |order|)
  {
    r := rows;
    for i := 0 to |order|
      invariant r == AssignPositions(rows, order, i)
    {
      r := r[order[i] := r[order[i]].(position := i + 1, points := i + 1)];
    }
  }

  /** The ranking pass on a table: select, sort, then number the rows in order. */
  method RankRows(rows: seq<WorkoutResult>, workoutId: int, t: WorkoutType) returns (updated: seq<WorkoutResult>)
    ensures updated == Reranked(rows, workoutId, t)
  {
    var ranked := RankedIndices(rows, workoutId);
    updated := rows;
    if |ranked| > 0 {
      var sorted := SortBy(ranked, KeyAt(rows, t));
      assert sorted == RankingOrder(rows, workoutId, t);
      RankingOrderInRange(rows, workoutId, t);
      updated := AssignInOrder(rows, sorted);
    } else {
      NoRankedRowsNoChange(rows, workoutId, t);
    }
  }

  /** Ranking keeps the results table well formed. */
  lemma RerankedWellFormed(rows: seq<WorkoutResult>, ts: seq<Team>, ws: seq<Workout>, nextId: int, workoutId: int, t: WorkoutType)
    requires ResultsWellFormed(rows, ts, ws, nextId)
    ensures ResultsWellFormed(Reranked(rows, workoutId, t), ts, ws, nextId)
  {
    RerankedKeepsMeasurements(rows, workoutId, t);
    SameKeysKeepWellFormed(rows, Reranked(rows, workoutId, t), ts, ws, nextId);
  }

  /** `CalculatePositionsAndPointsAsync`: ranks the rows of one workout. An
      unknown workout id leaves the table as it is. */
  method CalculatePositionsAndPoints(db: Store, workoutId: int)
    requires db.Valid()
    modifies db`results
    ensures db.Valid()
    ensures FindWorkout(db.workouts, workoutId).None? ==> db.results == old(db.results)
    ensures FindWorkout(db.workouts, workoutId).Some? ==>
      db.results == Reranked(old(db.results), workoutId, FindWorkout(db.workouts, workoutId).value.workoutType)
  {
    var workout := FindWorkout(db.workouts, workoutId);
    if workout.None? {
      return;
    }
    var t := workout.value.workoutType;
    var updated := RankRows(db.results, workoutId, t);
    RerankedWellFormed(db.results, db.teams, db.workouts, db.nextResultId, workoutId, t);
    db.results := updated;
  }

  /** The upsert step keeps the table well formed when the pair has a row or its team and workout exist. */
  lemma UpsertedWellFormed(rows: seq<WorkoutResult>, ts: seq<Team>, ws: seq<Workout>, nextId: int,
                           teamId: int, workoutId: int, value: int)
    requires ResultsWellFormed(rows, ts, ws, nextId)
    requires IndexWhere(rows, RowOf(teamId, workoutId)).Some?
          || (teamId in TeamIds(ts) && workoutId in WorkoutIds(ws))
    ensures var inserted := IndexWhere(rows, RowOf(teamId, workoutId)).None?;
      ResultsWellFormed(Upserted(rows, teamId, workoutId, value, nextId), ts, ws, if inserted then nextId + 1 else nextId)
    ensures FindWorkout(ws, workoutId).Some?
  {
    var r := Upserted(rows, teamId, workoutId, value, nextId);
    match IndexWhere(rows, RowOf(teamId, workoutId))
    case Some(i) =>
      assert SameKeys(rows, r);
      SameKeysKeepWellFormed(rows, r, ts, ws, nextId);
      assert workoutId in WorkoutIds(ws);
    case None =>
      InsertedRowWellFormed(rows, ts, ws, nextId, teamId, workoutId, value);
  }

  /** Ranking does not touch Results, so the pair still has exactly one row holding the value. */
  lemma RerankedHoldsOnlyRow(rows: seq<WorkoutResult>, workoutId: int, t: WorkoutType, teamId: int, value: int)
    requires HoldsOnlyRow(rows, teamId, workoutId, value)
    ensures HoldsOnlyRow(Reranked(rows, workoutId, t), teamId, workoutId, value)
  {
    RerankedKeepsMeasurements(rows, workoutId, t);
    var i :| 0 <= i < |rows| && IsRowOf(rows[i], teamId, workoutId) && rows[i].result == Some(value) &&
      forall j :: 0 <= j < |rows| && IsRowOf(rows[j], teamId, workoutId) ==> j == i;
    var r := Reranked(rows, workoutId, t);
    assert IsRowOf(r[i], teamId, workoutId) && r[i].result == Some(value);
  }

  /** The upsert on the loaded rows: the pair's row gets the new Result, or a
      row is added with the next identity value. */
  method UpsertRow(rows: seq<WorkoutResult>, teamId: int, workoutId: int, value: int, nextId: int)
    returns (upserted: seq<WorkoutResult>, next: int)
    ensures upserted == Upserted(rows, teamId, workoutId, value, nextId)
    ensures next == if IndexWhere(rows, RowOf(teamId, workoutId)).None? then nextId + 1 else nextId
    ensures next == nextId + |upserted| - |rows|
  {
    upserted := Upserted(rows, teamId, workoutId, value, nextId);
    if IndexWhere(rows, RowOf(teamId, workoutId)).None? {
      next := nextId + 1;
    } else {
      next := nextId;
    }
  }

  /** The first half of `UpdateResultAsync`: the upsert and its save. */
  method SaveResult(db: Store, teamId: int, workoutId: int, value: int) returns (o: Outcome)
    requires db.Valid()
    modifies db`results, db`nextResultId
    ensures db.Valid()
    ensures o.Fail? <==> (
      && (forall j :: 0 <= j < |old(db.results)| ==> !IsRowOf(old(db.results)[j], teamId, workoutId))
      && (teamId !in TeamIds(db.teams) || workoutId !in WorkoutIds(db.workouts)))
    ensures o.Fail? ==> (
      && o.error == ForeignKeyViolation
      && db.results == old(db.results) && db.nextResultId == old(db.nextResultId))
    ensures o.Pass? ==> (
      && FindWorkout(db.workouts, workoutId).Some?
      && db.results == Upserted(old(db.results), teamId, workoutId, value, old(db.nextResultId))
      && db.nextResultId == old(db.nextResultId) + |db.results| - |old(db.results)|
      && HoldsOnlyRow(db.results, teamId, workoutId, value))
  {
    var rows := db.results;
    var existing := IndexWhere(rows, RowOf(teamId, workoutId));
    if existing.None? && (teamId !in TeamIds(db.teams) || workoutId !in WorkoutIds(db.workouts)) {
      return Fail(ForeignKeyViolation);
    }
    UpsertedWellFormed(rows, db.teams, db.workouts, db.nextResultId, teamId, workoutId, value);
    UpsertedHoldsValue(rows, db.teams, db.workouts, db.nextResultId, teamId, workoutId, value);
    var upserted, nextId := UpsertRow(rows, teamId, workoutId, value, db.nextResultId);
    db.SaveResults(upserted, nextId);
    o := Pass;
  }

  /** `UpdateResultAsync`: upserts the (team, workout) result, then re-ranks that
      workout. Inserting a row whose team or workout does not exist breaks a
      foreign key, and then nothing is saved. */
  method UpdateResult(db: Store, teamId: int, workoutId: int, value: int) returns (o: Outcome)
    requires db.Valid()
    modifies db`results, db`nextResultId
    ensures db.Valid()
    ensures o.Fail? <==> (
      && (forall j :: 0 <= j < |old(db.results)| ==> !IsRowOf(old(db.results)[j], teamId, workoutId))
      && (teamId !in TeamIds(db.teams) || workoutId !in WorkoutIds(db.workouts)))
    ensures o.Fail? ==> (
      && o.error == ForeignKeyViolation
      && db.results == old(db.results) && db.nextResultId == old(db.nextResultId))
    ensures o.Pass? ==> (
      && FindWorkout(db.workouts, workoutId).Some?
      && db.results == Reranked(Upserted(old(db.results), teamId, workoutId, value, old(db.nextResultId)),
                                workoutId, FindWorkout(db.workouts, workoutId).value.workoutType)
      && HoldsOnlyRow(db.results, teamId, workoutId, value))
  {
    o := SaveResult(db, teamId, workoutId, value);
    if o.Fail? {
      return;
    }
    ghost var upserted := db.results;
    CalculatePositionsAndPoints(db, workoutId);
    RerankedHoldsOnlyRow(upserted, workoutId, FindWorkout(db.workouts, workoutId).value.workoutType, teamId, value);
  }

  /** `ResetLeaderboardAsync`: deletes every result and nothing else. */
  method ResetLeaderboard(db: Store)
    requires db.Valid()
    modifies db`results
    ensures db.Valid()
    ensures db.results == []
  {
    db.results := [];
  }

  // ===========================================================================
  // Leaderboard composition
  // ===========================================================================

  datatype LeaderboardViewModel = LeaderboardViewModel(
    teams: seq<Team>,
    workouts: seq<Workout>,
    results: seq<WorkoutResult>,
    matrix: map<int, map<int, WorkoutResult>>,
    // what `Include` loads beside the lists: the listed teams' categories and the listed workouts' links
    categories: seq<Category>,
    links: set<WorkoutCategory>)

  function TeamsInScope(ts: seq<Team>, categoryId: Option<int>): seq<Team> {
    if categoryId.None? then ts else Filter(ts, (t: Team) => t.categoryId == categoryId)
  }

  function WorkoutsInScope(ws: seq<Workout>, links: set<WorkoutCategory>, categoryId: Option<int>): seq<Workout> {
    if categoryId.None? then ws
    else Filter(ws, (w: Workout) => WorkoutCategory(w.id, categoryId.value) in links)
  }

  function ResultsInScope(rs: seq<WorkoutResult>, ts: seq<Team>, ws: seq<Workout>): seq<WorkoutResult> {
    Filter(rs, (r: WorkoutResult) => r.teamId in TeamIds(ts) && r.workoutId in WorkoutIds(ws))
  }

  /** The cell shown when a (team, workout) pair has no stored row. */
  function Placeholder(teamId: int, workoutId: int): WorkoutResult {
    WorkoutResult(0, teamId, workoutId, Some(0), 0, 0)
  }

  /** The matrix entry: the first listed row of the pair, or the placeholder. */
  function CellFor(rs: seq<WorkoutResult>, teamId: int, workoutId: int): WorkoutResult {
    match FirstWhere(rs, RowOf(teamId, workoutId))
    case Some(r) => r
    case None => Placeholder(teamId, workoutId)
  }

  /** Every listed team × listed workout has an entry. */
  ghost predicate MatrixCovers(vm: LeaderboardViewModel) {
    forall t, w :: t in vm.teams && w in vm.workouts ==> t.id in vm.matrix && w.id in vm.matrix[t.id]
  }

  /** One row of the matrix: every listed workout of `teamId` mapped to its cell. */
  method BuildRow(results: seq<WorkoutResult>, workouts: seq<Workout>, teamId: int) returns (row: map<int, WorkoutResult>)
    ensures row.Keys == WorkoutIds(workouts)
    ensures forall w :: w in row ==> row[w] == CellFor(results, teamId, w)
  {
    row := map[];
    for k := 0 to |workouts|
      invariant row.Keys == WorkoutIds(workouts[..k])
      invariant forall w :: w in row ==> row[w] == CellFor(results, teamId, w)
    {
      var workout := workouts[k];
      var found := FirstWhere(results, RowOf(teamId, workout.id));
      if found.Some? {
        row := row[workout.id := found.value];
      } else {
        row := row[workout.id := Placeholder(teamId, workout.id)];
      }
      assert workouts[..k + 1] == workouts[..k] + [workout];
    }
    assert workouts[..|workouts|] == workouts;
  }

  /** The matrix: every listed team mapped to its row. */
  method BuildMatrix(results: seq<WorkoutResult>, teams: seq<Team>, workouts: seq<Workout>)
    returns (matrix: map<int, map<int, WorkoutResult>>)
    ensures matrix.Keys == TeamIds(teams)
    ensures forall t :: t in matrix ==> matrix[t].Keys == WorkoutIds(workouts)
    ensures forall t, w :: t in matrix && w in matrix[t] ==> matrix[t][w] == CellFor(results, t, w)
  {
    matrix := map[];
    for i := 0 to |teams|
      invariant matrix.Keys == TeamIds(teams[..i])
      invariant forall t :: t in matrix ==> matrix[t].Keys == WorkoutIds(workouts)
      invariant forall t, w :: t in matrix && w in matrix[t] ==> matrix[t][w] == CellFor(results, t, w)
    {
      var row := BuildRow(results, workouts, teams[i].id);
      matrix := matrix[teams[i].id := row];
      assert teams[..i + 1] == teams[..i] + [teams[i]];
    }
    assert teams[..|teams|] == teams;
  }

  /** `GetLeaderboardAsync`: the teams, workouts and results of one category
      (or of all, without a filter) and the complete team × workout matrix. */
  method GetLeaderboard(db: Store, categoryId: Option<int>) returns (vm: LeaderboardViewModel)
    ensures forall t :: t in vm.teams <==> (t in db.teams && (categoryId.Some? ==> t.categoryId == categoryId))
    ensures forall w :: w in vm.workouts <==> (
      && w in db.workouts
      && (categoryId.Some? ==> WorkoutCategory(w.id, categoryId.value) in db.workoutCategories))
    ensures forall r :: r in vm.results <==> (
      && r in db.results
      && r.teamId in TeamIds(vm.teams) && r.workoutId in WorkoutIds(vm.workouts))
    ensures categoryId.None? ==> vm.teams == db.teams && vm.workouts == db.workouts
    ensures vm.matrix.Keys == TeamIds(vm.teams)
    ensures forall t :: t in vm.matrix ==> vm.matrix[t].Keys == WorkoutIds(vm.workouts)
    ensures forall t, w :: t in vm.matrix && w in vm.matrix[t] ==> vm.matrix[t][w] == CellFor(vm.results, t, w)
    ensures MatrixCovers(vm)
    ensures forall c :: c in vm.categories <==> (
      && c in db.categories
      && exists t :: t in vm.teams && t.categoryId == Some(c.id))
    ensures forall l :: l in vm.links <==> (l in db.workoutCategories && l.workoutId in WorkoutIds(vm.workouts))
  {
    var teams := TeamsInScope(db.teams, categoryId);
    var workouts := WorkoutsInScope(db.workouts, db.workoutCategories, categoryId);
    var results := ResultsInScope(db.results, teams, workouts);
    var matrix := BuildMatrix(results, teams, workouts);
    var categories := Filter(db.categories, (c: Category) => exists t :: t in teams && t.categoryId == Some(c.id));
    var links := set l | l in db.workoutCategories && l.workoutId in WorkoutIds(workouts);
    vm := LeaderboardViewModel(teams, workouts, results, matrix, categories, links);
  }

  // ---------------------------------------------------------------- facts about the composed view

  /** A matrix entry is the stored row of its pair when there is one. */
  lemma MatrixEntryIsStoredRow(rs: seq<WorkoutResult>, ts: seq<Team>, ws: seq<Workout>, nextId: int,
                               scopeTeams: seq<Team>, scopeWorkouts: seq<Workout>, j: nat)
    requires ResultsWellFormed(rs, ts, ws, nextId)
    requires j < |rs| && rs[j].teamId in TeamIds(scopeTeams) && rs[j].workoutId in WorkoutIds(scopeWorkouts)
    ensures CellFor(ResultsInScope(rs, scopeTeams, scopeWorkouts), rs[j].teamId, rs[j].workoutId) == rs[j]
  {
    var scoped := ResultsInScope(rs, scopeTeams, scopeWorkouts);
    var p := (r: WorkoutResult) => IsRowOf(r, rs[j].teamId, rs[j].workoutId);
    assert rs[j] in scoped;
    var found := FirstWhere(scoped, p);
    assert found.Some?;
    var k :| 0 <= k < |rs| && rs[k] == found.value;
    UniqueRowOfPair(rs, ts, ws, nextId, j, k);
  }

  /** Without a stored row the entry is the placeholder, which is in no table:
      its Id is 0 while stored rows have Ids from 1. */
  lemma MatrixEntryPlaceholder(rs: seq<WorkoutResult>, ts: seq<Team>, ws: seq<Workout>, nextId: int,
                               scopeTeams: seq<Team>, scopeWorkouts: seq<Workout>, teamId: int, workoutId: int)
    requires ResultsWellFormed(rs, ts, ws, nextId)
    requires forall j :: 0 <= j < |rs| ==> !IsRowOf(rs[j], teamId, workoutId)
    ensures CellFor(ResultsInScope(rs, scopeTeams, scopeWorkouts), teamId, workoutId)
         == WorkoutResult(0, teamId, workoutId, Some(0), 0, 0)
    ensures Placeholder(teamId, workoutId) !in rs
  {
    assert forall x :: x in rs ==> !IsRowOf(x, teamId, workoutId) && x.id >= 1;
  }

  /** A category without teams shows no team, no result and an empty matrix. */
  lemma EmptyCategoryBoard(ts: seq<Team>, ws: seq<Workout>, links: set<WorkoutCategory>, rs: seq<WorkoutResult>, c: int)
    requires forall t :: t in ts ==> t.categoryId != Some(c)
    ensures TeamsInScope(ts, Some(c)) == []
    ensures ResultsInScope(rs, TeamsInScope(ts, Some(c)), WorkoutsInScope(ws, links, Some(c))) == []
  {
    FilterNone(ts, (t: Team) => t.categoryId == Some(c));
    FilterNone(rs, (r: WorkoutResult) => r.teamId in TeamIds([]) && r.workoutId in WorkoutIds(WorkoutsInScope(ws, links, Some(c))));
  }
}
