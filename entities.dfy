/** The entities of the scoreboard: categories, teams, workouts, the
    workout–category links and the per-(team, workout) results.
    All of them are plain values; the tables that hold them live in `Data.Store`. */
module Entities {

  datatype Option<+T> = None | Some(value: T)

  /** Failures the data layer can raise while saving changes. */
  datatype DbError =
    | UniqueViolation       // a unique index would hold two equal keys
    | ForeignKeyViolation   // a row refers to a missing parent row
    | RestrictViolation     // a delete is blocked by a restricting foreign key
    | ConcurrencyFailure    // an update targets a row that does not exist
    | DuplicateTracking     // the same key is added twice within one unit of work

  datatype Outcome = Pass | Fail(error: DbError)

  datatype Result<+T> = Ok(value: T) | Err(error: DbError)

  /** The measurement kind of a workout; it decides the ranking direction. */
  datatype WorkoutType = Repetitions | Time | Weight

  datatype Category = Category(id: int, name: string, description: Option<string>)

  /** A team; `categoryId` is optional, `totalPoints` is a cached aggregate,
      the two counters are standings tie-breakers. */
  datatype Team = Team(
    id: int,
    name: string,
    totalPoints: int,
    categoryId: Option<int>,
    firstPlaceCount: int,
    secondPlaceCount: int)

  datatype Workout = Workout(id: int, name: string, description: string, workoutType: WorkoutType, unit: string)

  /** One row of the many-to-many link between workouts and categories. */
  datatype WorkoutCategory = WorkoutCategory(workoutId: int, categoryId: int)

  /** A recorded result. `result` is the decimal measurement in hundredths
      (the column holds two decimals and may be null). */
  datatype WorkoutResult = WorkoutResult(
    id: int,
    teamId: int,
    workoutId: int,
    result: Option<int>,
    position: int,
    points: int)

  /** The `Result > 0` test of the source; a null measurement fails it. */
  predicate IsPositive(r: WorkoutResult) {
    r.result.Some? && r.result.value > 0
  }

  /** Lower-cases the ASCII letters of a string and leaves every other character alone. */
  function Lower(s: string): (r: string)
    ensures |r| == |s|
    ensures forall i :: 0 <= i < |s| ==> r[i] == LowerChar(s[i])
  {
    if s == [] then [] else [LowerChar(s[0])] + Lower(s[1..])
  }

  function LowerChar(c: char): char {
    if 'A' <= c <= 'Z' then (c as int - 'A' as int + 'a' as int) as char else c
  }

  /** Two names clash when they are equal ignoring case. */
  predicate SameNameIgnoringCase(a: string, b: string) {
    Lower(a) == Lower(b)
  }

  /** Names that do not clash ignoring case are different names. */
  lemma DistinctIgnoringCaseIsDistinct(a: string, b: string)
    requires !SameNameIgnoringCase(a, b)
    ensures a != b
  {
  }

  function CategoryIds(cs: seq<Category>): set<int> {
    set c | c in cs :: c.id
  }

  function TeamIds(ts: seq<Team>): set<int> {
    set t | t in ts :: t.id
  }

  function WorkoutIds(ws: seq<Workout>): set<int> {
    set w | w in ws :: w.id
  }

  /** The first element of `s` that satisfies `p`, as LINQ's FirstOrDefault. */
  function FirstWhere<T(==,!new)>(s: seq<T>, p: T -> bool): (r: Option<T>)
    ensures r.None? <==> forall x :: x in s ==> !p(x)
    ensures r.Some? ==> r.value in s && p(r.value)
    ensures r.Some? ==> exists i :: 0 <= i < |s| && s[i] == r.value && forall j :: 0 <= j < i ==> !p(s[j])
  {
    if s == [] then None
    else if p(s[0]) then Some(s[0])
    else
      var r := FirstWhere(s[1..], p);
      assert forall x :: x in s[1..] ==> x in s;
      if r.Some? then
        var i :| 0 <= i < |s[1..]| && s[1..][i] == r.value && forall j :: 0 <= j < i ==> !p(s[1..][j]);
        assert s[i + 1] == r.value;
        r
      else r
  }

  /** The elements of `s` that satisfy `p`, in their order (LINQ's Where). */
  function Filter<T(!new)>(s: seq<T>, p: T -> bool): (r: seq<T>)
    ensures |r| <= |s|
    ensures forall x {:trigger x in r} :: x in r <==> x in s && p(x)
    ensures forall i :: 0 <= i < |r| ==> r[i] in s && p(r[i])
  {
    if s == [] then [] else (if p(s[0]) then [s[0]] else []) + Filter(s[1..], p)
  }

  /** Filtering by two predicates that agree on every element gives the same result. */
  lemma {:induction false} FilterCongruent<T(!new)>(s: seq<T>, p: T -> bool, q: T -> bool)
    requires forall x :: x in s ==> p(x) == q(x)
    ensures Filter(s, p) == Filter(s, q)
  {
    if s != [] {
      assert forall x :: x in s[1..] ==> x in s;
      FilterCongruent(s[1..], p, q);
    }
  }

  /** A prefix one longer is the prefix extended by the next element. */
  lemma TakeSnoc<T>(s: seq<T>, i: nat)
    requires i < |s|
    ensures s[..i + 1] == s[..i] + [s[i]]
  {
  }

  /** Filtering a sequence extended at the end. */
  lemma {:induction false} FilterSnoc<T(!new)>(s: seq<T>, x: T, p: T -> bool)
    ensures Filter(s + [x], p) == Filter(s, p) + (if p(x) then [x] else [])
  {
    if s == [] {
      assert [] + [x] == [x];
      assert [x][1..] == [];
    } else {
      assert (s + [x])[0] == s[0] && (s + [x])[1..] == s[1..] + [x];
      FilterSnoc(s[1..], x, p);
    }
  }

  /** Nothing passes the filter when no element satisfies the predicate. */
  lemma FilterNone<T(!new)>(s: seq<T>, p: T -> bool)
    requires forall x :: x in s ==> !p(x)
    ensures Filter(s, p) == []
  {
  }

  /** The position of the first element of `s` that satisfies `p`. */
  function IndexWhere<T>(s: seq<T>, p: T -> bool): (r: Option<nat>)
    ensures r.None? <==> forall i :: 0 <= i < |s| ==> !p(s[i])
    ensures r.Some? ==> r.value < |s| && p(s[r.value]) && forall i :: 0 <= i < r.value ==> !p(s[i])
  {
    if s == [] then None
    else if p(s[0]) then Some(0)
    else
      match IndexWhere(s[1..], p)
      case None => None
      case Some(i) => Some(i + 1)
  }

  /** Removing elements keeps a key that was different in every two positions different. */
  lemma {:induction false} FilterKeepsDistinct<T(!new), K>(s: seq<T>, p: T -> bool, key: T -> K)
    requires forall i, j :: 0 <= i < j < |s| ==> key(s[i]) != key(s[j])
    ensures forall i, j :: 0 <= i < j < |Filter(s, p)| ==> key(Filter(s, p)[i]) != key(Filter(s, p)[j])
  {
    if s != [] {
      FilterKeepsDistinct(s[1..], p, key);
      var t := Filter(s[1..], p);
      assert forall i, j :: 0 <= i < j < |t| ==> key(t[i]) != key(t[j]);
      forall j | 0 <= j < |t| ensures key(t[j]) != key(s[0]) {
        assert t[j] in s[1..];
        var k :| 0 <= k < |s[1..]| && s[1..][k] == t[j];
        assert s[k + 1] == t[j];
      }
      var r := Filter(s, p);
      assert r == (if p(s[0]) then [s[0]] else []) + t;
      if p(s[0]) {
        forall i, j | 0 <= i < j < |r| ensures key(r[i]) != key(r[j]) {
          if i > 0 {
            assert r[i] == t[i - 1] && r[j] == t[j - 1];
          } else {
            assert r[j] == t[j - 1];
          }
        }
      } else {
        assert r == t;
      }
    }
  }
}
