/** The database context: the five tables, the keys and indexes declared on
    them, and the delete behaviour of their foreign keys
    (Data/ApplicationDbContext.cs). Every save either applies all of its
    changes or, when a key, index or foreign key would be broken, none. */
module Data {
  import opened Entities

  // ---------------------------------------------------------------------------
  // The declared keys, indexes and foreign keys, one predicate per table.
  // Identity columns start at 1 and stay below the table's next identity value.
  // ---------------------------------------------------------------------------

  predicate CategoriesWellFormed(cs: seq<Category>, nextId: int) {
    && 1 <= nextId
    && (forall i :: 0 <= i < |cs| ==> 1 <= cs[i].id < nextId)
    && (forall i, j :: 0 <= i < j < |cs| ==> cs[i].id != cs[j].id)
    // unique index on Name
    && (forall i, j :: 0 <= i < j < |cs| ==> cs[i].name != cs[j].name)
  }

  /** The unique index on (Name, CategoryId); as in SQL, rows whose
      CategoryId is null never collide in it. */
  predicate TeamKeysDistinct(a: Team, b: Team) {
    a.categoryId.Some? && a.categoryId == b.categoryId ==> a.name != b.name
  }

  predicate TeamsWellFormed(ts: seq<Team>, cs: seq<Category>, nextId: int) {
    && 1 <= nextId
    && (forall i :: 0 <= i < |ts| ==> 1 <= ts[i].id < nextId)
    && (forall i, j :: 0 <= i < j < |ts| ==> ts[i].id != ts[j].id)
    && (forall i, j :: 0 <= i < j < |ts| ==> TeamKeysDistinct(ts[i], ts[j]))
    // optional foreign key to Categories
    && (forall i :: 0 <= i < |ts| && ts[i].categoryId.Some? ==> ts[i].categoryId.value in CategoryIds(cs))
  }

  predicate WorkoutsWellFormed(ws: seq<Workout>, nextId: int) {
    && 1 <= nextId
    && (forall i :: 0 <= i < |ws| ==> 1 <= ws[i].id < nextId)
    && (forall i, j :: 0 <= i < j < |ws| ==> ws[i].id != ws[j].id)
    // unique index on Name
    && (forall i, j :: 0 <= i < j < |ws| ==> ws[i].name != ws[j].name)
  }

  /** The link table is keyed by (WorkoutId, CategoryId), so it is a set;
      both halves of the key are foreign keys. */
  predicate LinksWellFormed(links: set<WorkoutCategory>, ws: seq<Workout>, cs: seq<Category>) {
    forall l :: l in links ==> l.workoutId in WorkoutIds(ws) && l.categoryId in CategoryIds(cs)
  }

  predicate ResultsWellFormed(rs: seq<WorkoutResult>, ts: seq<Team>, ws: seq<Workout>, nextId: int) {
    && 1 <= nextId
    && (forall i :: 0 <= i < |rs| ==> 1 <= rs[i].id < nextId)
    && (forall i, j :: 0 <= i < j < |rs| ==> rs[i].id != rs[j].id)
    // unique index on (TeamId, WorkoutId)
    && (forall i, j :: 0 <= i < j < |rs| ==> (rs[i].teamId, rs[i].workoutId) != (rs[j].teamId, rs[j].workoutId))
    // foreign keys to Teams and Workouts
    && (forall i :: 0 <= i < |rs| ==> rs[i].teamId in TeamIds(ts) && rs[i].workoutId in WorkoutIds(ws))
  }

  /** Every table well formed: the store's invariant. */
  predicate TablesWellFormed(cs: seq<Category>, nextCategoryId: int, ts: seq<Team>, nextTeamId: int,
                             ws: seq<Workout>, nextWorkoutId: int, links: set<WorkoutCategory>,
                             rs: seq<WorkoutResult>, nextResultId: int) {
    && CategoriesWellFormed(cs, nextCategoryId)
    && TeamsWellFormed(ts, cs, nextTeamId)
    && WorkoutsWellFormed(ws, nextWorkoutId)
    && LinksWellFormed(links, ws, cs)
    && ResultsWellFormed(rs, ts, ws, nextResultId)
  }

  // The rows a delete keeps, as named predicate values.

  function CategoryOtherThan(id: int): Category -> bool {
    (c: Category) => c.id != id
  }

  function TeamOtherThan(id: int): Team -> bool {
    (t: Team) => t.id != id
  }

  function WorkoutOtherThan(id: int): Workout -> bool {
    (w: Workout) => w.id != id
  }

  function NotOfTeam(teamId: int): WorkoutResult -> bool {
    (r: WorkoutResult) => r.teamId != teamId
  }

  function NotOfWorkout(workoutId: int): WorkoutResult -> bool {
    (r: WorkoutResult) => r.workoutId != workoutId
  }

  function LinksWithoutCategory(links: set<WorkoutCategory>, categoryId: int): set<WorkoutCategory> {
    set l | l in links && l.categoryId != categoryId
  }

  function LinksWithoutWorkout(links: set<WorkoutCategory>, workoutId: int): set<WorkoutCategory> {
    set l | l in links && l.workoutId != workoutId
  }

  /** The rows of `rs` that belong to the pair (teamId, workoutId). */
  predicate IsRowOf(r: WorkoutResult, teamId: int, workoutId: int) {
    r.teamId == teamId && r.workoutId == workoutId
  }

  /** Results that differ only in Result, Position and Points have the same keys. */
  predicate SameKeys(a: seq<WorkoutResult>, b: seq<WorkoutResult>) {
    |a| == |b| &&
    forall i :: 0 <= i < |a| ==> a[i].id == b[i].id && a[i].teamId == b[i].teamId && a[i].workoutId == b[i].workoutId
  }

  /** The table invariant depends only on the keys of the result rows, so
      rewriting measurements, positions or points keeps it. */
  lemma SameKeysKeepWellFormed(a: seq<WorkoutResult>, b: seq<WorkoutResult>, ts: seq<Team>, ws: seq<Workout>, nextId: int)
    requires SameKeys(a, b) && ResultsWellFormed(a, ts, ws, nextId)
    ensures ResultsWellFormed(b, ts, ws, nextId)
  {
    forall i, j | 0 <= i < j < |b|
      ensures (b[i].teamId, b[i].workoutId) != (b[j].teamId, b[j].workoutId)
    {
      assert (a[i].teamId, a[i].workoutId) != (a[j].teamId, a[j].workoutId);
    }
  }

  /** Under the unique index, a row of the pair is the only one. */
  lemma UniqueRowOfPair(rs: seq<WorkoutResult>, ts: seq<Team>, ws: seq<Workout>, nextId: int, i: nat, j: nat)
    requires ResultsWellFormed(rs, ts, ws, nextId)
    requires i < |rs| && j < |rs|
    requires rs[i].teamId == rs[j].teamId && rs[i].workoutId == rs[j].workoutId
    ensures i == j
  {
  }

  class Store {
    var categories: seq<Category>
    var teams: seq<Team>
    var workouts: seq<Workout>
    var workoutCategories: set<WorkoutCategory>
    var results: seq<WorkoutResult>
    // the identity generators of the four tables with a generated key
    var nextCategoryId: int
    var nextTeamId: int
    var nextWorkoutId: int
    var nextResultId: int

    ghost predicate Valid()
      reads this
    {
      TablesWellFormed(categories, nextCategoryId, teams, nextTeamId, workouts, nextWorkoutId,
                       workoutCategories, results, nextResultId)
    }

    constructor ()
      ensures Valid()
      ensures categories == [] && teams == [] && workouts == [] && workoutCategories == {} && results == []
    {
      categories, teams, workouts, workoutCategories, results := [], [], [], {}, [];
      nextCategoryId, nextTeamId, nextWorkoutId, nextResultId := 1, 1, 1, 1;
    }

    // ------------------------------------------------------------------ Categories

    /** Saves a new content of the results table with its identity counter. */
    method SaveResults(rows: seq<WorkoutResult>, nextId: int)
      requires Valid() && ResultsWellFormed(rows, teams, workouts, nextId)
      modifies this`results, this`nextResultId
      ensures Valid() && results == rows && nextResultId == nextId
    {
      results, nextResultId := rows, nextId;
    }

    /** Inserts a category; the store gives it the next identity value. */
    method AddCategory(name: string, description: Option<string>) returns (r: Result<Category>)
      requires Valid()
      modifies this`categories, this`nextCategoryId
      ensures Valid()
      ensures r.Err? <==> exists i :: 0 <= i < |old(categories)| && old(categories)[i].name == name
      ensures r.Err? ==> r.error == UniqueViolation && categories == old(categories)
      ensures r.Ok? ==> (r.value == Category(old(nextCategoryId), name, description)
                     && categories == old(categories) + [r.value]
                     && r.value.id !in CategoryIds(old(categories)))
    {
      if exists i :: 0 <= i < |categories| && categories[i].name == name {
        return Err(UniqueViolation);
      }
      var c := Category(nextCategoryId, name, description);
      categories := categories + [c];
      nextCategoryId := nextCategoryId + 1;
      r := Ok(c);
    }

    /** Overwrites every column of the category with the same Id. */
    method UpdateCategory(c: Category) returns (o: Outcome)
      requires Valid()
      modifies this`categories
      ensures Valid()
      ensures c.id !in CategoryIds(old(categories)) ==> o == Fail(ConcurrencyFailure)
      ensures c.id in CategoryIds(old(categories)) ==>(
                (o.Fail? <==> exists i :: 0 <= i < |old(categories)| && old(categories)[i].id != c.id && old(categories)[i].name == c.name))
      ensures o.Fail? ==> categories == old(categories)
      ensures o.Pass? ==> (|categories| == |old(categories)| &&
                forall i :: 0 <= i < |categories| ==>
                  categories[i] == if old(categories)[i].id == c.id then c else old(categories)[i])
    {
      var k := IndexWhere(categories, (x: Category) => x.id == c.id);
      if k.None? {
        return Fail(ConcurrencyFailure);
      }
      if exists i :: 0 <= i < |categories| && categories[i].id != c.id && categories[i].name == c.name {
        return Fail(UniqueViolation);
      }
      var idx := k.value;
      ReplaceCategoryKeepsWellFormed(categories, idx, c, nextCategoryId, teams, nextTeamId, workoutCategories, workouts);
      categories := categories[idx := c];
      o := Pass;
    }

    /** Deletes a category: refused while a team refers to it (restrict),
        otherwise its workout links go with it (cascade). */
    method RemoveCategory(id: int) returns (o: Outcome)
      requires Valid()
      requires id in CategoryIds(categories)
      modifies this`categories, this`workoutCategories
      ensures Valid()
      ensures o.Fail? <==> exists i :: 0 <= i < |old(teams)| && old(teams)[i].categoryId == Some(id)
      ensures o.Fail? ==> (o.error == RestrictViolation && categories == old(categories)
                       && workoutCategories == old(workoutCategories))
      ensures o.Pass? ==> (categories == Filter(old(categories), CategoryOtherThan(id))
                       && workoutCategories == LinksWithoutCategory(old(workoutCategories), id))
    {
      if exists i :: 0 <= i < |teams| && teams[i].categoryId == Some(id) {
        return Fail(RestrictViolation);
      }
      ghost var before, beforeLinks := categories, workoutCategories;
      categories := Filter(categories, CategoryOtherThan(id));
      workoutCategories := LinksWithoutCategory(workoutCategories, id);
      RemoveCategoryKeepsWellFormed(before, id, nextCategoryId, teams, nextTeamId, beforeLinks, workouts);
      o := Pass;
    }

    // ------------------------------------------------------------------ Teams

    /** The checks a save of team `t` makes against the other rows. */
    predicate TeamClashes(t: Team, others: seq<Team>) {
      exists i :: 0 <= i < |others| && others[i].id != t.id && !TeamKeysDistinct(t, others[i])
    }

    predicate CategoryMissing(t: Team, cs: seq<Category>) {
      t.categoryId.Some? && t.categoryId.value !in CategoryIds(cs)
    }

    /** Inserts a team with the next identity value. */
    method AddTeam(t: Team) returns (r: Result<Team>)
      requires Valid()
      modifies this`teams, this`nextTeamId
      ensures Valid()
      ensures r.Err? <==> CategoryMissing(t, categories) || TeamClashes(t.(id := old(nextTeamId)), old(teams))
      ensures r.Err? ==> teams == old(teams)
      ensures r.Ok? ==> (r.value == t.(id := old(nextTeamId)) && teams == old(teams) + [r.value]
                     && r.value.id !in TeamIds(old(teams)))
    {
      var added := t.(id := nextTeamId);
      if CategoryMissing(t, categories) {
        return Err(ForeignKeyViolation);
      }
      if TeamClashes(added, teams) {
        return Err(UniqueViolation);
      }
      teams := teams + [added];
      nextTeamId := nextTeamId + 1;
      forall i, j | 0 <= i < j < |teams| ensures TeamKeysDistinct(teams[i], teams[j]) {
        if j == |teams| - 1 {
          assert teams[i].id != added.id;
        }
      }
      r := Ok(added);
    }

    /** Overwrites every column of the team with the same Id. */
    method UpdateTeam(t: Team) returns (o: Outcome)
      requires Valid()
      modifies this`teams
      ensures Valid()
      ensures o.Fail? <==> t.id !in TeamIds(old(teams)) || CategoryMissing(t, categories) || TeamClashes(t, old(teams))
      ensures o.Fail? ==> teams == old(teams)
      ensures o.Pass? ==> (|teams| == |old(teams)| &&
                forall i :: 0 <= i < |teams| ==> teams[i] == if old(teams)[i].id == t.id then t else old(teams)[i])
    {
      var k := IndexWhere(teams, (x: Team) => x.id == t.id);
      if k.None? {
        return Fail(ConcurrencyFailure);
      }
      if CategoryMissing(t, categories) {
        return Fail(ForeignKeyViolation);
      }
      if TeamClashes(t, teams) {
        return Fail(UniqueViolation);
      }
      var idx := k.value;
      ReplaceTeamKeepsWellFormed(categories, nextCategoryId, teams, nextTeamId, workouts, nextWorkoutId,
                                 workoutCategories, results, nextResultId, idx, t);
      teams := teams[idx := t];
      o := Pass;
    }

    /** Deletes a team and, by cascade, its results. */
    method RemoveTeam(id: int)
      requires Valid()
      requires id in TeamIds(teams)
      modifies this`teams, this`results
      ensures Valid()
      ensures teams == Filter(old(teams), TeamOtherThan(id))
      ensures results == Filter(old(results), NotOfTeam(id))
    {
      RemoveTeamKeepsWellFormed(teams, id, categories, nextTeamId, results, workouts, nextResultId);
      teams, results := Filter(teams, TeamOtherThan(id)), Filter(results, NotOfTeam(id));
    }

    // ------------------------------------------------------------------ Workouts

    predicate WorkoutClashes(w: Workout, others: seq<Workout>) {
      exists i :: 0 <= i < |others| && others[i].id != w.id && others[i].name == w.name
    }

    /** Inserts a workout with the next identity value. */
    method AddWorkout(w: Workout) returns (r: Result<Workout>)
      requires Valid()
      modifies this`workouts, this`nextWorkoutId
      ensures Valid()
      ensures r.Err? <==> exists i :: 0 <= i < |old(workouts)| && old(workouts)[i].name == w.name
      ensures r.Err? ==> r.error == UniqueViolation && workouts == old(workouts)
      ensures r.Ok? ==> (r.value == w.(id := old(nextWorkoutId)) && workouts == old(workouts) + [r.value]
                     && r.value.id !in WorkoutIds(old(workouts)))
    {
      if exists i :: 0 <= i < |workouts| && workouts[i].name == w.name {
        return Err(UniqueViolation);
      }
      var added := w.(id := nextWorkoutId);
      workouts := workouts + [added];
      nextWorkoutId := nextWorkoutId + 1;
      r := Ok(added);
    }

    /** Overwrites every column of the workout with the same Id. */
    method UpdateWorkout(w: Workout) returns (o: Outcome)
      requires Valid()
      modifies this`workouts
      ensures Valid()
      ensures o.Fail? <==> w.id !in WorkoutIds(old(workouts)) || WorkoutClashes(w, old(workouts))
      ensures o.Fail? ==> workouts == old(workouts)
      ensures WorkoutIds(workouts) == WorkoutIds(old(workouts))
      ensures o.Pass? ==> (|workouts| == |old(workouts)| &&
                forall i :: 0 <= i < |workouts| ==> workouts[i] == if old(workouts)[i].id == w.id then w else old(workouts)[i])
    {
      var k := IndexWhere(workouts, (x: Workout) => x.id == w.id);
      if k.None? {
        return Fail(ConcurrencyFailure);
      }
      if WorkoutClashes(w, workouts) {
        return Fail(UniqueViolation);
      }
      var idx := k.value;
      ghost var before := workouts;
      workouts := workouts[idx := w];
      forall i | 0 <= i < |workouts| ensures workouts[i] == if before[i].id == w.id then w else before[i] {
      }
      forall i, j | 0 <= i < j < |workouts| ensures workouts[i].name != workouts[j].name {
        if i == idx {
          assert before[j].id != w.id;
        } else if j == idx {
          assert before[i].id != w.id;
        }
      }
      SameWorkoutIds(before, workouts);
      o := Pass;
    }

    // ------------------------------------------------------------------ Workout–category links

    /** Replaces the category links of one workout; refused (foreign key) when
        a category does not exist. */
    method ReplaceLinks(workoutId: int, cats: set<int>) returns (o: Outcome)
      requires Valid()
      requires workoutId in WorkoutIds(workouts)
      modifies this`workoutCategories
      ensures Valid()
      ensures o.Fail? <==> exists c :: c in cats && c !in CategoryIds(categories)
      ensures o.Fail? ==> o.error == ForeignKeyViolation && workoutCategories == old(workoutCategories)
      ensures o.Pass? ==> workoutCategories == Relink(old(workoutCategories), workoutId, cats)
    {
      if exists c :: c in cats && c !in CategoryIds(categories) {
        return Fail(ForeignKeyViolation);
      }
      workoutCategories := Relink(workoutCategories, workoutId, cats);
      o := Pass;
    }

    /** Deletes a workout and, by cascade, its results and its category links. */
    method RemoveWorkout(id: int)
      requires Valid()
      requires id in WorkoutIds(workouts)
      modifies this`workouts, this`results, this`workoutCategories
      ensures Valid()
      ensures workouts == Filter(old(workouts), WorkoutOtherThan(id))
      ensures results == Filter(old(results), NotOfWorkout(id))
      ensures workoutCategories == LinksWithoutWorkout(old(workoutCategories), id)
    {
      RemoveWorkoutKeepsWellFormed(categories, nextCategoryId, teams, nextTeamId, workouts, nextWorkoutId,
                                   workoutCategories, results, nextResultId, id);
      workouts, results, workoutCategories :=
        Filter(workouts, WorkoutOtherThan(id)),
        Filter(results, NotOfWorkout(id)),
        LinksWithoutWorkout(workoutCategories, id);
    }
  }

  /** The link table after one save that deletes every link of `workoutId`
      and inserts one per category in `cats`. */
  function Relink(links: set<WorkoutCategory>, workoutId: int, cats: set<int>): set<WorkoutCategory> {
    LinksWithoutWorkout(links, workoutId) + (set c | c in cats :: WorkoutCategory(workoutId, c))
  }

  /** Afterwards the workout is linked to exactly the categories in `cats`,
      and every other workout keeps exactly the links it had. */
  lemma RelinkFacts(links: set<WorkoutCategory>, workoutId: int, cats: set<int>)
    ensures forall c :: WorkoutCategory(workoutId, c) in Relink(links, workoutId, cats) <==> c in cats
    ensures forall l: WorkoutCategory :: l.workoutId != workoutId ==> (l in Relink(links, workoutId, cats) <==> l in links)
  {
  }

  /** A workout without links gains exactly the new ones. */
  lemma RelinkFresh(links: set<WorkoutCategory>, workoutId: int, cats: set<int>)
    requires forall l :: l in links ==> l.workoutId != workoutId
    ensures Relink(links, workoutId, cats) == links + (set c | c in cats :: WorkoutCategory(workoutId, c))
  {
  }

  /** Two positions of a filtered sequence come from two positions of the original, in order. */
  lemma {:induction false} FilterPositions<T(!new)>(s: seq<T>, p: T -> bool, i: nat, j: nat) returns (a: nat, b: nat)
    requires i < j < |Filter(s, p)|
    ensures a < b < |s| && s[a] == Filter(s, p)[i] && s[b] == Filter(s, p)[j]
  {
    var r := Filter(s, p);
    var t := Filter(s[1..], p);
    assert r == (if p(s[0]) then [s[0]] else []) + t;
    if p(s[0]) {
      assert r[j] == t[j - 1];
      if i == 0 {
        assert t[j - 1] in s[1..];
        var k :| 0 <= k < |s[1..]| && s[1..][k] == t[j - 1];
        a, b := 0, k + 1;
      } else {
        var a', b' := FilterPositions(s[1..], p, i - 1, j - 1);
        assert r[i] == t[i - 1];
        a, b := a' + 1, b' + 1;
      }
    } else {
      assert r == t;
      var a', b' := FilterPositions(s[1..], p, i, j);
      a, b := a' + 1, b' + 1;
    }
  }

  /** Deleting a team, with its results, keeps the teams and the results well formed. */
  lemma RemoveTeamKeepsWellFormed(ts: seq<Team>, id: int, cs: seq<Category>, nextId: int,
                                  rs: seq<WorkoutResult>, ws: seq<Workout>, nextResultId: int)
    requires TeamsWellFormed(ts, cs, nextId) && ResultsWellFormed(rs, ts, ws, nextResultId)
    ensures var ts' := Filter(ts, TeamOtherThan(id));
      && TeamsWellFormed(ts', cs, nextId)
      && ResultsWellFormed(Filter(rs, NotOfTeam(id)), ts', ws, nextResultId)
  {
    var keep := TeamOtherThan(id);
    var keepResult := NotOfTeam(id);
    var ts' := Filter(ts, keep);
    FilterKeepsDistinct(ts, keep, (t: Team) => t.id);
    forall i, j | 0 <= i < j < |ts'| ensures TeamKeysDistinct(ts'[i], ts'[j]) {
      var a, b := FilterPositions(ts, keep, i, j);
    }
    forall i | 0 <= i < |ts'| ensures 1 <= ts'[i].id < nextId {
      assert ts'[i] in ts;
    }
    forall i | 0 <= i < |ts'| && ts'[i].categoryId.Some?
      ensures ts'[i].categoryId.value in CategoryIds(cs)
    {
      assert ts'[i] in ts;
    }
    forall r | r in rs && keepResult(r) ensures r.teamId in TeamIds(ts') && r.workoutId in WorkoutIds(ws) {
      var k :| 0 <= k < |rs| && rs[k] == r;
      var t :| t in ts && t.id == r.teamId;
      assert t in ts';
    }
    RemoveResultsKeepsWellFormed(rs, keepResult, ts, ts', ws, ws, nextResultId);
  }

  /** Overwriting the row with the same Id by a team that clashes with no
      other row and whose category exists keeps every table well formed. */
  lemma ReplaceTeamKeepsWellFormed(cs: seq<Category>, nextCategoryId: int, ts: seq<Team>, nextTeamId: int,
                                   ws: seq<Workout>, nextWorkoutId: int, links: set<WorkoutCategory>,
                                   rs: seq<WorkoutResult>, nextResultId: int, idx: nat, t: Team)
    requires TablesWellFormed(cs, nextCategoryId, ts, nextTeamId, ws, nextWorkoutId, links, rs, nextResultId)
    requires idx < |ts| && ts[idx].id == t.id
    requires forall i :: 0 <= i < |ts| && ts[i].id != t.id ==> TeamKeysDistinct(t, ts[i])
    requires t.categoryId.Some? ==> t.categoryId.value in CategoryIds(cs)
    ensures TablesWellFormed(cs, nextCategoryId, ts[idx := t], nextTeamId, ws, nextWorkoutId, links, rs, nextResultId)
    ensures forall i :: 0 <= i < |ts| ==> ts[idx := t][i] == if ts[i].id == t.id then t else ts[i]
  {
    var ts' := ts[idx := t];
    forall i, j | 0 <= i < j < |ts'| ensures TeamKeysDistinct(ts'[i], ts'[j]) {
      if i == idx {
        assert ts[j].id != t.id;
      } else if j == idx {
        assert ts[i].id != t.id;
      }
    }
    forall i | 0 <= i < |rs| ensures rs[i].teamId in TeamIds(ts') {
      var x :| x in ts && x.id == rs[i].teamId;
      var m :| 0 <= m < |ts| && ts[m] == x;
      assert ts'[m].id == x.id;
    }
  }

  /** Overwriting the row with the same Id by a category whose name no other row has keeps every table well formed. */
  lemma ReplaceCategoryKeepsWellFormed(cs: seq<Category>, idx: nat, c: Category, nextId: int, ts: seq<Team>, nextTeamId: int,
                                       links: set<WorkoutCategory>, ws: seq<Workout>)
    requires CategoriesWellFormed(cs, nextId) && TeamsWellFormed(ts, cs, nextTeamId) && LinksWellFormed(links, ws, cs)
    requires idx < |cs| && cs[idx].id == c.id
    requires forall i :: 0 <= i < |cs| && cs[i].id != c.id ==> cs[i].name != c.name
    ensures CategoriesWellFormed(cs[idx := c], nextId)
    ensures TeamsWellFormed(ts, cs[idx := c], nextTeamId) && LinksWellFormed(links, ws, cs[idx := c])
    ensures forall i :: 0 <= i < |cs| ==> cs[idx := c][i] == if cs[i].id == c.id then c else cs[i]
  {
    var cs' := cs[idx := c];
    forall i, j | 0 <= i < j < |cs'| ensures cs'[i].name != cs'[j].name {
      assert i == idx ==> cs[j].id != c.id;
      assert j == idx ==> cs[i].id != c.id;
    }
    assert CategoryIds(cs') == CategoryIds(cs) by {
      forall x | x in CategoryIds(cs) ensures x in CategoryIds(cs') {
        var d :| d in cs && d.id == x;
        var i :| 0 <= i < |cs| && cs[i] == d;
        assert cs'[i] in cs';
      }
      forall x | x in CategoryIds(cs') ensures x in CategoryIds(cs) {
        var d :| d in cs' && d.id == x;
        var i :| 0 <= i < |cs'| && cs'[i] == d;
        assert cs[i] in cs;
      }
    }
  }

  lemma SameWorkoutIds(a: seq<Workout>, b: seq<Workout>)
    requires |a| == |b| && forall i :: 0 <= i < |a| ==> a[i].id == b[i].id
    ensures WorkoutIds(a) == WorkoutIds(b)
  {
    forall x | x in WorkoutIds(a) ensures x in WorkoutIds(b) {
      var w :| w in a && w.id == x;
      var i :| 0 <= i < |a| && a[i] == w;
      assert b[i] in b;
    }
    forall x | x in WorkoutIds(b) ensures x in WorkoutIds(a) {
      var w :| w in b && w.id == x;
      var i :| 0 <= i < |b| && b[i] == w;
      assert a[i] in a;
    }
  }

  /** Deleting result rows whose parent rows go away keeps the result table well formed. */
  lemma RemoveResultsKeepsWellFormed(rs: seq<WorkoutResult>, keep: WorkoutResult -> bool,
                                     ts: seq<Team>, ts': seq<Team>, ws: seq<Workout>, ws': seq<Workout>, nextId: int)
    requires ResultsWellFormed(rs, ts, ws, nextId)
    requires forall r :: r in rs && keep(r) ==> r.teamId in TeamIds(ts') && r.workoutId in WorkoutIds(ws')
    ensures ResultsWellFormed(Filter(rs, keep), ts', ws', nextId)
  {
    var rs' := Filter(rs, keep);
    FilterKeepsDistinct(rs, keep, (r: WorkoutResult) => r.id);
    FilterKeepsDistinct(rs, keep, (r: WorkoutResult) => (r.teamId, r.workoutId));
    forall i | 0 <= i < |rs'| ensures 1 <= rs'[i].id < nextId {
      assert rs'[i] in rs;
      var k :| 0 <= k < |rs| && rs[k] == rs'[i];
    }
  }

  lemma RemoveCategoryKeepsWellFormed(cs: seq<Category>, id: int, nextId: int, ts: seq<Team>, nextTeamId: int,
                                      links: set<WorkoutCategory>, ws: seq<Workout>)
    requires CategoriesWellFormed(cs, nextId) && TeamsWellFormed(ts, cs, nextTeamId)
    requires LinksWellFormed(links, ws, cs)
    requires forall i :: 0 <= i < |ts| ==> ts[i].categoryId != Some(id)
    ensures var cs' := Filter(cs, CategoryOtherThan(id));
      && CategoriesWellFormed(cs', nextId)
      && TeamsWellFormed(ts, cs', nextTeamId)
      && LinksWellFormed(LinksWithoutCategory(links, id), ws, cs')
  {
    var keep := CategoryOtherThan(id);
    var cs' := Filter(cs, keep);
    FilterKeepsDistinct(cs, keep, (c: Category) => c.id);
    FilterKeepsDistinct(cs, keep, (c: Category) => c.name);
    forall i | 0 <= i < |cs'| ensures 1 <= cs'[i].id < nextId {
      assert cs'[i] in cs;
    }
    forall i | 0 <= i < |ts| && ts[i].categoryId.Some?
      ensures ts[i].categoryId.value in CategoryIds(cs')
    {
      var c :| c in cs && c.id == ts[i].categoryId.value;
      assert c in cs';
    }
    forall l | l in links && l.categoryId != id ensures l.categoryId in CategoryIds(cs') {
      var c :| c in cs && c.id == l.categoryId;
      assert c in cs';
    }
  }

  lemma RemoveWorkoutKeepsWellFormed(cs: seq<Category>, nextCategoryId: int, ts: seq<Team>, nextTeamId: int,
                                     ws: seq<Workout>, nextId: int, links: set<WorkoutCategory>,
                                     rs: seq<WorkoutResult>, nextResultId: int, id: int)
    requires TablesWellFormed(cs, nextCategoryId, ts, nextTeamId, ws, nextId, links, rs, nextResultId)
    ensures TablesWellFormed(cs, nextCategoryId, ts, nextTeamId, Filter(ws, WorkoutOtherThan(id)), nextId,
                             LinksWithoutWorkout(links, id), Filter(rs, NotOfWorkout(id)), nextResultId)
  {
    var keep := WorkoutOtherThan(id);
    var ws' := Filter(ws, keep);
    FilterKeepsDistinct(ws, keep, (w: Workout) => w.id);
    FilterKeepsDistinct(ws, keep, (w: Workout) => w.name);
    forall i | 0 <= i < |ws'| ensures 1 <= ws'[i].id < nextId {
      assert ws'[i] in ws;
    }
    forall l | l in links && l.workoutId != id ensures l.workoutId in WorkoutIds(ws') {
      var w :| w in ws && w.id == l.workoutId;
      assert w in ws';
    }
    var keepResult := NotOfWorkout(id);
    forall r | r in rs && keepResult(r) ensures r.teamId in TeamIds(ts) && r.workoutId in WorkoutIds(ws') {
      var i :| 0 <= i < |rs| && rs[i] == r;
      var w :| w in ws && w.id == r.workoutId;
      assert w in ws';
    }
    RemoveResultsKeepsWellFormed(rs, keepResult, ts, ts, ws, ws', nextResultId);
  }
}
