/** The workout admin actions (Controllers/WorkoutsController.cs): the
    workout row is written first, then its category links are added (Create)
    or replaced by the submitted set (Edit) in a second save. */
module WorkoutsController {
  import opened Entities
  import opened Data
  import opened Actions

  /** The ids of a list, as a set. */
  function IdSet(ids: seq<int>): set<int> {
    set k | 0 <= k < |ids| :: ids[k]
  }

  predicate HasRepeat(ids: seq<int>) {
    exists i, j :: 0 <= i < j < |ids| && ids[i] == ids[j]
  }

  /** The `foreach` that adds one link per submitted category id to the unit
      of work. Adding a second link with an id already added fails at once, as
      the change tracker refuses two instances of one key. */
  method TrackedCategories(ids: seq<int>) returns (r: Result<set<int>>)
    ensures r.Err? <==> HasRepeat(ids)
    ensures r.Err? ==> r.error == DuplicateTracking
    ensures r.Ok? ==> r.value == IdSet(ids)
  {
    var tracked: set<int> := {};
    for k := 0 to |ids|
      invariant tracked == IdSet(ids[..k])
      invariant !HasRepeat(ids[..k])
    {
      if ids[k] in tracked {
        var i :| 0 <= i < k && ids[..k][i] == ids[k];
        assert ids[i] == ids[k];
        return Err(DuplicateTracking);
      }
      assert ids[..k + 1] == ids[..k] + [ids[k]];
      tracked := tracked + {ids[k]};
    }
    assert ids[..|ids|] == ids;
    r := Ok(tracked);
  }

  /** The categories a request links to; a null list is an empty one. */
  function Submitted(categoryIds: Option<seq<int>>): seq<int> {
    if categoryIds.Some? then categoryIds.value else []
  }

  /** The links of one workout. */
  function LinkedCategories(links: set<WorkoutCategory>, workoutId: int): set<int> {
    set l | l in links && l.workoutId == workoutId :: l.categoryId
  }

  /** After a relink a workout is linked to exactly the submitted categories
      and every other workout keeps its links. */
  lemma RelinkMeaning(links: set<WorkoutCategory>, workoutId: int, cats: set<int>, other: int)
    requires other != workoutId
    ensures LinkedCategories(Relink(links, workoutId, cats), workoutId) == cats
    ensures LinkedCategories(Relink(links, workoutId, cats), other) == LinkedCategories(links, other)
  {
    RelinkFacts(links, workoutId, cats);
    var after := Relink(links, workoutId, cats);
    forall c | c in LinkedCategories(after, workoutId) ensures c in cats {
      var l :| l in after && l.workoutId == workoutId && l.categoryId == c;
      assert l == WorkoutCategory(workoutId, c);
    }
    forall c | c in cats ensures c in LinkedCategories(after, workoutId) {
      assert WorkoutCategory(workoutId, c) in after;
    }
    forall c | c in LinkedCategories(after, other) ensures c in LinkedCategories(links, other) {
      var l :| l in after && l.workoutId == other && l.categoryId == c;
      assert l in links;
    }
    forall c | c in LinkedCategories(links, other) ensures c in LinkedCategories(after, other) {
      var l :| l in links && l.workoutId == other && l.categoryId == c;
      assert l in after;
    }
  }

  /** A workout with a fresh id has no links. */
  lemma NoLinksYet(links: set<WorkoutCategory>, workoutId: int)
    requires forall l :: l in links ==> l.workoutId != workoutId
    ensures LinkedCategories(links, workoutId) == {}
  {
  }

  /** The second half of `Create`: one link per submitted category for the
      workout just inserted, saved together; nothing when the list is null or
      empty. */
  method LinkNewWorkout(db: Store, newId: int, categoryIds: Option<seq<int>>) returns (result: ActionResult)
    requires db.Valid()
    requires newId in WorkoutIds(db.workouts)
    requires forall l :: l in db.workoutCategories ==> l.workoutId != newId
    modifies db`workoutCategories
    ensures db.Valid()
    ensures result.Crash? <==> (HasRepeat(Submitted(categoryIds))
      || exists c :: c in Submitted(categoryIds) && c !in CategoryIds(db.categories))
    ensures result.Crash? ==> ((result.error == DuplicateTracking || result.error == ForeignKeyViolation)
      && db.workoutCategories == old(db.workoutCategories))
    ensures !result.Crash? ==> (result == RedirectToIndex(true)
      && db.workoutCategories == old(db.workoutCategories)
           + (set c | c in Submitted(categoryIds) :: WorkoutCategory(newId, c))
      && LinkedCategories(db.workoutCategories, newId) == IdSet(Submitted(categoryIds)))
  {
    var ids := Submitted(categoryIds);
    assert forall c :: c in ids <==> c in IdSet(ids);
    NoLinksYet(db.workoutCategories, newId);
    if categoryIds != None && |categoryIds.value| > 0 {
      var cats := TrackedCategories(ids);
      if cats.Err? {
        return Crash(cats.error);
      }
      ghost var links := db.workoutCategories;
      var o := db.ReplaceLinks(newId, cats.value);
      if o.Fail? {
        return Crash(o.error);
      }
      RelinkFresh(links, newId, cats.value);
      RelinkMeaning(links, newId, cats.value, newId + 1);
      assert (set c | c in ids :: WorkoutCategory(newId, c)) == (set c | c in cats.value :: WorkoutCategory(newId, c));
    } else {
      assert ids == [];
      assert !HasRepeat(ids);
      assert (set c | c in ids :: WorkoutCategory(newId, c)) == {};
      assert IdSet(ids) == {};
    }
    result := RedirectToIndex(true);
  }

  /** `Create`: the form again, with nothing written, when the model is
      invalid. Otherwise the workout is inserted (refused on a name in use);
      then, when categories were submitted, one link per category is added in
      a second save. A failure there leaves the inserted workout without
      links. */
  method Create(db: Store, modelValid: bool, workout: Workout, categoryIds: Option<seq<int>>)
    returns (result: ActionResult)
    requires db.Valid()
    modifies db`workouts, db`nextWorkoutId, db`workoutCategories
    ensures db.Valid()
    ensures result == ShowForm <==> !modelValid
    ensures modelValid ==> (result == Crash(UniqueViolation) <==>
      exists i :: 0 <= i < |old(db.workouts)| && old(db.workouts)[i].name == workout.name)
    ensures result == ShowForm || result == Crash(UniqueViolation) ==> db.workouts == old(db.workouts)
    ensures result != ShowForm && result != Crash(UniqueViolation) ==> (
      && db.workouts == old(db.workouts) + [workout.(id := old(db.nextWorkoutId))]
      && (result.Crash? <==> (HasRepeat(Submitted(categoryIds))
            || exists c :: c in Submitted(categoryIds) && c !in CategoryIds(db.categories))))
    ensures result != RedirectToIndex(true) ==> db.workoutCategories == old(db.workoutCategories)
    ensures result == RedirectToIndex(true) ==> (
      && db.workoutCategories == old(db.workoutCategories)
           + (set c | c in Submitted(categoryIds) :: WorkoutCategory(old(db.nextWorkoutId), c))
      && LinkedCategories(db.workoutCategories, old(db.nextWorkoutId)) == IdSet(Submitted(categoryIds)))
    ensures result == ShowForm || result.Crash? || result == RedirectToIndex(true)
  {
    if !modelValid {
      return ShowForm;
    }
    var created := db.AddWorkout(workout);
    if created.Err? {
      return Crash(created.error);
    }
    assert created.value.id in WorkoutIds(db.workouts) by {
      assert db.workouts[|db.workouts| - 1] == created.value;
    }
    result := LinkNewWorkout(db, created.value.id, categoryIds);
  }

  /** Whether an Edit gets as far as overwriting the workout row. */
  predicate WorkoutWritten(db: Store, id: int, modelValid: bool, workout: Workout, ws: seq<Workout>) {
    id == workout.id && modelValid && id in WorkoutIds(ws) && !db.WorkoutClashes(workout, ws)
  }

  /** `Edit`: NotFound when the route id differs from the posted Id; the form
      again, with nothing written, when the model is invalid. Otherwise the
      workout row is overwritten and saved; then all its links are removed
      and one per submitted category added, in a second save. */
  method Edit(db: Store, id: int, modelValid: bool, workout: Workout, categoryIds: Option<seq<int>>)
    returns (result: ActionResult)
    requires db.Valid()
    modifies db`workouts, db`workoutCategories
    ensures db.Valid()
    ensures result == NotFound <==> id != workout.id
    ensures id == workout.id ==> (result == ShowForm <==> !modelValid)
    ensures id == workout.id && modelValid ==> (result.Crash? <==>
      (id !in WorkoutIds(old(db.workouts)) || db.WorkoutClashes(workout, old(db.workouts))
       || HasRepeat(Submitted(categoryIds))
       || exists c :: c in Submitted(categoryIds) && c !in CategoryIds(db.categories)))
    ensures !WorkoutWritten(db, id, modelValid, workout, old(db.workouts)) ==> db.workouts == old(db.workouts)
    ensures WorkoutWritten(db, id, modelValid, workout, old(db.workouts)) ==>
      (|db.workouts| == |old(db.workouts)| &&
       forall i :: 0 <= i < |db.workouts| ==>
         db.workouts[i] == if old(db.workouts)[i].id == id then workout else old(db.workouts)[i])
    ensures result != RedirectToIndex(true) ==> db.workoutCategories == old(db.workoutCategories)
    ensures result == RedirectToIndex(true) ==> (
      && db.workoutCategories == Relink(old(db.workoutCategories), id, IdSet(Submitted(categoryIds)))
      && LinkedCategories(db.workoutCategories, id) == IdSet(Submitted(categoryIds))
      && forall other :: other != id ==>
           LinkedCategories(db.workoutCategories, other) == LinkedCategories(old(db.workoutCategories), other))
    ensures result == NotFound || result == ShowForm || result.Crash? || result == RedirectToIndex(true)
  {
    if id != workout.id {
      return NotFound;
    }
    if !modelValid {
      return ShowForm;
    }
    var o := db.UpdateWorkout(workout);
    if o.Fail? {
      return Crash(o.error);
    }
    result := RelinkEdited(db, id, categoryIds);
  }

  /** The second half of `Edit`: every link of the workout removed and one
      per submitted category added, saved together. */
  method RelinkEdited(db: Store, id: int, categoryIds: Option<seq<int>>) returns (result: ActionResult)
    requires db.Valid()
    requires id in WorkoutIds(db.workouts)
    modifies db`workoutCategories
    ensures db.Valid()
    ensures result.Crash? <==> (HasRepeat(Submitted(categoryIds))
      || exists c :: c in Submitted(categoryIds) && c !in CategoryIds(db.categories))
    ensures result.Crash? ==> db.workoutCategories == old(db.workoutCategories)
    ensures !result.Crash? ==> (
      && result == RedirectToIndex(true)
      && db.workoutCategories == Relink(old(db.workoutCategories), id, IdSet(Submitted(categoryIds)))
      && LinkedCategories(db.workoutCategories, id) == IdSet(Submitted(categoryIds))
      && forall other :: other != id ==>
           LinkedCategories(db.workoutCategories, other) == LinkedCategories(old(db.workoutCategories), other))
  {
    var ids := Submitted(categoryIds);
    var cats := TrackedCategories(ids);
    if cats.Err? {
      return Crash(cats.error);
    }
    assert forall c :: c in ids <==> c in cats.value;
    ghost var links := db.workoutCategories;
    var r := db.ReplaceLinks(id, cats.value);
    if r.Fail? {
      return Crash(r.error);
    }
    forall other | other != id
      ensures LinkedCategories(db.workoutCategories, other) == LinkedCategories(links, other)
    {
      RelinkMeaning(links, id, cats.value, other);
    }
    RelinkMeaning(links, id, cats.value, id + 1);
    result := RedirectToIndex(true);
  }
}
