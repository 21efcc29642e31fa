/** The category admin actions (Controllers/CategoriesController.cs): a
    case-insensitive name check before every insert or update, and a delete
    that is refused while teams or workouts still use the category. */
module CategoriesController {
  import opened Entities
  import opened Data
  import opened Actions

  /** `c.Name.ToLower() == name.ToLower()`. */
  function SameNameAs(name: string): Category -> bool {
    (c: Category) => SameNameIgnoringCase(c.name, name)
  }

  /** The same test, skipping the category being edited. */
  function SameNameElsewhere(name: string, id: int): Category -> bool {
    (c: Category) => SameNameIgnoringCase(c.name, name) && c.id != id
  }

  /** No two categories have names that are equal ignoring case: the rule the
      actions keep, stricter than the exact unique index of the table. */
  ghost predicate NamesDistinctIgnoringCase(cs: seq<Category>) {
    forall i, j :: 0 <= i < j < |cs| ==> !SameNameIgnoringCase(cs[i].name, cs[j].name)
  }

  /** `Create`: refused with the form when the model is invalid or a category
      of the same name (ignoring case) exists; otherwise the category is added. */
  method Create(db: Store, modelValid: bool, name: string, description: Option<string>) returns (result: ActionResult)
    requires db.Valid()
    modifies db`categories, db`nextCategoryId
    ensures db.Valid()
    ensures result == ShowForm <==> (!modelValid || exists i :: 0 <= i < |old(db.categories)| && SameNameIgnoringCase(old(db.categories)[i].name, name))
    ensures result == ShowForm ==> db.categories == old(db.categories)
    ensures result != ShowForm ==> (result == RedirectToIndex(true)
      && db.categories == old(db.categories) + [Category(old(db.nextCategoryId), name, description)])
    ensures NamesDistinctIgnoringCase(old(db.categories)) ==> NamesDistinctIgnoringCase(db.categories)
  {
    if !modelValid {
      return ShowForm;
    }
    var existing := FirstWhere(db.categories, SameNameAs(name));
    if existing.Some? {
      return ShowForm;
    }
    forall i | 0 <= i < |db.categories| ensures !SameNameIgnoringCase(db.categories[i].name, name) {
      assert db.categories[i] in db.categories;
      assert !SameNameAs(name)(db.categories[i]);
    }
    var r := db.AddCategory(name, description);
    assert r.Ok?;
    result := RedirectToIndex(true);
  }

  /** `Edit`: a route id that differs from the posted Id is NotFound; an
      invalid model or a name taken, ignoring case, by another category shows
      the form; an update of a category that no longer exists is NotFound.
      Keeping its own name is allowed. */
  method Edit(db: Store, id: int, modelValid: bool, category: Category) returns (result: ActionResult)
    requires db.Valid()
    modifies db`categories
    ensures db.Valid()
    ensures result == NotFound <==> (id != category.id
      || (modelValid && !(exists i :: 0 <= i < |old(db.categories)| && SameNameElsewhere(category.name, id)(old(db.categories)[i]))
          && id !in CategoryIds(old(db.categories))))
    ensures id == category.id ==> (result == ShowForm <==>
      (!modelValid || exists i :: 0 <= i < |old(db.categories)| && SameNameElsewhere(category.name, id)(old(db.categories)[i])))
    ensures result != RedirectToIndex(true) ==> db.categories == old(db.categories)
    ensures result == RedirectToIndex(true) ==> (|db.categories| == |old(db.categories)| &&
      forall i :: 0 <= i < |db.categories| ==>
        db.categories[i] == if old(db.categories)[i].id == id then category else old(db.categories)[i])
    ensures result == NotFound || result == ShowForm || result == RedirectToIndex(true)
    ensures NamesDistinctIgnoringCase(old(db.categories)) ==> NamesDistinctIgnoringCase(db.categories)
  {
    if id != category.id {
      return NotFound;
    }
    if !modelValid {
      return ShowForm;
    }
    var existing := FirstWhere(db.categories, SameNameElsewhere(category.name, id));
    if existing.Some? {
      var i :| 0 <= i < |db.categories| && db.categories[i] == existing.value;
      return ShowForm;
    }
    assert forall i :: 0 <= i < |db.categories| ==> !SameNameElsewhere(category.name, id)(db.categories[i]);
    ghost var before := db.categories;
    var o := db.UpdateCategory(category);
    if o.Fail? {
      // the concurrency handler: NotFound when the category is gone, rethrown otherwise
      result := if category.id in CategoryIds(db.categories) then Crash(o.error) else NotFound;
      return;
    }
    result := RedirectToIndex(true);
    forall i, j | 0 <= i < j < |db.categories| && NamesDistinctIgnoringCase(before)
      ensures !SameNameIgnoringCase(db.categories[i].name, db.categories[j].name)
    {
      if before[i].id == id {
        assert before[j].id != id;
      } else if before[j].id == id {
        assert before[i].id != id;
      }
    }
  }

  /** `DeleteConfirmed`: NotFound for a missing id; refused, with an error
      message and nothing changed, while a team belongs to the category or a
      workout is linked to it; otherwise the category is removed. */
  method DeleteConfirmed(db: Store, id: int) returns (result: ActionResult)
    requires db.Valid()
    modifies db`categories, db`workoutCategories
    ensures db.Valid()
    ensures result == NotFound <==> id !in CategoryIds(old(db.categories))
    ensures result == RedirectToIndex(false) <==> (id in CategoryIds(old(db.categories))
      && ((exists i :: 0 <= i < |old(db.teams)| && old(db.teams)[i].categoryId == Some(id))
          || (exists l :: l in old(db.workoutCategories) && l.categoryId == id)))
    ensures result != RedirectToIndex(true) ==> db.categories == old(db.categories)
    ensures result == RedirectToIndex(true) ==> db.categories == Filter(old(db.categories), CategoryOtherThan(id))
    ensures db.workoutCategories == old(db.workoutCategories)
    ensures result == NotFound || result == RedirectToIndex(false) || result == RedirectToIndex(true)
  {
    var category := FirstWhere(db.categories, (c: Category) => c.id == id);
    if category.None? {
      return NotFound;
    }
    if exists i :: 0 <= i < |db.teams| && db.teams[i].categoryId == Some(id) {
      return RedirectToIndex(false);
    }
    if exists l :: l in db.workoutCategories && l.categoryId == id {
      return RedirectToIndex(false);
    }
    result := RemoveUnused(db, id);
  }

  /** The write of `DeleteConfirmed` once the guards passed: the category is
      removed, and as no link refers to it the links stay as they are. */
  method RemoveUnused(db: Store, id: int) returns (result: ActionResult)
    requires db.Valid()
    requires id in CategoryIds(db.categories)
    requires forall i :: 0 <= i < |db.teams| ==> db.teams[i].categoryId != Some(id)
    requires forall l :: l in db.workoutCategories ==> l.categoryId != id
    modifies db`categories, db`workoutCategories
    ensures db.Valid()
    ensures result == RedirectToIndex(true)
    ensures db.categories == Filter(old(db.categories), CategoryOtherThan(id))
    ensures db.workoutCategories == old(db.workoutCategories)
  {
    ghost var links := db.workoutCategories;
    var o := db.RemoveCategory(id);
    assert o.Pass?;
    assert db.workoutCategories == links;
    result := RedirectToIndex(true);
  }
}
