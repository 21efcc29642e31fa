/** The team admin actions (Controllers/TeamsController.cs): a team name
    may repeat across categories but not, ignoring case, within one; an edit
    overwrites the whole row with the posted fields. */
module TeamsController {
  import opened Entities
  import opened Data
  import opened Actions
  import TeamService

  /** `t.Name.ToLower() == name.ToLower() && t.CategoryId == categoryId`;
      two missing categories compare equal. */
  function SameTeamKey(name: string, categoryId: Option<int>): Team -> bool {
    (t: Team) => SameNameIgnoringCase(t.name, name) && t.categoryId == categoryId
  }

  /** The same test, skipping the team being edited. */
  function SameTeamKeyElsewhere(name: string, categoryId: Option<int>, id: int): Team -> bool {
    (t: Team) => SameNameIgnoringCase(t.name, name) && t.categoryId == categoryId && t.id != id
  }

  /** No two teams of one category (or both without one) have names that are
      equal ignoring case: the rule the actions keep. */
  ghost predicate TeamNamesDistinct(ts: seq<Team>) {
    forall i, j :: 0 <= i < j < |ts| ==> !SameTeamKey(ts[i].name, ts[i].categoryId)(ts[j])
  }

  /** The team a Create posts: only Name and CategoryId are bound. */
  function PostedTeam(name: string, categoryId: Option<int>): Team {
    Team(0, name, 0, categoryId, 0, 0)
  }

  /** A team that passed the controller's duplicate check cannot break the
      unique (Name, CategoryId) index either. */
  lemma NoDuplicateNoClash(db: Store, t: Team, others: seq<Team>, id: int)
    requires forall i :: 0 <= i < |others| ==> !SameTeamKeyElsewhere(t.name, t.categoryId, id)(others[i])
    requires t.id == id
    ensures !db.TeamClashes(t, others)
  {
    forall i | 0 <= i < |others| && others[i].id != t.id
      ensures TeamKeysDistinct(t, others[i])
    {
      assert !SameTeamKeyElsewhere(t.name, t.categoryId, id)(others[i]);
    }
  }

  /** `Create`: the form again when the model is invalid or the category
      already has a team of that name ignoring case; otherwise the team is
      inserted, which fails only on a category that does not exist. */
  method Create(db: Store, modelValid: bool, name: string, categoryId: Option<int>) returns (result: ActionResult)
    requires db.Valid()
    modifies db`teams, db`nextTeamId
    ensures db.Valid()
    ensures result == ShowForm <==> (!modelValid
      || exists i :: 0 <= i < |old(db.teams)| && SameTeamKey(name, categoryId)(old(db.teams)[i]))
    ensures result.Crash? <==> (result != ShowForm && db.CategoryMissing(PostedTeam(name, categoryId), db.categories))
    ensures result != RedirectToIndex(true) ==> db.teams == old(db.teams)
    ensures result == RedirectToIndex(true) ==>
      db.teams == old(db.teams) + [Team(old(db.nextTeamId), name, 0, categoryId, 0, 0)]
    ensures result == ShowForm || result.Crash? || result == RedirectToIndex(true)
    ensures TeamNamesDistinct(old(db.teams)) ==> TeamNamesDistinct(db.teams)
  {
    if !modelValid {
      return ShowForm;
    }
    var existing := FirstWhere(db.teams, SameTeamKey(name, categoryId));
    if existing.Some? {
      return ShowForm;
    }
    forall i | 0 <= i < |db.teams| ensures !SameTeamKey(name, categoryId)(db.teams[i]) {
      assert db.teams[i] in db.teams;
    }
    result := SaveNewTeam(db, PostedTeam(name, categoryId));
  }

  /** The write of `Create` once the checks passed: `CreateTeamAsync`, which
      fails only on a category that does not exist. */
  method SaveNewTeam(db: Store, team: Team) returns (result: ActionResult)
    requires db.Valid()
    requires forall i :: 0 <= i < |db.teams| ==> !SameTeamKey(team.name, team.categoryId)(db.teams[i])
    modifies db`teams, db`nextTeamId
    ensures db.Valid()
    ensures result.Crash? <==> db.CategoryMissing(team, db.categories)
    ensures !result.Crash? ==> result == RedirectToIndex(true)
    ensures result.Crash? ==> db.teams == old(db.teams)
    ensures result == RedirectToIndex(true) ==> db.teams == old(db.teams) + [team.(id := old(db.nextTeamId))]
    ensures TeamNamesDistinct(old(db.teams)) ==> TeamNamesDistinct(db.teams)
  {
    var added := team.(id := db.nextTeamId);
    forall i | 0 <= i < |db.teams| ensures !SameTeamKeyElsewhere(added.name, added.categoryId, added.id)(db.teams[i]) {
      assert !SameTeamKey(team.name, team.categoryId)(db.teams[i]);
    }
    NoDuplicateNoClash(db, added, db.teams, added.id);
    ghost var before := db.teams;
    var r := TeamService.CreateTeam(db, team);
    if r.Err? {
      return Crash(r.error);
    }
    result := RedirectToIndex(true);
    forall i | 0 <= i < |before| ensures !SameTeamKey(before[i].name, before[i].categoryId)(added) {
      assert !SameTeamKey(team.name, team.categoryId)(before[i]);
    }
  }

  /** The team an Edit posts: Id, Name, TotalPoints and CategoryId are bound,
      the tie-break counters are not. */
  function EditedTeam(teamId: int, name: string, totalPoints: int, categoryId: Option<int>): Team {
    Team(teamId, name, totalPoints, categoryId, 0, 0)
  }

  /** `Edit`: NotFound when the route id differs from the posted Id; the form
      again when the model is invalid or another team of the category has the
      name ignoring case; otherwise every column of the team is overwritten,
      its TotalPoints with the posted value. The update fails only on a team
      or a category that does not exist. */
  method Edit(db: Store, id: int, modelValid: bool, teamId: int, name: string, totalPoints: int, categoryId: Option<int>)
    returns (result: ActionResult)
    requires db.Valid()
    modifies db`teams
    ensures db.Valid()
    ensures result == NotFound <==> id != teamId
    ensures id == teamId ==> (result == ShowForm <==> (!modelValid
      || exists i :: 0 <= i < |old(db.teams)| && SameTeamKeyElsewhere(name, categoryId, id)(old(db.teams)[i])))
    ensures result.Crash? <==> (result != NotFound && result != ShowForm
      && (id !in TeamIds(old(db.teams)) || db.CategoryMissing(EditedTeam(teamId, name, totalPoints, categoryId), db.categories)))
    ensures result != RedirectToIndex(true) ==> db.teams == old(db.teams)
    ensures result == RedirectToIndex(true) ==> (|db.teams| == |old(db.teams)| &&
      forall i :: 0 <= i < |db.teams| ==>
        db.teams[i] == if old(db.teams)[i].id == id then Team(id, name, totalPoints, categoryId, 0, 0) else old(db.teams)[i])
    ensures result == NotFound || result == ShowForm || result.Crash? || result == RedirectToIndex(true)
    ensures TeamNamesDistinct(old(db.teams)) ==> TeamNamesDistinct(db.teams)
  {
    if id != teamId {
      return NotFound;
    }
    if !modelValid {
      return ShowForm;
    }
    var existing := FirstWhere(db.teams, SameTeamKeyElsewhere(name, categoryId, id));
    if existing.Some? {
      var i :| 0 <= i < |db.teams| && db.teams[i] == existing.value;
      return ShowForm;
    }
    forall i | 0 <= i < |db.teams| ensures !SameTeamKeyElsewhere(name, categoryId, id)(db.teams[i]) {
      assert db.teams[i] in db.teams;
    }
    result := SaveEditedTeam(db, EditedTeam(teamId, name, totalPoints, categoryId));
  }

  /** The write of `Edit` once the checks passed: `UpdateTeamAsync`, which
      fails only on a team or a category that does not exist. */
  method SaveEditedTeam(db: Store, team: Team) returns (result: ActionResult)
    requires db.Valid()
    requires forall i :: 0 <= i < |db.teams| ==> !SameTeamKeyElsewhere(team.name, team.categoryId, team.id)(db.teams[i])
    modifies db`teams
    ensures db.Valid()
    ensures result.Crash? <==> (team.id !in TeamIds(old(db.teams)) || db.CategoryMissing(team, db.categories))
    ensures !result.Crash? ==> result == RedirectToIndex(true)
    ensures result.Crash? ==> db.teams == old(db.teams)
    ensures result == RedirectToIndex(true) ==> (|db.teams| == |old(db.teams)| &&
      forall i :: 0 <= i < |db.teams| ==>
        db.teams[i] == if old(db.teams)[i].id == team.id then team else old(db.teams)[i])
    ensures TeamNamesDistinct(old(db.teams)) ==> TeamNamesDistinct(db.teams)
  {
    NoDuplicateNoClash(db, team, db.teams, team.id);
    ghost var before := db.teams;
    var o := TeamService.UpdateTeam(db, team);
    if o.Fail? {
      return Crash(o.error);
    }
    result := RedirectToIndex(true);
    UpdateKeepsNamesDistinct(before, db.teams, team);
  }

  /** Overwriting the row with `t`'s Id by a team that passed the duplicate
      check keeps the team names distinct. */
  lemma UpdateKeepsNamesDistinct(before: seq<Team>, after: seq<Team>, t: Team)
    requires |after| == |before|
    requires forall i :: 0 <= i < |before| ==> after[i] == if before[i].id == t.id then t else before[i]
    requires forall i :: 0 <= i < |before| ==> !SameTeamKeyElsewhere(t.name, t.categoryId, t.id)(before[i])
    requires forall i, j :: 0 <= i < j < |before| ==> before[i].id != before[j].id
    ensures TeamNamesDistinct(before) ==> TeamNamesDistinct(after)
  {
    if TeamNamesDistinct(before) {
      forall i, j | 0 <= i < j < |after|
        ensures !SameTeamKey(after[i].name, after[i].categoryId)(after[j])
      {
        if before[i].id == t.id {
          assert !SameTeamKeyElsewhere(t.name, t.categoryId, t.id)(before[j]);
        } else if before[j].id == t.id {
          assert !SameTeamKeyElsewhere(t.name, t.categoryId, t.id)(before[i]);
        } else {
          assert !SameTeamKey(before[i].name, before[i].categoryId)(before[j]);
        }
      }
    }
  }
}
