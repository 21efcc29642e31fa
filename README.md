# CrossFit leaderboard core, in Dafny

This project models the scoreboard of a CrossFit competition web application. Teams, which may belong to a
category, record one result per workout. Every time a result is entered, the engine ranks all positive
results of that workout: the more repetitions or weight the better, the less time the better. A ranked
result gets Position = Points = its place. The smallest total of Points wins.

The model covers:

- **The store (`Data.Store`).** The five tables, their keys and unique indexes, the optional foreign key
  from a team to its category, and the delete rules: cascade from teams and workouts, restrict from
  categories, cascade from categories to their workout links. The class invariant `Valid()` is the
  conjunction of these rules. Every insert, update and delete method keeps it and states its whole effect
  on the tables it touches.
- **The scoreboard engine (`LeaderboardService`).**
  - The result upsert and the re-ranking of one workout.
  - The category-filtered leaderboard, with its complete team × workout matrix.
  - The reset.
- **Team totals and the points ordering (`TeamService`).** Also the team inserts, updates and deletes
  that the team controller goes through.
- **The report (`PdfService`).**
  - The text helpers.
  - The per-cell rule.
  - The grouping of teams by category, and the standings comparator.
  - Which categories get a table, and the table's shape and contents.
- **The admin actions (`CategoriesController`, `TeamsController`, `WorkoutsController`).**
  - Name uniqueness ignoring case.
  - The guarded category delete.
  - The replacement of a workout's category links.

Each action returns an `Actions.ActionResult`, which is one of:

- a redirect to the list, with a success or an error message;
- the form again;
- NotFound;
- an exception the action does not catch.

A measurement is an exact number of hundredths (`Option<int>`, since the column is nullable with two
decimals). The sorts are LINQ's stable `OrderBy`. They are modelled by one stable insertion sort on
lexicographic integer keys (`Sorting.SortBy`), which is proved to be a permutation, sorted and stable.

The model follows the code as written; in particular:

- Ranking is over all teams of a workout, not per category.
- There is no disqualified tier.
- TotalPoints is not recomputed after a result changes.
- The reset leaves TotalPoints as they are.
- Nothing computes FirstPlaceCount or SecondPlaceCount.
- A team edit writes the posted TotalPoints. Because the edit form does not bind the two tie-break counters,
  the edit also resets them to 0.

## Model

| member | source | states |
|---|---|---|
| Entities.Lower | Controllers/CategoriesController.cs:44 | `ToLower`: same length, and every character is lowered independently (ASCII letters only) |
| Entities.DistinctIgnoringCaseIsDistinct | Data/ApplicationDbContext.cs:32 | names that differ ignoring case differ, so the controllers' case-insensitive checks imply the exact unique index |
| Entities.FirstWhere | Controllers/CategoriesController.cs:43-44 | `FirstOrDefault`: None iff no element satisfies the test; otherwise the first element that does |
| Entities.Filter | Services/LeaderboardService.cs:35-39 | `Where`: exactly the elements that satisfy the test, none added, in order |
| Entities.IndexWhere | Services/LeaderboardService.cs:105-106 | the position of the first element that satisfies the test, or None iff there is none |
| Entities.FilterKeepsDistinct | Data/ApplicationDbContext.cs:26 | deleting rows keeps a key that was distinct distinct |
| Sorting.SortByPermutes | Services/LeaderboardService.cs:150-154 | `OrderBy` returns a permutation of its input |
| Sorting.SortBySorted | Services/LeaderboardService.cs:150-154 | `OrderBy` output is non-decreasing in the key |
| Sorting.SortByStable | Services/LeaderboardService.cs:150-154 | `OrderBy` is stable: the elements with any one key keep their relative order |
| Sorting.SortByTiesIncreasing | Services/LeaderboardService.cs:150-154 | sorting an increasing index list puts equal-key indices in increasing order |
| Sorting.FilterKeepsSorted | Services/PdfService.cs:57-61 | a sub-sequence of a sorted sequence is sorted |
| Data.Store.constructor | Data/ApplicationDbContext.cs:8-11 | an empty store satisfies every table rule |
| Data.Store.SaveResults | Services/LeaderboardService.cs:126 | a save of a well-formed results table replaces the table and its identity counter |
| Data.Store.AddCategory | Data/ApplicationDbContext.cs:26-32 | insert: refused with UniqueViolation iff the exact name exists; otherwise the category is appended with the next identity value, a new Id |
| Data.Store.UpdateCategory | Data/ApplicationDbContext.cs:26-32 | update: ConcurrencyFailure when the Id is missing; otherwise refused iff another category has the name; otherwise that row, and only that row, is replaced |
| Data.Store.RemoveCategory | Data/ApplicationDbContext.cs:45-81 | delete: refused (restrict) iff a team refers to the category; otherwise the category and, by cascade, its workout links are removed |
| Data.Store.AddTeam | Data/ApplicationDbContext.cs:38-51 | insert: refused iff the category is missing or the (Name, CategoryId) index would clash; otherwise appended with the next identity value |
| Data.Store.UpdateTeam | Data/ApplicationDbContext.cs:38-51 | update: refused iff the Id is missing, the category is missing or the index would clash; otherwise that row is replaced pointwise |
| Data.Store.RemoveTeam | Data/ApplicationDbContext.cs:95-98 | deleting a team deletes exactly that team and all of its results |
| Data.Store.AddWorkout | Data/ApplicationDbContext.cs:57-65 | insert: refused with UniqueViolation iff the name exists; otherwise appended with the next identity value |
| Data.Store.UpdateWorkout | Data/ApplicationDbContext.cs:57-65 | update: refused iff the Id is missing or another workout has the name; otherwise that row is replaced pointwise, and the set of Ids is unchanged |
| Data.Store.ReplaceLinks | Data/ApplicationDbContext.cs:71-81 | one save replacing a workout's links: refused (foreign key) iff a category is missing, otherwise the links become `Relink` |
| Data.Store.RemoveWorkout | Data/ApplicationDbContext.cs:73-103 | deleting a workout deletes exactly that workout, its results and its category links |
| Data.RelinkFacts | Data/ApplicationDbContext.cs:71 | after a relink, the workout's link (w, c) exists iff c was submitted, and every link of another workout is kept exactly |
| Data.RelinkFresh | Data/ApplicationDbContext.cs:71 | relinking a workout that had no links only adds the new links |
| Data.UniqueRowOfPair | Data/ApplicationDbContext.cs:106 | under the unique (TeamId, WorkoutId) index, two rows of one pair are the same row |
| Data.SameKeysKeepWellFormed | Data/ApplicationDbContext.cs:87-106 | the results table rules depend only on the row keys, so rewriting Result, Position or Points keeps them |
| Data.RemoveTeamKeepsWellFormed | Data/ApplicationDbContext.cs:95-98 | a team delete with its cascade keeps every table rule |
| Data.ReplaceTeamKeepsWellFormed | Data/ApplicationDbContext.cs:45-51 | replacing a team by one with an existing category and no index clash keeps every table rule |
| Data.ReplaceCategoryKeepsWellFormed | Data/ApplicationDbContext.cs:26-32 | replacing a category by one whose name no other row has keeps every table rule |
| Data.RemoveResultsKeepsWellFormed | Data/ApplicationDbContext.cs:95-103 | deleting the result rows of a removed parent keeps the results table rules |
| Data.RemoveCategoryKeepsWellFormed | Data/ApplicationDbContext.cs:45-81 | a category delete that no team restricts, together with its link cascade, keeps every table rule |
| Data.RemoveWorkoutKeepsWellFormed | Data/ApplicationDbContext.cs:73-103 | a workout delete with its two cascades keeps every table rule |
| LeaderboardService.RankedIndices | Services/LeaderboardService.cs:137-139 | the rows taking part are exactly those of the workout with Result > 0 (null excluded), whatever the team's category, in storage order |
| LeaderboardService.RankingOrderFacts | Services/LeaderboardService.cs:137-159 | the sorted order holds each ranked row exactly once, sorted by key, with equal keys in storage order |
| LeaderboardService.AssignPositionsAt | Services/LeaderboardService.cs:162-166 | after n steps, the i-th row of the order has Position = Points = i + 1, and rows not yet reached are unchanged |
| LeaderboardService.RerankedAt | Services/LeaderboardService.cs:162-166 | the row at place i of the order gets Position = Points = i + 1 and keeps every other field |
| LeaderboardService.RerankedLeavesOthers | Services/LeaderboardService.cs:137-173 | rows of other workouts, and rows with Result <= 0 or null, keep every field, stale Position and Points included |
| LeaderboardService.PlaceOf | Services/LeaderboardService.cs:162-166 | every ranked row gets Position = Points = its place in the order plus one |
| LeaderboardService.RerankedKeepsMeasurements | Services/LeaderboardService.cs:162-166 | ranking rewrites only Position and Points |
| LeaderboardService.PositionsInRange | Services/LeaderboardService.cs:162-166 | a ranked row's Position is in 1..n, and its Points equal its Position |
| LeaderboardService.PositionsDistinct | Services/LeaderboardService.cs:162-166 | two ranked rows never share a Position |
| LeaderboardService.PositionsAreOneToN | Services/LeaderboardService.cs:162-166 | the Positions of the n ranked rows are exactly 1..n |
| LeaderboardService.BetterKeyFirst | Services/LeaderboardService.cs:145-166 | a strictly better sort key gets a strictly smaller Position |
| LeaderboardService.MoreIsBetter | Services/LeaderboardService.cs:147-151 | for Repetitions and Weight, a strictly larger Result gets a strictly smaller Position |
| LeaderboardService.LessIsBetter | Services/LeaderboardService.cs:152-155 | for Time, a strictly smaller Result gets a strictly smaller Position |
| LeaderboardService.TiesKeepStorageOrder | Services/LeaderboardService.cs:150-154 | equal Results are ranked in storage order, because the sort is stable |
| LeaderboardService.NoRankedRowsNoChange | Services/LeaderboardService.cs:141 | with no row to rank, the pass changes nothing |
| LeaderboardService.RerankedSameOrder | Services/LeaderboardService.cs:137-159 | a ranked table sorts into the same order again |
| LeaderboardService.RerankedKeysAgree | Services/LeaderboardService.cs:145-159 | ranking leaves every row's sort key as it was |
| LeaderboardService.RerankIdempotent | Services/LeaderboardService.cs:132-175 | ranking the same workout twice gives the same table as ranking it once |
| LeaderboardService.UpsertedHoldsValue | Services/LeaderboardService.cs:105-124 | after the upsert the pair has exactly one row, holding the new value; other rows are untouched; the table grows by one iff the pair had no row |
| LeaderboardService.InsertedRowWellFormed | Services/LeaderboardService.cs:108-117 | appending the row of a new pair whose team and workout exist keeps the table rules |
| LeaderboardService.UpsertedWellFormed | Services/LeaderboardService.cs:105-126 | the upsert keeps the table rules when the pair has a row, or when its team and workout exist |
| LeaderboardService.RerankedHoldsOnlyRow | Services/LeaderboardService.cs:126-129 | re-ranking keeps the pair's single row holding the new value |
| LeaderboardService.RerankedWellFormed | Services/LeaderboardService.cs:169-173 | the ranking save keeps the results table rules |
| LeaderboardService.AssignInOrder | Services/LeaderboardService.cs:162-166 | the `for` loop computes the positions assignment over the whole order |
| LeaderboardService.RankRows | Services/LeaderboardService.cs:137-166 | select, sort and number compute the ranked table |
| LeaderboardService.CalculatePositionsAndPoints | Services/LeaderboardService.cs:132-175 | an unknown workout leaves the table as it is; otherwise the table becomes the ranked table for the workout's type |
| LeaderboardService.UpsertRow | Services/LeaderboardService.cs:105-124 | the upsert on the loaded rows, and the identity counter advanced by exactly the number of rows added |
| LeaderboardService.SaveResult | Services/LeaderboardService.cs:105-126 | refused (foreign key, nothing saved) iff the pair has no row and its team or workout is missing; otherwise the upserted table is saved, with one row of the pair holding the value |
| LeaderboardService.UpdateResult | Services/LeaderboardService.cs:103-130 | the same failure condition; on success the table is the upserted table ranked for the workout, and the pair still has exactly one row holding the value |
| LeaderboardService.ResetLeaderboard | Services/LeaderboardService.cs:177-182 | every result is deleted; nothing else may change |
| LeaderboardService.BuildRow | Services/LeaderboardService.cs:75-97 | the inner loop maps exactly the listed workouts, each to the stored row of the pair or the placeholder |
| LeaderboardService.BuildMatrix | Services/LeaderboardService.cs:71-98 | the outer loop maps exactly the listed teams, each to a full row |
| LeaderboardService.GetLeaderboard | Services/LeaderboardService.cs:25-101 | teams are exactly those of the category (all without a filter), workouts exactly those linked to it, results exactly the stored rows of listed teams and workouts; the matrix covers every listed pair |
| LeaderboardService.MatrixEntryIsStoredRow | Services/LeaderboardService.cs:77-82 | the matrix entry of a pair with a stored row is that row |
| LeaderboardService.MatrixEntryPlaceholder | Services/LeaderboardService.cs:83-96 | without a stored row the entry is the Id-0 placeholder with Result, Position and Points 0, which is in no table |
| LeaderboardService.EmptyCategoryBoard | Services/LeaderboardService.cs:30-59 | a category without teams shows no team and no result |
| TeamService.TotalIsSumOfTeamRows | Services/TeamService.cs:57-62 | the total is the sum of Points over exactly the team's rows, of any workout or category |
| TeamService.NoRowsNoPoints | Services/TeamService.cs:57-62 | a team without results totals 0 |
| TeamService.TotalOfConcat | Services/TeamService.cs:57-62 | the total is additive over the rows |
| TeamService.TotalNonNegative | Services/TeamService.cs:57-62 | non-negative Points give a non-negative total |
| TeamService.WithTotals | Services/TeamService.cs:71-74 | each team keeps its fields, except that its TotalPoints is replaced by its total |
| TeamService.SortByPointsFacts | Services/TeamService.cs:77 | sorting by TotalPoints gives a permutation, ascending, with equal points in their original order |
| TeamService.StampTotals | Services/TeamService.cs:71-74 | the loop writes every team's total |
| TeamService.GetTeamsOrderedByPoints | Services/TeamService.cs:64-78 | a permutation of all teams with their totals, non-decreasing in TotalPoints, with ties in store order |
| TeamService.CreateTeam | Services/TeamService.cs:31-36 | the given team is added with the next Id and returned; it fails iff the category is missing or the index clashes, and then nothing changes |
| TeamService.UpdateTeam | Services/TeamService.cs:38-43 | every column of the team with that Id is overwritten; it fails iff the Id or the category is missing or the index clashes |
| TeamService.DeleteTeam | Services/TeamService.cs:45-55 | returns true iff the team exists; then exactly it and its results are removed; otherwise nothing changes |
| PdfService.NatToString | Services/PdfService.cs:242 | decimal digits without a leading zero |
| PdfService.ParseNatToString | Services/PdfService.cs:242 | the digits read back give the number |
| PdfService.IntToStringRoundTrip | Services/PdfService.cs:259 | `int.ToString()` read back gives the integer |
| PdfService.TruncDivRem | Services/PdfService.cs:235-236 | the C# casts truncate: quotient times divisor plus remainder is the dividend, and the remainder has the dividend's sign |
| PdfService.FormatTimeResultMeaning | Services/PdfService.cs:233-238 | for a non-negative time: `m:ss` with two-digit seconds in 0..59, and m*60 + ss equals the whole seconds |
| PdfService.FormatIntegerMeaning | Services/PdfService.cs:240-243 | the text denotes the measurement truncated to an integer |
| PdfService.GetPositionText | Services/PdfService.cs:250-261 | every position, 1..5 included, is its decimal text followed by "º" |
| PdfService.TruncateText | Services/PdfService.cs:226-231 | empty stays empty; a text that fits is unchanged; a longer text is its first maxLength−3 characters and "...", exactly maxLength long |
| PdfService.CellEmptyIff | Services/PdfService.cs:168-190 | for Time and Repetitions, a cell is empty iff Result is not > 0 and Position is not > 0 |
| PdfService.PlaceholderCellEmpty | Services/PdfService.cs:168-190 | a placeholder cell is empty |
| PdfService.PositionSuffix | Services/PdfService.cs:186-190 | with Position > 0, the cell is the measurement followed by " (pº)" |
| PdfService.RankedCellShowsPlace | Services/PdfService.cs:168-190 | after a ranking pass, a ranked row's cell shows its measurement and a place within 1..n |
| PdfService.Codes | Services/PdfService.cs:60 | the character codes of a name, the key of the ordinal name order |
| PdfService.CodesInjective | Services/PdfService.cs:60 | different names have different keys |
| PdfService.StandingKeyOrder | Services/PdfService.cs:66-70 | the lexicographic key is TotalPoints ascending, then FirstPlaceCount descending, then SecondPlaceCount descending |
| PdfService.Standings | Services/PdfService.cs:66-70 | a group's standings hold exactly the listed teams of that category |
| PdfService.StandingsFacts | Services/PdfService.cs:66-70 | the standings are a permutation of the category's teams, in comparator order, stable on full ties |
| PdfService.StandingsShowTeams | Services/PdfService.cs:57-59 | a non-empty standings table means the category has a listed team |
| PdfService.CategoryGroupsFacts | Services/PdfService.cs:57-61 | the groups are exactly the categories some listed team belongs to, in name order |
| PdfService.PrintedCategoriesFacts | Services/PdfService.cs:63-77 | a section is written exactly for the categories with at least one team and one linked workout, in name order |
| PdfService.UncategorisedTeamsOmitted | Services/PdfService.cs:58 | a team without a category appears in no section |
| PdfService.WorkoutHeaders | Services/PdfService.cs:131-141 | one header per workout, its name truncated to 15 characters |
| PdfService.ResultCells | Services/PdfService.cs:165-199 | one cell per linked workout, the cell text of the matrix entry |
| PdfService.TeamRows | Services/PdfService.cs:153-214 | one line per team |
| PdfService.TeamRowsAt | Services/PdfService.cs:153-214 | the k-th line belongs to the k-th team of the standings |
| PdfService.SectionCovered | Services/PdfService.cs:167 | the matrix lookups of a section never miss when the matrix covers every listed pair |
| PdfService.SectionsOf | Services/PdfService.cs:63-218 | one section per category, in order |
| PdfService.SectionShape | Services/PdfService.cs:99-214 | the header has the linked workouts plus 2 columns, there is one line per team, and every line fills every column |
| PdfService.SectionRowAt | Services/PdfService.cs:153-199 | the cell of line k, column w, is the cell text of team k's matrix entry for workout w |
| PdfService.TeamLabelShape | Services/PdfService.cs:157 | the team cell starts with "Id - " and carries at most 20 characters of the name |
| PdfService.BuildHeader | Services/PdfService.cs:122-150 | the header loop writes "Equipe", the workout headers and "Total" |
| PdfService.BuildCells | Services/PdfService.cs:165-199 | the cell loop writes the result cells of the team |
| PdfService.BuildRows | Services/PdfService.cs:153-214 | the team loop writes one line per team of the standings |
| PdfService.PrintedStep | Services/PdfService.cs:63-77 | one more group adds its section at the end iff it is printable |
| PdfService.BuildSection | Services/PdfService.cs:79-217 | title, description unless null or empty, header and lines of one category |
| PdfService.WriteGroup | Services/PdfService.cs:63-218 | the group-loop body writes the group's section iff it has teams and linked workouts |
| PdfService.GenerateLeaderboardPdf | Services/PdfService.cs:17-224 | the report is the title, the generation time and one section per printable group, in name order |
| CategoriesController.Create | Controllers/CategoriesController.cs:38-58 | the form again, with nothing added, iff the model is invalid or a name equal ignoring case exists; otherwise exactly that category is added, and names stay distinct ignoring case |
| CategoriesController.Edit | Controllers/CategoriesController.cs:79-118 | NotFound iff the route id differs, or the category is gone; the form again iff the model is invalid or another category has the name ignoring case; otherwise exactly that row is replaced |
| CategoriesController.DeleteConfirmed | Controllers/CategoriesController.cs:144-173 | NotFound iff missing; refused, with nothing changed, iff a team or a workout link uses it; otherwise exactly that category is removed |
| CategoriesController.RemoveUnused | Controllers/CategoriesController.cs:169-170 | the delete of an unused category removes it and leaves the links as they are |
| TeamsController.NoDuplicateNoClash | Controllers/TeamsController.cs:91-94 | a team that passed the duplicate check cannot clash in the unique (Name, CategoryId) index |
| TeamsController.Create | Controllers/TeamsController.cs:38-62 | the form again iff the model is invalid or the category has a team of that name ignoring case; otherwise the insert fails only on a missing category, or adds exactly that team; names stay distinct per category |
| TeamsController.SaveNewTeam | Controllers/TeamsController.cs:54 | the insert after the check fails iff the category is missing, otherwise it appends the team |
| TeamsController.Edit | Controllers/TeamsController.cs:81-112 | NotFound iff the route id differs; the form again iff the model is invalid or another team of the category has the name; otherwise the row is overwritten with the posted Name, TotalPoints and CategoryId |
| TeamsController.SaveEditedTeam | Controllers/TeamsController.cs:104 | the update after the check fails iff the team or category is missing, otherwise it replaces exactly that row |
| TeamsController.UpdateKeepsNamesDistinct | Controllers/TeamsController.cs:91-104 | an edit that passed the check keeps the team names distinct per category |
| WorkoutsController.TrackedCategories | Controllers/WorkoutsController.cs:47-55 | the link loop fails iff an id repeats; otherwise it tracks exactly the set of submitted ids |
| WorkoutsController.RelinkMeaning | Controllers/WorkoutsController.cs:103-120 | after a relink the workout is linked to exactly the submitted categories, and every other workout keeps its links |
| WorkoutsController.NoLinksYet | Controllers/WorkoutsController.cs:42 | a workout with a fresh Id has no links |
| WorkoutsController.LinkNewWorkout | Controllers/WorkoutsController.cs:45-57 | the new workout gets one link per submitted category, none for a null or empty list; it fails, with nothing added, iff an id repeats or a category is missing |
| WorkoutsController.Create | Controllers/WorkoutsController.cs:38-66 | the form iff the model is invalid; a duplicate name fails before anything is written; otherwise the workout is appended and its links added |
| WorkoutsController.Edit | Controllers/WorkoutsController.cs:91-130 | NotFound iff the route id differs; the form, with nothing written, iff the model is invalid; otherwise the row is overwritten and the workout's links become exactly the submitted set, other workouts' links unchanged |
| WorkoutsController.RelinkEdited | Controllers/WorkoutsController.cs:103-122 | the second save removes all the workout's links and adds one per submitted category, and fails iff an id repeats or a category is missing |

## Left out

- Entity Framework plumbing is modelled as one in-memory store whose saves apply all their changes or none. Not modelled: `async`/`await`, change tracking across requests, `Include`, query translation.
- Views, `TempData` messages, `ViewBag` lists and anti-forgery. `ModelState.IsValid` is a boolean input, and the name validity rules it checks are not modelled.
- The table row order stands for the database's return order. No query in the source has an `ORDER BY`, so the model fixes one order.
- `ToLower` lowers ASCII letters only. Culture-aware case mapping is not modelled.
- The name order of the report groups is ordinal, by character code. The culture-aware comparison `OrderBy` uses on strings is not modelled.
- C# `int` overflow and the `numeric(10,2)` precision limit are not modelled. Counts, points and ids are unbounded integers.
- PdfService.GenerateLeaderboardPdf: what is not modelled:
  - the iText document (fonts, colours, borders, padding, the float column widths);
  - the time-zone lookup.

  The formatted generation time is a parameter. `FormatDecimal` (pt-BR "N2") is a function parameter.
- PdfService.TruncateText: requires `maxLength >= 3` when the text is too long. The source would throw on a shorter one, and both callers pass 15 or 20.
- PdfService.TruncateText: lengths and cuts count Unicode scalar values (Dafny `char`), not the UTF-16 code units that C# `Length` and `Substring` count. A name with characters outside the Basic Multilingual Plane is therefore measured and cut differently; `WorkoutHeaders` and `TeamLabel` inherit this.
- TeamService.CreateTeam: the store always assigns the next identity value. The database would insert an explicitly set non-zero `Id` as given; the only caller, `TeamsController.Create`, binds only `Name` and `CategoryId`, so the posted `Id` is 0.
- PdfService.GenerateLeaderboardPdf: requires that the matrix covers every listed team × workout. The source would throw `KeyNotFoundException` otherwise. `GetLeaderboard` guarantees the condition (`MatrixCovers`).
- LeaderboardService.CalculatePositionsAndPoints: the `default` arm of the type switch cannot be reached with three workout types, so it is not modelled.
- LeaderboardService.SaveResult: a null team or workout in the request is not modelled. An insert that breaks a foreign key is `Fail(ForeignKeyViolation)` with nothing saved.
- TeamService.GetTeamsOrderedByPoints: the totals written into the loaded teams are not saved back, as in the source.
- The tie-break counters FirstPlaceCount and SecondPlaceCount are fields of `Team` because a migration adds them and the report reads them. Entities/Team.cs itself declares neither. Nothing computes them; a team edit resets them to 0.
- CategoriesController.Edit: the rethrow of the concurrency exception when the category still exists is not reachable in the single-request model. The only concurrency failure is a missing row.
- WorkoutsController.Edit: the change tracker accepts deleting and then re-adding the same link key in one save, and the model does too. The model refuses a key added twice within one unit of work (`DuplicateTracking`).
- Exceptions an action does not catch become `Crash` results. The errors are a unique, foreign-key or restrict violation, a concurrency failure, or a duplicate tracked key.
- TeamsController.DeleteConfirmed and WorkoutsController.DeleteConfirmed only delegate; they are modelled only as the store deletes they reach (`TeamService.DeleteTeam`, `Data.Store.RemoveWorkout`).
- The GET actions and `Index` views of the controllers are not modelled.
- Controllers/HomeController.cs, wwwroot/js/leaderboard.js, Program.cs and the migrations are not part of this model. Services/WorkoutService.cs is reduced to the store's workout insert, update and delete.
