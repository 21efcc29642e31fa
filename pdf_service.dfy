/** The leaderboard report (Services/PdfService.cs): the text of every title,
    header and cell, the order of the category sections and of the teams in
    them. Fonts, colours other than the highlight flag, column widths and the
    byte-level PDF encoding are not part of this model. */
module PdfService {
  import opened Entities
  import opened Sorting
  import opened LeaderboardService

  // ===========================================================================
  // Integer text, as `int.ToString()` writes it
  // ===========================================================================

  function DigitChar(d: int): char
    requires 0 <= d < 10
  {
    ('0' as int + d) as char
  }

  predicate IsDigit(c: char) {
    '0' <= c <= '9'
  }

  function DigitValue(c: char): int {
    c as int - '0' as int
  }

  /** The decimal digits of `n`, without leading zeros. */
  function NatToString(n: nat): (s: string)
    ensures |s| >= 1
    ensures forall i :: 0 <= i < |s| ==> IsDigit(s[i])
    ensures n >= 10 ==> s[0] != '0'
  {
    if n < 10 then [DigitChar(n)] else NatToString(n / 10) + [DigitChar(n % 10)]
  }

  /** The number a string of decimal digits denotes. */
  function ParseDigits(s: string): int {
    if s == [] then 0 else ParseDigits(s[..|s| - 1]) * 10 + DigitValue(s[|s| - 1])
  }

  /** Reading the digits back gives the number. */
  lemma {:induction false} ParseNatToString(n: nat)
    ensures ParseDigits(NatToString(n)) == n
  {
    if n >= 10 {
      ParseNatToString(n / 10);
      var s := NatToString(n);
      assert s[..|s| - 1] == NatToString(n / 10);
    }
  }

  /** `int.ToString()`: a minus sign for negative numbers, then the digits. */
  function IntToString(i: int): string {
    if i < 0 then "-" + NatToString(-i) else NatToString(i)
  }

  function ParseInt(s: string): int {
    if |s| > 0 && s[0] == '-' then -ParseDigits(s[1..]) else ParseDigits(s)
  }

  lemma IntToStringRoundTrip(i: int)
    ensures ParseInt(IntToString(i)) == i
  {
    if i < 0 {
      ParseNatToString(-i);
      assert IntToString(i)[1..] == NatToString(-i);
    } else {
      ParseNatToString(i);
    }
  }

  // ===========================================================================
  // C# integer division and remainder truncate toward zero
  // ===========================================================================

  function TruncDiv(a: int, b: int): int
    requires b > 0
  {
    if a >= 0 then a / b else -((-a) / b)
  }

  function TruncRem(a: int, b: int): int
    requires b > 0
  {
    a - b * TruncDiv(a, b)
  }

  /** Truncating division agrees with Euclidean division on non-negative
      numbers and leaves a remainder with the sign of the dividend. */
  lemma TruncDivRem(a: int, b: int)
    requires b > 0
    ensures TruncDiv(a, b) * b + TruncRem(a, b) == a
    ensures a >= 0 ==> TruncDiv(a, b) == a / b && TruncRem(a, b) == a % b && 0 <= TruncRem(a, b) < b
    ensures a < 0 ==> -b < TruncRem(a, b) <= 0
  {
  }

  // ===========================================================================
  // The value formatters
  // ===========================================================================

  /** A digit string padded to at least two characters with a leading zero. */
  function Pad2(s: string): string {
    if |s| < 2 then "0" + s else s
  }

  /** The `D2` format: at least two digits, after a minus sign when negative. */
  function TwoDigits(n: int): string {
    if n < 0 then "-" + Pad2(NatToString(-n)) else Pad2(NatToString(n))
  }

  /** `FormatTimeResult`: the measurement `h` (hundredths of a second) as
      minutes, a colon and two-digit seconds; both parts are cast to int,
      which truncates. */
  function FormatTimeResult(h: int): string {
    var minutes := TruncDiv(h, 6000);
    var seconds := TruncDiv(TruncRem(h, 6000), 100);
    IntToString(minutes) + ":" + TwoDigits(seconds)
  }

  /** Reads a `m:ss` text back into whole seconds. */
  function ParseTime(s: string): int
    requires |s| >= 3
  {
    ParseDigits(s[..|s| - 3]) * 60 + ParseDigits(s[|s| - 2..])
  }

  /** For a non-negative time: the minutes are the whole minutes, the seconds
      lie in 0..59 and are written with exactly two digits, and together they
      give back the whole seconds of the measurement. */
  lemma FormatTimeResultMeaning(h: int)
    requires h >= 0
    ensures 0 <= (h % 6000) / 100 < 60
    ensures (h / 6000) * 60 + (h % 6000) / 100 == h / 100
    ensures FormatTimeResult(h) == NatToString(h / 6000) + ":" + TwoDigits((h % 6000) / 100)
    ensures |TwoDigits((h % 6000) / 100)| == 2
    ensures |FormatTimeResult(h)| >= 4 && FormatTimeResult(h)[|FormatTimeResult(h)| - 3] == ':'
    ensures ParseTime(FormatTimeResult(h)) == h / 100
  {
    var m := h / 6000;
    var sec := (h % 6000) / 100;
    TruncDivRem(h, 6000);
    TruncDivRem(h % 6000, 100);
    var ms := NatToString(m);
    var ss := TwoDigits(sec);
    var out := FormatTimeResult(h);
    assert out == ms + ":" + ss;
    assert |ss| == 2 by {
      if sec >= 10 {
        assert NatToString(sec / 10) == [DigitChar(sec / 10)];
      }
    }
    assert out[..|out| - 3] == ms;
    assert out[|out| - 2..] == ss;
    ParseNatToString(m);
    ParseNatToString(sec);
    if sec < 10 {
      assert ss == ['0', DigitChar(sec)];
      assert ss[..1] == ['0'];
      assert ParseDigits(ss) == ParseDigits(['0']) * 10 + sec;
    }
  }

  /** `FormatInteger`: the measurement cast to int (truncated) and written out. */
  function FormatInteger(h: int): string {
    IntToString(TruncDiv(h, 100))
  }

  /** The text denotes the whole part of the measurement. */
  lemma FormatIntegerMeaning(h: int)
    ensures ParseInt(FormatInteger(h)) == TruncDiv(h, 100)
    ensures h >= 0 ==> TruncDiv(h, 100) * 100 <= h < (TruncDiv(h, 100) + 1) * 100
  {
    IntToStringRoundTrip(TruncDiv(h, 100));
  }

  /** `GetPositionText`: the explicit arms for 1..5 agree with the general
      `position.ToString() + "º"` arm, so every position is written that way. */
  function GetPositionText(p: int): (r: string)
    ensures r == IntToString(p) + "\U{BA}"
  {
    if p == 1 then "1\U{BA}"
    else if p == 2 then "2\U{BA}"
    else if p == 3 then "3\U{BA}"
    else if p == 4 then "4\U{BA}"
    else if p == 5 then "5\U{BA}"
    else IntToString(p) + "\U{BA}"
  }

  /** `TruncateText`: a text that fits is kept whole; a longer one keeps its
      first `maxLength - 3` characters and gets "..." appended. The substring
      needs `maxLength >= 3` once the text is too long. */
  function TruncateText(text: string, maxLength: int): (r: string)
    requires |text| <= maxLength || maxLength >= 3
    ensures text == [] ==> r == []
    ensures |text| <= maxLength ==> r == text
    ensures |text| > maxLength ==>
      |r| == maxLength && r[..maxLength - 3] == text[..maxLength - 3] && r[maxLength - 3..] == "..."
    ensures maxLength >= 0 ==> |r| <= maxLength
  {
    if text == [] then ""
    else if |text| <= maxLength then text
    else text[..maxLength - 3] + "..."
  }

  // ===========================================================================
  // The text of one result cell
  // ===========================================================================

  /** The measurement part of a cell: empty unless Result > 0, otherwise the
      formatter of the workout type. `formatDecimal` is the culture-specific
      `N2` formatting used for weights. */
  function ValueText(r: WorkoutResult, t: WorkoutType, formatDecimal: int -> string): string {
    if !IsPositive(r) then ""
    else match t
      case Time => FormatTimeResult(r.result.value)
      case Repetitions => FormatInteger(r.result.value)
      case Weight => formatDecimal(r.result.value)
  }

  /** The full cell text: the measurement, then " (pº)" when the row has a Position. */
  function CellText(r: WorkoutResult, t: WorkoutType, formatDecimal: int -> string): string {
    ValueText(r, t, formatDecimal) + (if r.position > 0 then " (" + GetPositionText(r.position) + ")" else "")
  }

  /** A cell is empty exactly when the row has no positive Result and no
      Position (for the two types whose formatter never returns ""). */
  lemma CellEmptyIff(r: WorkoutResult, t: WorkoutType, formatDecimal: int -> string)
    requires t != Weight
    ensures CellText(r, t, formatDecimal) == [] <==> !IsPositive(r) && r.position <= 0
  {
    if IsPositive(r) {
      assert |ValueText(r, t, formatDecimal)| >= 1;
    }
  }

  /** The placeholder of a pair without a row shows an empty cell. */
  lemma PlaceholderCellEmpty(teamId: int, workoutId: int, t: WorkoutType, formatDecimal: int -> string)
    ensures CellText(Placeholder(teamId, workoutId), t, formatDecimal) == []
  {
  }

  /** A row with a Position shows it, written as an ordinal in parentheses, after the measurement. */
  lemma PositionSuffix(r: WorkoutResult, t: WorkoutType, formatDecimal: int -> string)
    requires r.position > 0
    ensures CellText(r, t, formatDecimal) == ValueText(r, t, formatDecimal) + " (" + NatToString(r.position) + "\U{BA})"
  {
  }

  /** After a ranking pass, the cell of a ranked row shows its measurement and
      its place among the n ranked rows. */
  lemma RankedCellShowsPlace(rows: seq<WorkoutResult>, workoutId: int, t: WorkoutType, j: nat, formatDecimal: int -> string)
    requires j < |rows| && IsRanked(rows[j], workoutId)
    ensures exists p :: (
      && 1 <= p <= |RankedIndices(rows, workoutId)|
      && CellText(Reranked(rows, workoutId, t)[j], t, formatDecimal)
         == ValueText(rows[j], t, formatDecimal) + " (" + NatToString(p) + "\U{BA})")
  {
    var r := Reranked(rows, workoutId, t);
    PositionsInRange(rows, workoutId, t, j);
    RerankedKeepsMeasurements(rows, workoutId, t);
    assert ValueText(r[j], t, formatDecimal) == ValueText(rows[j], t, formatDecimal);
    PositionSuffix(r[j], t, formatDecimal);
  }

  // ===========================================================================
  // Which categories get a section, which teams and workouts it shows
  // ===========================================================================

  /** The character codes of a name: the key of an ordinal name comparison. */
  function Codes(s: string): (r: seq<int>)
    ensures |r| == |s|
    ensures forall i :: 0 <= i < |s| ==> r[i] == s[i] as int
  {
    if s == [] then [] else [s[0] as int] + Codes(s[1..])
  }

  /** Different names have different keys, so distinct names never tie. */
  lemma CodesInjective(a: string, b: string)
    requires Codes(a) == Codes(b)
    ensures a == b
  {
    assert |a| == |b|;
    forall i | 0 <= i < |a| ensures a[i] == b[i] {
      assert Codes(a)[i] == Codes(b)[i];
    }
  }

  function NameKey(c: Category): seq<int> {
    Codes(c.name)
  }

  /** Some listed team belongs to `c`. */
  predicate HasTeams(teams: seq<Team>, c: Category) {
    exists i :: 0 <= i < |teams| && teams[i].categoryId == Some(c.id)
  }

  function WithTeamsIn(teams: seq<Team>): Category -> bool {
    (c: Category) => HasTeams(teams, c)
  }

  /** The category groups: the categories of the teams that have one
      (`Where(t => t.Category != null).GroupBy(t => t.Category)`), ordered by name. */
  function CategoryGroups(vm: LeaderboardViewModel): seq<Category> {
    SortBy(Filter(vm.categories, WithTeamsIn(vm.teams)), NameKey)
  }

  /** The standings key: TotalPoints ascending, then FirstPlaceCount and
      SecondPlaceCount descending (negated). */
  function StandingKey(t: Team): seq<int> {
    [t.totalPoints, -t.firstPlaceCount, -t.secondPlaceCount]
  }

  /** `a` may come before `b` in the standings. */
  predicate StandsNotBelow(a: Team, b: Team) {
    || a.totalPoints < b.totalPoints
    || (a.totalPoints == b.totalPoints && a.firstPlaceCount > b.firstPlaceCount)
    || (a.totalPoints == b.totalPoints && a.firstPlaceCount == b.firstPlaceCount && a.secondPlaceCount >= b.secondPlaceCount)
  }

  /** The lexicographic key order is the standings comparator. */
  lemma StandingKeyOrder(a: Team, b: Team)
    ensures LexLe(StandingKey(a), StandingKey(b)) <==> StandsNotBelow(a, b)
  {
    var ka := StandingKey(a);
    var kb := StandingKey(b);
    assert LexLess([-b.secondPlaceCount], [-a.secondPlaceCount]) <==> -b.secondPlaceCount < -a.secondPlaceCount by {
      assert [-b.secondPlaceCount][1..] == [] && [-a.secondPlaceCount][1..] == [];
      assert !LexLess([], []);
    }
    assert ka[1..] == [-a.firstPlaceCount, -a.secondPlaceCount] && kb[1..] == [-b.firstPlaceCount, -b.secondPlaceCount];
    assert ka[1..][1..] == [-a.secondPlaceCount] && kb[1..][1..] == [-b.secondPlaceCount];
    assert LexLess(kb[1..], ka[1..]) <==>
      (-b.firstPlaceCount < -a.firstPlaceCount
       || (-b.firstPlaceCount == -a.firstPlaceCount && LexLess([-b.secondPlaceCount], [-a.secondPlaceCount])));
    assert LexLess(kb, ka) <==> (b.totalPoints < a.totalPoints || (b.totalPoints == a.totalPoints && LexLess(kb[1..], ka[1..])));
  }

  function InCategory(id: int): Team -> bool {
    (t: Team) => t.categoryId == Some(id)
  }

  /** The teams of one group, in standings order. */
  function Standings(teams: seq<Team>, c: Category): (r: seq<Team>)
    ensures forall t :: t in r <==> t in teams && t.categoryId == Some(c.id)
  {
    var members := Filter(teams, InCategory(c.id));
    SortByPermutes(members, StandingKey);
    var r := SortBy(members, StandingKey);
    assert forall t :: t in r <==> t in multiset(r);
    assert forall t :: t in members <==> t in multiset(members);
    r
  }

  /** The standings hold each team of the category once, in comparator order,
      and teams that tie on all three keys keep their listed order. */
  lemma StandingsFacts(teams: seq<Team>, c: Category)
    ensures multiset(Standings(teams, c)) == multiset(Filter(teams, InCategory(c.id)))
    ensures forall i, j :: 0 <= i < j < |Standings(teams, c)| ==> StandsNotBelow(Standings(teams, c)[i], Standings(teams, c)[j])
    ensures forall k :: Filter(Standings(teams, c), KeyIs(StandingKey, k)) == Filter(Filter(teams, InCategory(c.id)), KeyIs(StandingKey, k))
  {
    var members := Filter(teams, InCategory(c.id));
    var s := Standings(teams, c);
    SortByPermutes(members, StandingKey);
    SortBySorted(members, StandingKey);
    forall i, j | 0 <= i < j < |s| ensures StandsNotBelow(s[i], s[j]) {
      StandingKeyOrder(s[i], s[j]);
    }
    forall k ensures Filter(s, KeyIs(StandingKey, k)) == Filter(members, KeyIs(StandingKey, k)) {
      SortByStable(members, StandingKey, k);
    }
  }

  /** The workouts linked to the category, in listed order. */
  function WorkoutsFor(vm: LeaderboardViewModel, c: Category): seq<Workout> {
    Filter(vm.workouts, (w: Workout) => WorkoutCategory(w.id, c.id) in vm.links)
  }

  /** A section is written only when the category has teams and workouts. */
  predicate Printable(vm: LeaderboardViewModel, c: Category) {
    |Standings(vm.teams, c)| > 0 && |WorkoutsFor(vm, c)| > 0
  }

  function PrintableIn(vm: LeaderboardViewModel): Category -> bool {
    (c: Category) => Printable(vm, c)
  }

  /** The categories that get a section, in the order they are written. */
  function PrintedCategories(vm: LeaderboardViewModel): seq<Category> {
    Filter(CategoryGroups(vm), PrintableIn(vm))
  }

  /** A non-empty standings table means the category has a listed team. */
  lemma StandingsShowTeams(teams: seq<Team>, c: Category)
    requires |Standings(teams, c)| > 0
    ensures HasTeams(teams, c)
  {
    var t := Standings(teams, c)[0];
    assert t in Standings(teams, c);
    var i :| 0 <= i < |teams| && teams[i] == t;
  }

  /** The groups are the listed categories that some team belongs to, in name order. */
  lemma CategoryGroupsFacts(vm: LeaderboardViewModel)
    ensures forall c :: c in CategoryGroups(vm) <==> c in vm.categories && HasTeams(vm.teams, c)
    ensures SortedBy(CategoryGroups(vm), NameKey)
  {
    var withTeams := Filter(vm.categories, WithTeamsIn(vm.teams));
    SortByPermutes(withTeams, NameKey);
    SortBySorted(withTeams, NameKey);
    assert forall c :: c in CategoryGroups(vm) <==> c in multiset(CategoryGroups(vm));
    assert forall c :: c in withTeams <==> c in multiset(withTeams);
  }

  /** The sections are those of the listed categories with at least one team
      and one linked workout, in name order. */
  lemma PrintedCategoriesFacts(vm: LeaderboardViewModel)
    ensures forall c :: c in PrintedCategories(vm) <==>
      (c in vm.categories && |Standings(vm.teams, c)| > 0 && |WorkoutsFor(vm, c)| > 0)
    ensures SortedBy(PrintedCategories(vm), NameKey)
  {
    CategoryGroupsFacts(vm);
    FilterKeepsSorted(CategoryGroups(vm), PrintableIn(vm), NameKey);
    forall c | c in vm.categories && |Standings(vm.teams, c)| > 0 ensures c in CategoryGroups(vm) {
      StandingsShowTeams(vm.teams, c);
    }
  }

  /** A team without a category is in no standings table, so in no section. */
  lemma UncategorisedTeamsOmitted(vm: LeaderboardViewModel, t: Team)
    requires t.categoryId.None?
    ensures forall c :: c in PrintedCategories(vm) ==> t !in Standings(vm.teams, c)
  {
  }

  // ===========================================================================
  // The report
  // ===========================================================================

  /** One line of a section's table. `highlighted` is the green total cell. */
  datatype TeamRow = TeamRow(teamText: string, cells: seq<string>, total: string, highlighted: bool)

  /** The title, optional description, header line and team lines of one category. */
  datatype Section = Section(title: string, description: Option<string>, header: seq<string>, rows: seq<TeamRow>)

  datatype Report = Report(title: string, generated: string, sections: seq<Section>)

  const ReportTitle: string := "\U{1F3C6} CrossFit Leaderboard - Relat\U{F3}rio Completo"

  function CategoryTitle(c: Category): string {
    "\U{1F4CA} " + c.name
  }

  /** The description paragraph is written unless it is null or empty. */
  function ShownDescription(c: Category): Option<string> {
    if c.description.Some? && c.description.value != "" then c.description else None
  }

  /** The workout names, truncated to 15 characters, one per column. */
  function WorkoutHeaders(ws: seq<Workout>): (r: seq<string>)
    ensures |r| == |ws|
    ensures forall k :: 0 <= k < |ws| ==> r[k] == TruncateText(ws[k].name, 15)
  {
    if ws == [] then [] else WorkoutHeaders(ws[..|ws| - 1]) + [TruncateText(ws[|ws| - 1].name, 15)]
  }

  function Header(ws: seq<Workout>): seq<string> {
    ["Equipe"] + WorkoutHeaders(ws) + ["Total"]
  }

  /** The matrix holds an entry of `teamId` for every workout in `ws`. */
  ghost predicate RowCovered(vm: LeaderboardViewModel, teamId: int, ws: seq<Workout>) {
    |ws| > 0 ==> teamId in vm.matrix && forall k :: 0 <= k < |ws| ==> ws[k].id in vm.matrix[teamId]
  }

  /** The result cells of one team, one per workout column. */
  function ResultCells(vm: LeaderboardViewModel, teamId: int, ws: seq<Workout>, formatDecimal: int -> string): (r: seq<string>)
    requires RowCovered(vm, teamId, ws)
    ensures |r| == |ws|
    ensures forall k :: 0 <= k < |ws| ==> r[k] == CellText(vm.matrix[teamId][ws[k].id], ws[k].workoutType, formatDecimal)
  {
    if ws == [] then []
    else
      var last := ws[|ws| - 1];
      ResultCells(vm, teamId, ws[..|ws| - 1], formatDecimal) + [CellText(vm.matrix[teamId][last.id], last.workoutType, formatDecimal)]
  }

  /** The team cell: its Id, " - " and its name truncated to 20 characters. */
  function TeamLabel(t: Team): string {
    IntToString(t.id) + " - " + TruncateText(t.name, 20)
  }

  function RowFor(vm: LeaderboardViewModel, t: Team, ws: seq<Workout>, formatDecimal: int -> string): TeamRow
    requires RowCovered(vm, t.id, ws)
  {
    TeamRow(TeamLabel(t), ResultCells(vm, t.id, ws, formatDecimal), IntToString(t.totalPoints), t.totalPoints > 0)
  }

  ghost predicate Covered(vm: LeaderboardViewModel, ts: seq<Team>, ws: seq<Workout>) {
    forall k :: 0 <= k < |ts| ==> RowCovered(vm, ts[k].id, ws)
  }

  /** One line per team, in the given order. */
  function TeamRows(vm: LeaderboardViewModel, ts: seq<Team>, ws: seq<Workout>, formatDecimal: int -> string): (r: seq<TeamRow>)
    requires Covered(vm, ts, ws)
    ensures |r| == |ts|
  {
    if ts == [] then []
    else
      TeamRows(vm, ts[..|ts| - 1], ws, formatDecimal) + [RowFor(vm, ts[|ts| - 1], ws, formatDecimal)]
  }

  /** The k-th line is the line of the k-th team. */
  lemma {:induction false} TeamRowsAt(vm: LeaderboardViewModel, ts: seq<Team>, ws: seq<Workout>, formatDecimal: int -> string, k: nat)
    requires Covered(vm, ts, ws)
    requires k < |ts|
    ensures TeamRows(vm, ts, ws, formatDecimal)[k] == RowFor(vm, ts[k], ws, formatDecimal)
  {
    if k < |ts| - 1 {
      TeamRowsAt(vm, ts[..|ts| - 1], ws, formatDecimal, k);
    }
  }

  /** The lookups of a section never miss when the matrix covers every listed pair. */
  lemma SectionCovered(vm: LeaderboardViewModel, c: Category)
    requires MatrixCovers(vm)
    ensures Covered(vm, Standings(vm.teams, c), WorkoutsFor(vm, c))
  {
    var ts := Standings(vm.teams, c);
    var ws := WorkoutsFor(vm, c);
    forall k | 0 <= k < |ts| ensures RowCovered(vm, ts[k].id, ws) {
      assert ts[k] in ts;
      forall j | 0 <= j < |ws| ensures ws[j].id in vm.matrix[ts[k].id] {
        assert ws[j] in vm.workouts;
      }
    }
  }

  function SectionFor(vm: LeaderboardViewModel, c: Category, formatDecimal: int -> string): Section
    requires MatrixCovers(vm)
  {
    var ts := Standings(vm.teams, c);
    var ws := WorkoutsFor(vm, c);
    SectionCovered(vm, c);
    Section(CategoryTitle(c), ShownDescription(c), Header(ws), TeamRows(vm, ts, ws, formatDecimal))
  }

  /** The sections of the given categories, in their order. */
  function SectionsOf(vm: LeaderboardViewModel, cs: seq<Category>, formatDecimal: int -> string): (r: seq<Section>)
    requires MatrixCovers(vm)
    ensures |r| == |cs|
    ensures forall k :: 0 <= k < |cs| ==> r[k] == SectionFor(vm, cs[k], formatDecimal)
  {
    if cs == [] then []
    else SectionsOf(vm, cs[..|cs| - 1], formatDecimal) + [SectionFor(vm, cs[|cs| - 1], formatDecimal)]
  }

  /** The report `GenerateLeaderboardPdfAsync` writes; `generatedAt` is the
      formatted local time of the generation. */
  function ReportFor(vm: LeaderboardViewModel, formatDecimal: int -> string, generatedAt: string): Report
    requires MatrixCovers(vm)
  {
    Report(ReportTitle, "Gerado em: " + generatedAt, SectionsOf(vm, PrintedCategories(vm), formatDecimal))
  }

  /** Every table has one column per linked workout plus the team and total
      columns, and every line fills all of them. */
  lemma SectionShape(vm: LeaderboardViewModel, c: Category, formatDecimal: int -> string)
    requires MatrixCovers(vm)
    ensures |SectionFor(vm, c, formatDecimal).header| == |WorkoutsFor(vm, c)| + 2
    ensures |SectionFor(vm, c, formatDecimal).rows| == |Standings(vm.teams, c)|
    ensures forall row :: row in SectionFor(vm, c, formatDecimal).rows ==>
      1 + |row.cells| + 1 == |SectionFor(vm, c, formatDecimal).header|
  {
    var ts := Standings(vm.teams, c);
    var ws := WorkoutsFor(vm, c);
    SectionCovered(vm, c);
    var rows := TeamRows(vm, ts, ws, formatDecimal);
    forall row | row in rows ensures |row.cells| == |ws| {
      var k :| 0 <= k < |rows| && rows[k] == row;
      TeamRowsAt(vm, ts, ws, formatDecimal, k);
    }
  }

  /** The k-th line of a section is the line of the k-th team of the
      standings, and its w-th cell is the matrix entry of that team and the
      w-th linked workout. */
  lemma SectionRowAt(vm: LeaderboardViewModel, c: Category, formatDecimal: int -> string, k: nat, w: nat)
    requires MatrixCovers(vm)
    requires k < |Standings(vm.teams, c)| && w < |WorkoutsFor(vm, c)|
    ensures Covered(vm, Standings(vm.teams, c), WorkoutsFor(vm, c))
    ensures SectionFor(vm, c, formatDecimal).rows[k] == RowFor(vm, Standings(vm.teams, c)[k], WorkoutsFor(vm, c), formatDecimal)
    ensures RowFor(vm, Standings(vm.teams, c)[k], WorkoutsFor(vm, c), formatDecimal).cells[w]
         == CellText(vm.matrix[Standings(vm.teams, c)[k].id][WorkoutsFor(vm, c)[w].id], WorkoutsFor(vm, c)[w].workoutType, formatDecimal)
  {
    SectionCovered(vm, c);
    TeamRowsAt(vm, Standings(vm.teams, c), WorkoutsFor(vm, c), formatDecimal, k);
  }

  /** The team label starts with the team Id and never carries more than 20 characters of the name. */
  lemma TeamLabelShape(t: Team)
    ensures TeamLabel(t)[..|IntToString(t.id)| + 3] == IntToString(t.id) + " - "
    ensures |TeamLabel(t)| <= |IntToString(t.id)| + 3 + 20
  {
  }

  // ===========================================================================
  // Building the report step by step
  // ===========================================================================

  method BuildHeader(ws: seq<Workout>) returns (header: seq<string>)
    ensures header == Header(ws)
  {
    var names: seq<string> := [];
    for k := 0 to |ws|
      invariant names == WorkoutHeaders(ws[..k])
    {
      assert ws[..k + 1][..k] == ws[..k];
      names := names + [TruncateText(ws[k].name, 15)];
    }
    assert ws[..|ws|] == ws;
    header := ["Equipe"] + names + ["Total"];
  }

  method BuildCells(vm: LeaderboardViewModel, teamId: int, ws: seq<Workout>, formatDecimal: int -> string)
    returns (cells: seq<string>)
    requires RowCovered(vm, teamId, ws)
    ensures cells == ResultCells(vm, teamId, ws, formatDecimal)
  {
    cells := [];
    for k := 0 to |ws|
      invariant RowCovered(vm, teamId, ws[..k])
      invariant cells == ResultCells(vm, teamId, ws[..k], formatDecimal)
    {
      ResultCellsStep(vm, teamId, ws, formatDecimal, k);
      var result := vm.matrix[teamId][ws[k].id];
      cells := cells + [CellText(result, ws[k].workoutType, formatDecimal)];
    }
    assert ws[..|ws|] == ws;
  }

  lemma ResultCellsStep(vm: LeaderboardViewModel, teamId: int, ws: seq<Workout>, formatDecimal: int -> string, k: nat)
    requires RowCovered(vm, teamId, ws)
    requires k < |ws|
    ensures RowCovered(vm, teamId, ws[..k + 1]) && teamId in vm.matrix && ws[k].id in vm.matrix[teamId]
    ensures ResultCells(vm, teamId, ws[..k + 1], formatDecimal)
         == ResultCells(vm, teamId, ws[..k], formatDecimal) + [CellText(vm.matrix[teamId][ws[k].id], ws[k].workoutType, formatDecimal)]
  {
    assert ws[..k + 1][..k] == ws[..k];
    assert ws[..k + 1][k] == ws[k];
  }

  lemma TeamRowsStep(vm: LeaderboardViewModel, ts: seq<Team>, ws: seq<Workout>, formatDecimal: int -> string, k: nat)
    requires Covered(vm, ts, ws)
    requires k < |ts|
    ensures Covered(vm, ts[..k], ws) && Covered(vm, ts[..k + 1], ws) && RowCovered(vm, ts[k].id, ws)
    ensures TeamRows(vm, ts[..k + 1], ws, formatDecimal) == TeamRows(vm, ts[..k], ws, formatDecimal) + [RowFor(vm, ts[k], ws, formatDecimal)]
  {
    assert ts[..k + 1][..k] == ts[..k];
  }

  method BuildRows(vm: LeaderboardViewModel, ts: seq<Team>, ws: seq<Workout>, formatDecimal: int -> string)
    returns (rows: seq<TeamRow>)
    requires Covered(vm, ts, ws)
    ensures rows == TeamRows(vm, ts, ws, formatDecimal)
  {
    rows := [];
    for k := 0 to |ts|
      invariant Covered(vm, ts[..k], ws)
      invariant rows == TeamRows(vm, ts[..k], ws, formatDecimal)
    {
      TeamRowsStep(vm, ts, ws, formatDecimal, k);
      var team := ts[k];
      var cells := BuildCells(vm, team.id, ws, formatDecimal);
      rows := rows + [TeamRow(TeamLabel(team), cells, IntToString(team.totalPoints), team.totalPoints > 0)];
    }
    assert ts[..|ts|] == ts;
  }

  /** One more group either adds its section at the end or, when it is not
      printable, changes nothing. */
  lemma PrintedStep(vm: LeaderboardViewModel, groups: seq<Category>, i: nat, formatDecimal: int -> string)
    requires MatrixCovers(vm)
    requires i < |groups|
    ensures SectionsOf(vm, Filter(groups[..i + 1], PrintableIn(vm)), formatDecimal)
         == SectionsOf(vm, Filter(groups[..i], PrintableIn(vm)), formatDecimal)
          + (if Printable(vm, groups[i]) then [SectionFor(vm, groups[i], formatDecimal)] else [])
  {
    var done := Filter(groups[..i], PrintableIn(vm));
    FilterSnoc(groups[..i], groups[i], PrintableIn(vm));
    TakeSnoc(groups, i);
    if PrintableIn(vm)(groups[i]) {
      SectionsOfSnoc(vm, done, groups[i], formatDecimal);
    } else {
      assert Filter(groups[..i + 1], PrintableIn(vm)) == done;
    }
  }

  lemma SectionsOfSnoc(vm: LeaderboardViewModel, cs: seq<Category>, c: Category, formatDecimal: int -> string)
    requires MatrixCovers(vm)
    ensures SectionsOf(vm, cs + [c], formatDecimal) == SectionsOf(vm, cs, formatDecimal) + [SectionFor(vm, c, formatDecimal)]
  {
    assert (cs + [c])[..|cs|] == cs;
  }

  /** One category's title, description and table. */
  method BuildSection(vm: LeaderboardViewModel, c: Category, ts: seq<Team>, ws: seq<Workout>, formatDecimal: int -> string)
    returns (section: Section)
    requires MatrixCovers(vm)
    requires ts == Standings(vm.teams, c) && ws == WorkoutsFor(vm, c)
    ensures section == SectionFor(vm, c, formatDecimal)
  {
    SectionCovered(vm, c);
    var header := BuildHeader(ws);
    var rows := BuildRows(vm, ts, ws, formatDecimal);
    section := Section(CategoryTitle(c), ShownDescription(c), header, rows);
  }

  /** The body of the group loop: the section of group `i` is written when
      the group has teams and linked workouts. */
  method WriteGroup(vm: LeaderboardViewModel, groups: seq<Category>, i: nat, sections: seq<Section>, formatDecimal: int -> string)
    returns (written: seq<Section>)
    requires MatrixCovers(vm)
    requires i < |groups|
    requires sections == SectionsOf(vm, Filter(groups[..i], PrintableIn(vm)), formatDecimal)
    ensures written == SectionsOf(vm, Filter(groups[..i + 1], PrintableIn(vm)), formatDecimal)
  {
    var category := groups[i];
    var teams := Standings(vm.teams, category);
    var workouts := WorkoutsFor(vm, category);
    PrintedStep(vm, groups, i, formatDecimal);
    if |teams| > 0 && |workouts| > 0 {
      assert Printable(vm, category);
      var section := BuildSection(vm, category, teams, workouts, formatDecimal);
      written := sections + [section];
    } else {
      assert !Printable(vm, category);
      written := sections;
    }
  }

  /** `GenerateLeaderboardPdfAsync`: one section per category group, in name
      order, written only when the group has teams and linked workouts. The
      matrix lookups require every listed team × workout pair to be present,
      which `GetLeaderboard` guarantees. */
  method GenerateLeaderboardPdf(vm: LeaderboardViewModel, formatDecimal: int -> string, generatedAt: string)
    returns (report: Report)
    requires MatrixCovers(vm)
    ensures report == ReportFor(vm, formatDecimal, generatedAt)
  {
    var groups := CategoryGroups(vm);
    var sections: seq<Section> := [];
    for i := 0 to |groups|
      invariant sections == SectionsOf(vm, Filter(groups[..i], PrintableIn(vm)), formatDecimal)
    {
      sections := WriteGroup(vm, groups, i, sections, formatDecimal);
    }
    assert groups[..|groups|] == groups;
    report := Report(ReportTitle, "Gerado em: " + generatedAt, sections);
  }
}
