/**
 * SQL synthesis of the NLP processor: the conditional query
 * (`build_conditional_query`), the aggregate query (`build_aggregate_query`)
 * and the intent dispatch of `text_to_sql`. Every template is a fixed
 * string; only department names, salary amounts and years are spliced in.
 */
module NlpQueries {
  import opened Wrappers
  import opened Text
  import opened NlpEntities
  import NlpIntent

  // ---------------------------------------------------------------------
  // Templates

  const JoinQuery: string :=
    "SELECT e.*, d.name as department_name FROM employees e JOIN departments d ON e.department_id = d.id"
  const WherePrefix: string :=
    "SELECT e.*, d.name as department_name FROM employees e JOIN departments d ON e.department_id = d.id WHERE "
  const ConditionSeparator: string := " AND "

  const AllEmployeesQuery: string := "SELECT * FROM employees e JOIN departments d ON e.department_id = d.id"
  const AllDepartmentsQuery: string := "SELECT * FROM departments"
  const AllProjectsQuery: string := "SELECT * FROM projects"
  const CountEmployeesQuery: string := "SELECT COUNT(*) as total_employees FROM employees"
  const CountDepartmentsQuery: string := "SELECT COUNT(*) as total_departments FROM departments"
  const CountProjectsQuery: string := "SELECT COUNT(*) as total_projects FROM projects"
  const FallbackQuery: string := "SELECT * FROM employees e JOIN departments d ON e.department_id = d.id LIMIT 10"

  const AverageSalaryQuery: string := "SELECT AVG(salary) as average_salary FROM employees"
  const MaximumSalaryQuery: string := "SELECT MAX(salary) as maximum_salary FROM employees"
  const MinimumSalaryQuery: string := "SELECT MIN(salary) as minimum_salary FROM employees"
  const TotalSalaryQuery: string := "SELECT SUM(salary) as total_salary FROM employees"
  const SalarySummaryQuery: string :=
    "SELECT AVG(salary) as average_salary, MAX(salary) as max_salary, MIN(salary) as min_salary FROM employees"

  /** The table words checked by `select_all` and `count`, in precedence order. */
  const TableWords: seq<string> := ["employee", "department", "project"]
  const SelectAllQueries: seq<string> := [AllEmployeesQuery, AllDepartmentsQuery, AllProjectsQuery]
  const CountQueries: seq<string> := [CountEmployeesQuery, CountDepartmentsQuery, CountProjectsQuery]

  // ---------------------------------------------------------------------
  // Conditions of the filtered listing

  /** The comparison operators the templates use: `>`, `<` and `>=`. */
  datatype Comparison = Greater | Less | AtLeast

  /** The salary comparison: `>` beats `<`, and `>=` is the default. */
  function SalaryComparison(text: string): (op: Comparison)
    ensures op == Greater <==> Contains(text, "greater than") || Contains(text, "more than") || Contains(text, "above")
    ensures op == Less <==> !(Contains(text, "greater than") || Contains(text, "more than") || Contains(text, "above"))
                            && (Contains(text, "less than") || Contains(text, "below"))
  {
    if Contains(text, "greater than") || Contains(text, "more than") || Contains(text, "above") then Greater
    else if Contains(text, "less than") || Contains(text, "below") then Less
    else AtLeast
  }

  /** The two hire-year comparisons the templates use: `>` (after) and `<` (before). */
  datatype YearDirection = After | Before

  /** The hire-year comparison: `after`/`since` beats `before`; otherwise there is none. */
  function YearComparison(text: string): (op: Option<YearDirection>)
    ensures op == Some(After) <==> Contains(text, "after") || Contains(text, "since")
    ensures op == Some(Before) <==> !(Contains(text, "after") || Contains(text, "since")) && Contains(text, "before")
    ensures op == None <==> !(Contains(text, "after") || Contains(text, "since") || Contains(text, "before"))
  {
    if Contains(text, "after") || Contains(text, "since") then Some(After)
    else if Contains(text, "before") then Some(Before)
    else None
  }

  /** One predicate of the `WHERE` clause. */
  datatype Condition =
    | DepartmentIs(name: string)
    | SalaryCompared(op: Comparison, amount: nat)
    | HiredInYear(direction: YearDirection, year: string)
    | HiredRecently
  {
    /** Position of the predicate in the fixed clause order. */
    function Rank(): nat {
      match this
      case DepartmentIs(_) => 0
      case SalaryCompared(_, _) => 1
      case HiredInYear(_, _) => 2
      case HiredRecently => 3
    }

    /** The predicate as SQLite text. */
    function Sql(): string {
      match this
      case DepartmentIs(name) => DepartmentSql(name)
      case SalaryCompared(op, amount) => SalarySql(op, amount)
      case HiredInYear(op, year) => YearSql(op, year)
      case HiredRecently => RecentSql
    }
  }

  function DepartmentSql(name: string): string {
    "UPPER(d.name) = '" + name + "'"
  }

  function SalarySql(op: Comparison, amount: nat): string {
    match op
    case Greater => "e.salary > " + NatToString(amount)
    case Less => "e.salary < " + NatToString(amount)
    case AtLeast => "e.salary >= " + NatToString(amount)
  }

  function YearSql(op: YearDirection, year: string): string {
    match op
    case After => "strftime('%Y', e.hire_date) > '" + year + "'"
    case Before => "strftime('%Y', e.hire_date) < '" + year + "'"
  }

  const RecentSql: string := "e.hire_date >= date('now', '-2 years')"

  /** Python truthiness of the entity values: a non-empty string, a non-zero number. */
  predicate HasDepartment(e: Entities) { e.department.Some? && e.department.value != "" }
  predicate HasSalary(e: Entities) { e.salary.Some? && e.salary.value != 0 }
  predicate HasDate(e: Entities) { e.date.Some? && e.date.value != "" }

  function DepartmentPart(e: Entities): seq<Condition> {
    if HasDepartment(e) then [DepartmentIs(e.department.value)] else []
  }

  function SalaryPart(text: string, e: Entities): seq<Condition> {
    if HasSalary(e) then [SalaryCompared(SalaryComparison(text), e.salary.value)] else []
  }

  function YearPart(text: string, e: Entities): seq<Condition> {
    if HasDate(e) && YearComparison(text).Some? then [HiredInYear(YearComparison(text).value, e.date.value)] else []
  }

  function RecentPart(text: string): seq<Condition> {
    if Contains(text, "recent") then [HiredRecently] else []
  }

  /** The predicates of the filtered listing, in the order department, salary, year, recency. */
  function ConditionsOf(text: string, e: Entities): seq<Condition> {
    DepartmentPart(e) + SalaryPart(text, e) + YearPart(text, e) + RecentPart(text)
  }

  /** The predicates of `cs` appear in strictly increasing clause order, so each kind at most once. */
  predicate Ascending(cs: seq<Condition>) {
    forall i, j :: 0 <= i < j < |cs| ==> cs[i].Rank() < cs[j].Rank()
  }

  lemma AscendingAppend(xs: seq<Condition>, ys: seq<Condition>)
    requires Ascending(xs) && Ascending(ys)
    requires forall i, j :: 0 <= i < |xs| && 0 <= j < |ys| ==> xs[i].Rank() < ys[j].Rank()
    ensures Ascending(xs + ys)
  {
  }

  /** The predicates come in the fixed order department, salary, year, recency. */
  lemma ConditionsAscending(text: string, e: Entities)
    ensures Ascending(ConditionsOf(text, e))
  {
    var d, s, y, r := DepartmentPart(e), SalaryPart(text, e), YearPart(text, e), RecentPart(text);
    AscendingAppend(d, s);
    AscendingAppend(d + s, y);
    AscendingAppend(d + s + y, r);
  }

  /**
   * Each predicate is present exactly when its entity is set (for the year,
   * only when a direction word is also present), and carries that entity.
   */
  lemma ConditionsPresent(text: string, e: Entities)
    ensures var cs := ConditionsOf(text, e);
      && (forall d :: DepartmentIs(d) in cs <==> HasDepartment(e) && d == e.department.value)
      && (forall op, a :: SalaryCompared(op, a) in cs <==>
                            HasSalary(e) && a == e.salary.value && op == SalaryComparison(text))
      && (forall op, y :: HiredInYear(op, y) in cs <==>
                            HasDate(e) && y == e.date.value && YearComparison(text) == Some(op))
      && (HiredRecently in cs <==> Contains(text, "recent"))
  {
  }

  /** The predicates rendered one by one, in order. */
  function RenderAll(cs: seq<Condition>): (r: seq<string>)
    ensures |r| == |cs|
    ensures forall i :: 0 <= i < |cs| ==> r[i] == cs[i].Sql()
  {
    seq(|cs|, i requires 0 <= i < |cs| => cs[i].Sql())
  }

  function DepartmentTexts(e: Entities): seq<string> {
    if HasDepartment(e) then [DepartmentSql(e.department.value)] else []
  }

  function SalaryTexts(text: string, e: Entities): seq<string> {
    if HasSalary(e) then [SalarySql(SalaryComparison(text), e.salary.value)] else []
  }

  function YearTexts(text: string, e: Entities): seq<string> {
    if HasDate(e) && YearComparison(text).Some? then [YearSql(YearComparison(text).value, e.date.value)] else []
  }

  function RecentTexts(text: string): seq<string> {
    if Contains(text, "recent") then [RecentSql] else []
  }

  function ConditionTexts(text: string, e: Entities): seq<string> {
    DepartmentTexts(e) + SalaryTexts(text, e) + YearTexts(text, e) + RecentTexts(text)
  }

  lemma RenderAllAppend(xs: seq<Condition>, ys: seq<Condition>)
    ensures RenderAll(xs + ys) == RenderAll(xs) + RenderAll(ys)
  {
  }

  /** The texts the listing joins are exactly the rendered predicates, in the same order. */
  lemma TextsRenderConditions(text: string, e: Entities)
    ensures ConditionTexts(text, e) == RenderAll(ConditionsOf(text, e))
  {
    var d, s, y, r := DepartmentPart(e), SalaryPart(text, e), YearPart(text, e), RecentPart(text);
    assert RenderAll(d) == DepartmentTexts(e);
    assert RenderAll(s) == SalaryTexts(text, e);
    assert RenderAll(y) == YearTexts(text, e);
    assert RenderAll(r) == RecentTexts(text);
    RenderAllAppend(d, s);
    RenderAllAppend(d + s, y);
    RenderAllAppend(d + s + y, r);
  }

  /** The filtered listing: the join, plus `WHERE` and the predicates joined by `AND` when there are any. */
  function ConditionalQuery(text: string, e: Entities): string {
    var texts := ConditionTexts(text, e);
    if texts == [] then JoinQuery else WherePrefix + Join(texts, ConditionSeparator)
  }

  /**
   * No `WHERE` is left dangling: the plain join comes back exactly when no
   * predicate applies, and otherwise `WHERE` is followed by at least one
   * predicate.
   */
  lemma NoDanglingWhere(text: string, e: Entities)
    ensures ConditionalQuery(text, e) == JoinQuery <==> ConditionsOf(text, e) == []
    ensures ConditionalQuery(text, e) != JoinQuery ==>
              StartsWith(ConditionalQuery(text, e), WherePrefix) && |ConditionalQuery(text, e)| > |WherePrefix|
  {
    var texts := ConditionTexts(text, e);
    TextsRenderConditions(text, e);
    if texts != [] {
      var q := ConditionalQuery(text, e);
      assert q[..|WherePrefix|] == WherePrefix;
      assert |Join(texts, ConditionSeparator)| >= |texts[0]| > 0;
    }
  }

  /**
   * `build_conditional_query`: appends the predicates one by one to a list,
   * then joins them after the `WHERE` prefix, or falls back to the plain
   * join when the list is empty.
   */
  method BuildConditionalQuery(text: string, e: Entities) returns (q: string)
    ensures q == ConditionalQuery(text, e)
  {
    var conditions: seq<string> := [];

    if HasDepartment(e) {
      conditions := conditions + ["UPPER(d.name) = '" + e.department.value + "'"];
    }
    assert conditions == DepartmentTexts(e);

    ghost var before := conditions;
    if HasSalary(e) {
      var amount := NatToString(e.salary.value);
      if Contains(text, "greater than") || Contains(text, "more than") || Contains(text, "above") {
        conditions := conditions + ["e.salary > " + amount];
      } else if Contains(text, "less than") || Contains(text, "below") {
        conditions := conditions + ["e.salary < " + amount];
      } else {
        conditions := conditions + ["e.salary >= " + amount];
      }
    }
    assert conditions == before + SalaryTexts(text, e);

    before := conditions;
    if HasDate(e) {
      if Contains(text, "after") || Contains(text, "since") {
        conditions := conditions + ["strftime('%Y', e.hire_date) > '" + e.date.value + "'"];
      } else if Contains(text, "before") {
        conditions := conditions + ["strftime('%Y', e.hire_date) < '" + e.date.value + "'"];
      }
    }
    assert conditions == before + YearTexts(text, e);

    before := conditions;
    if Contains(text, "recent") {
      conditions := conditions + ["e.hire_date >= date('now', '-2 years')"];
    }
    assert conditions == before + RecentTexts(text);
    assert conditions == ConditionTexts(text, e);

    if |conditions| > 0 {
      q := WherePrefix + Join(conditions, ConditionSeparator);
    } else {
      q := JoinQuery;
    }
  }

  // ---------------------------------------------------------------------
  // Aggregates

  predicate AsksAverage(text: string) { Contains(text, "average salary") }
  predicate AsksMaximum(text: string) { Contains(text, "maximum salary") || Contains(text, "highest") }
  predicate AsksMinimum(text: string) { Contains(text, "minimum salary") || Contains(text, "lowest") }
  predicate AsksTotal(text: string) { Contains(text, "total salary") || Contains(text, "sum") }

  /**
   * `build_aggregate_query`: average beats maximum beats minimum beats
   * total; with none of them the combined average/maximum/minimum query.
   */
  function AggregateQuery(text: string): (q: string)
    ensures q == AverageSalaryQuery <==> AsksAverage(text)
    ensures q == MaximumSalaryQuery <==> !AsksAverage(text) && AsksMaximum(text)
    ensures q == MinimumSalaryQuery <==> !AsksAverage(text) && !AsksMaximum(text) && AsksMinimum(text)
    ensures q == TotalSalaryQuery <==>
              !AsksAverage(text) && !AsksMaximum(text) && !AsksMinimum(text) && AsksTotal(text)
    ensures q == SalarySummaryQuery <==>
              !AsksAverage(text) && !AsksMaximum(text) && !AsksMinimum(text) && !AsksTotal(text)
  {
    AggregateTemplatesDistinct();
    if AsksAverage(text) then AverageSalaryQuery
    else if AsksMaximum(text) then MaximumSalaryQuery
    else if AsksMinimum(text) then MinimumSalaryQuery
    else if AsksTotal(text) then TotalSalaryQuery
    else SalarySummaryQuery
  }

  lemma AggregateTemplatesDistinct()
    ensures AverageSalaryQuery != MaximumSalaryQuery && AverageSalaryQuery != MinimumSalaryQuery
    ensures AverageSalaryQuery != TotalSalaryQuery && AverageSalaryQuery != SalarySummaryQuery
    ensures MaximumSalaryQuery != MinimumSalaryQuery && MaximumSalaryQuery != TotalSalaryQuery
    ensures MaximumSalaryQuery != SalarySummaryQuery && MinimumSalaryQuery != TotalSalaryQuery
    ensures MinimumSalaryQuery != SalarySummaryQuery && TotalSalaryQuery != SalarySummaryQuery
  {
    assert AverageSalaryQuery[7] == 'A' && MaximumSalaryQuery[7] == 'M';
    assert MinimumSalaryQuery[8] == 'I' && TotalSalaryQuery[7] == 'S';
  }

  // ---------------------------------------------------------------------
  // Intent dispatch

  /**
   * The SQL `text_to_sql` returns for a classified intent label and the
   * user's text (lower-cased before any check).
   */
  function SqlFor(intent: string, text: string): string {
    var lower := Lower(text);
    if intent == "select_all" then
      if Contains(lower, "employee") then AllEmployeesQuery
      else if Contains(lower, "department") then AllDepartmentsQuery
      else if Contains(lower, "project") then AllProjectsQuery
      else AllEmployeesQuery
    else if intent == "select_with_condition" then ConditionalQuery(lower, EntitiesOf(lower))
    else if intent == "count" then
      if Contains(lower, "employee") then CountEmployeesQuery
      else if Contains(lower, "department") then CountDepartmentsQuery
      else if Contains(lower, "project") then CountProjectsQuery
      else ""
    else if intent == "aggregate" then AggregateQuery(lower)
    else if intent == "join" then JoinQuery
    else FallbackQuery
  }

  /**
   * `text_to_sql` with the intent already classified: extracts the entities
   * of the lower-cased text, then picks the template of the intent. The
   * result depends on the label and the text only.
   */
  method TextToSql(intent: string, text: string) returns (sql: string)
    ensures sql == SqlFor(intent, text)
    ensures sql == "" <==> intent == "count" && forall k :: 0 <= k < |TableWords| ==> !Contains(Lower(text), TableWords[k])
  {
    var textLower := Lower(text);
    var entities := ExtractEntities(textLower);

    sql := "";
    if intent == "select_all" {
      if Contains(textLower, "employee") {
        sql := AllEmployeesQuery;
      } else if Contains(textLower, "department") {
        sql := AllDepartmentsQuery;
      } else if Contains(textLower, "project") {
        sql := AllProjectsQuery;
      } else {
        sql := AllEmployeesQuery;
      }
    } else if intent == "select_with_condition" {
      sql := BuildConditionalQuery(textLower, entities);
    } else if intent == "count" {
      if Contains(textLower, "employee") {
        sql := CountEmployeesQuery;
      } else if Contains(textLower, "department") {
        sql := CountDepartmentsQuery;
      } else if Contains(textLower, "project") {
        sql := CountProjectsQuery;
      }
    } else if intent == "aggregate" {
      sql := AggregateQuery(textLower);
    } else if intent == "join" {
      sql := JoinQuery;
    } else {
      sql := FallbackQuery;
    }
    NonEmptyUnlessUnmatchedCount(intent, text);
  }

  /** Only a `count` question naming none of the three tables produces no query at all. */
  lemma NonEmptyUnlessUnmatchedCount(intent: string, text: string)
    ensures SqlFor(intent, text) == "" <==>
              intent == "count" && forall k :: 0 <= k < |TableWords| ==> !Contains(Lower(text), TableWords[k])
  {
    var lower := Lower(text);
    assert TableWords[0] == "employee" && TableWords[1] == "department" && TableWords[2] == "project";
    if intent == "select_with_condition" {
      var cs := ConditionsOf(lower, EntitiesOf(lower));
      assert SqlFor(intent, text) == ConditionalQuery(lower, EntitiesOf(lower));
      if cs != [] {
        assert |SqlFor(intent, text)| >= |WherePrefix|;
      }
    }
  }

  /** `select_all` reads the table of the first table word the text mentions, and all employees otherwise. */
  lemma SelectAllPicksFirstMentioned(text: string)
    ensures SqlFor("select_all", text) ==
              match FirstContained(Lower(text), TableWords)
              case Some(k) => SelectAllQueries[k]
              case None => AllEmployeesQuery
  {
    var lower := Lower(text);
    assert TableWords[0] == "employee" && TableWords[1] == "department" && TableWords[2] == "project";
    assert TableWords[1..][1..][1..] == [];
  }

  /** `count` counts the table of the first table word the text mentions, and yields no query otherwise. */
  lemma CountPicksFirstMentioned(text: string)
    ensures SqlFor("count", text) ==
              match FirstContained(Lower(text), TableWords)
              case Some(k) => CountQueries[k]
              case None => ""
  {
    var lower := Lower(text);
    assert TableWords[0] == "employee" && TableWords[1] == "department" && TableWords[2] == "project";
    assert TableWords[1..][1..][1..] == [];
  }

  /** Any label outside the five trained ones, `unknown` included, gets the ten-row fallback. */
  lemma OtherLabelsFallBack(intent: string, text: string)
    requires intent !in {"select_all", "select_with_condition", "count", "aggregate", "join"}
    ensures SqlFor(intent, text) == FallbackQuery
  {
  }

  /** A classifier that falls back to `unknown` always leads to the ten-row fallback query. */
  lemma UnknownIntentFallsBack(p: NlpIntent.Prediction, text: string)
    requires NlpIntent.ClassifyIntent(p) == NlpIntent.UnknownLabel
    ensures SqlFor(NlpIntent.ClassifyIntent(p), text) == FallbackQuery
  {
  }
}
