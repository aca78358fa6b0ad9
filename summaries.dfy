/**
 * The chart endpoints of backend/main.py after their aggregation pipelines:
 * each loops over the grouped rows the store returns and appends one
 * reshaped dict per row to `formatted_data`.
 */
module Summaries {
  import opened PyText
  import opened DateTimes
  import opened PyRuntime

  /** One `$group` result: its `_id`, the summed amounts and the number of documents. */
  datatype Bucket = Bucket(id: Value, total: real, count: int)

  /** A `/monthly_trends` group: `_id` holds the `$year` and `$month` of its dates. */
  datatype MonthBucket = MonthBucket(year: int, month: int, total: real, count: int)

  /** The dicts the endpoints return. */
  datatype CategoryTotal = CategoryTotal(category: Value, total: real, count: int)
  datatype WeekTotal = WeekTotal(week: string, total: real, count: int)
  datatype MonthTotal = MonthTotal(month: string, total: real, count: int)
  datatype TopCategory = TopCategory(category: Value, total: real)

  /** The number of top categories `$limit` and `to_list(length=...)` keep. */
  const TopLimit := 5

  /** `item["_id"] if item["_id"] else "Other"`. */
  function CategoryLabel(id: Value): (shown: Value)
    ensures Truthy(shown)
    ensures Truthy(id) ==> shown == id
    ensures !Truthy(id) ==> shown == Str("Other")
  {
    if Truthy(id) then id else Str("Other")
  }

  /** `/category_summary`: one row per group, the category labelled, total and count copied. */
  method FormatCategorySummary(groups: seq<Bucket>) returns (formatted: seq<CategoryTotal>)
    ensures |formatted| == |groups|
    ensures forall i :: 0 <= i < |groups| ==>
              formatted[i] == CategoryTotal(CategoryLabel(groups[i].id), groups[i].total, groups[i].count)
  {
    formatted := [];
    var i := 0;
    while i < |groups|
      invariant 0 <= i <= |groups| && |formatted| == i
      invariant forall j :: 0 <= j < i ==>
                  formatted[j] == CategoryTotal(CategoryLabel(groups[j].id), groups[j].total, groups[j].count)
    {
      var item := groups[i];
      formatted := formatted + [CategoryTotal(CategoryLabel(item.id), item.total, item.count)];
      i := i + 1;
    }
  }

  /** The f-string `f"Week {i+1}"`. */
  function WeekLabel(i: nat): string {
    "Week " + NatToString(i + 1)
  }

  /** `/weekly_trends`: the groups in the order the store sorted them, labelled by position. */
  method FormatWeeklyTrends(groups: seq<Bucket>) returns (formatted: seq<WeekTotal>)
    ensures |formatted| == |groups|
    ensures forall i :: 0 <= i < |groups| ==>
              formatted[i] == WeekTotal(WeekLabel(i), groups[i].total, groups[i].count)
  {
    formatted := [];
    var i := 0;
    while i < |groups|
      invariant 0 <= i <= |groups| && |formatted| == i
      invariant forall j :: 0 <= j < i ==> formatted[j] == WeekTotal(WeekLabel(j), groups[j].total, groups[j].count)
    {
      formatted := formatted + [WeekTotal(WeekLabel(i), groups[i].total, groups[i].count)];
      i := i + 1;
    }
  }

  /** Every week label reads back its position: distinct rows get distinct labels. */
  lemma WeekLabelsDistinct(i: nat, j: nat)
    requires WeekLabel(i) == WeekLabel(j)
    ensures i == j
  {
    assert WeekLabel(i)[5..] == NatToString(i + 1);
    assert WeekLabel(j)[5..] == NatToString(j + 1);
    NatToStringInjective(i + 1, j + 1);
  }

  /** `/top_categories`: the first `TopLimit` groups of the sorted cursor, labelled. */
  method FormatTopCategories(cursor: seq<Bucket>) returns (formatted: seq<TopCategory>)
    ensures |formatted| == if |cursor| < TopLimit then |cursor| else TopLimit
    ensures forall i :: 0 <= i < |formatted| ==>
              formatted[i] == TopCategory(CategoryLabel(cursor[i].id), cursor[i].total)
  {
    var topCategories := if |cursor| < TopLimit then cursor else cursor[..TopLimit];
    formatted := [];
    var i := 0;
    while i < |topCategories|
      invariant 0 <= i <= |topCategories| && |formatted| == i
      invariant forall j :: 0 <= j < i ==>
                  formatted[j] == TopCategory(CategoryLabel(topCategories[j].id), topCategories[j].total)
    {
      var item := topCategories[i];
      formatted := formatted + [TopCategory(CategoryLabel(item.id), item.total)];
      i := i + 1;
    }
  }

  /** The groups are in the order `{"$sort": {"total": -1}}` leaves them. */
  predicate SortedByTotalDescending(groups: seq<Bucket>) {
    forall i, j :: 0 <= i < j < |groups| ==> groups[i].total >= groups[j].total
  }

  /**
   * The top rows of a cursor sorted by total are the largest: none of the
   * groups left out has a larger total than a row kept, and the rows kept
   * are themselves in descending order.
   */
  lemma TopCategoriesAreLargest(cursor: seq<Bucket>, formatted: seq<TopCategory>)
    requires SortedByTotalDescending(cursor)
    requires |formatted| == if |cursor| < TopLimit then |cursor| else TopLimit
    requires forall i :: 0 <= i < |formatted| ==> formatted[i] == TopCategory(CategoryLabel(cursor[i].id), cursor[i].total)
    ensures |formatted| <= TopLimit
    ensures forall i, j :: 0 <= i < |formatted| <= j < |cursor| ==> formatted[i].total >= cursor[j].total
    ensures forall i, j :: 0 <= i < j < |formatted| ==> formatted[i].total >= formatted[j].total
  {
  }

  const MonthAbbreviations: seq<string> :=
    ["Jan", "Feb", "Mar", "Apr", "May", "Jun", "Jul", "Aug", "Sep", "Oct", "Nov", "Dec"]

  /** `datetime(year, month, 1)` exists. */
  predicate ValidMonth(year: int, month: int) {
    MinYear <= year <= MaxYear && 1 <= month <= 12
  }

  /** `datetime(year, month, 1).strftime("%b %Y")`, under the C locale. */
  function MonthLabel(year: int, month: int): string
    requires ValidMonth(year, month)
  {
    MonthAbbreviations[month - 1] + " " + NatToString(year)
  }

  /**
   * `/monthly_trends`: a row whose year and month make no date raises
   * `ValueError`, which the endpoint's handler turns into an empty list;
   * otherwise one labelled row per group.
   */
  method FormatMonthlyTrends(groups: seq<MonthBucket>) returns (formatted: seq<MonthTotal>)
    ensures (forall i :: 0 <= i < |groups| ==> ValidMonth(groups[i].year, groups[i].month)) ==>
              && |formatted| == |groups|
              && forall i :: 0 <= i < |groups| ==>
                   formatted[i] == MonthTotal(MonthLabel(groups[i].year, groups[i].month), groups[i].total, groups[i].count)
    ensures !(forall i :: 0 <= i < |groups| ==> ValidMonth(groups[i].year, groups[i].month)) ==> formatted == []
  {
    formatted := [];
    var i := 0;
    while i < |groups|
      invariant 0 <= i <= |groups| && |formatted| == i
      invariant forall j :: 0 <= j < i ==> ValidMonth(groups[j].year, groups[j].month)
      invariant forall j :: 0 <= j < i ==>
                  formatted[j] == MonthTotal(MonthLabel(groups[j].year, groups[j].month), groups[j].total, groups[j].count)
    {
      var item := groups[i];
      if !ValidMonth(item.year, item.month) {
        return [];
      }
      formatted := formatted + [MonthTotal(MonthLabel(item.year, item.month), item.total, item.count)];
      i := i + 1;
    }
  }

  /** A month label names its month and year: different months never share a label. */
  lemma MonthLabelsDistinct(y1: int, m1: int, y2: int, m2: int)
    requires ValidMonth(y1, m1) && ValidMonth(y2, m2)
    requires MonthLabel(y1, m1) == MonthLabel(y2, m2)
    ensures y1 == y2 && m1 == m2
  {
    var text := MonthLabel(y1, m1);
    assert text[..3] == MonthAbbreviations[m1 - 1];
    assert MonthLabel(y2, m2)[..3] == MonthAbbreviations[m2 - 1];
    assert text[4..] == NatToString(y1);
    assert MonthLabel(y2, m2)[4..] == NatToString(y2);
    NatToStringInjective(y1, y2);
  }
}
