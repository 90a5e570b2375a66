/** The client's expense page: the month and category filters, the
    per-category totals behind the chart, the category choices, the
    summary statistics, and the edit form's date and category fields. */
module MyExpenses {
  import opened Common
  import opened Seqs
  import opened Text
  import opened Calendar
  import opened Grouping

  /** An expense as the page holds it. Amounts are integers (cents). */
  datatype Row = Row(id: nat, amount: int, category: string, date: Date, description: string)

  /** The two filter selects; the empty string is "All". */
  datatype Filters = Filters(month: string, category: string)

  predicate MonthActive(f: Filters) { f.month != "" }

  predicate CategoryActive(f: Filters) { f.category != "" && f.category != "all" }

  /** `getMonth() + 1 === parseInt(filters.month)`; NaN matches nothing. */
  predicate MonthKeeps(month: string, r: Row) { ParseInt(month) == Some(r.date.month) }

  /** Categories compared after `toLowerCase`. */
  predicate CategoryKeeps(category: string, r: Row) { Lower(r.category) == Lower(category) }

  /** A row survives both active filters. */
  predicate Keeps(f: Filters, r: Row) {
    && (MonthActive(f) ==> MonthKeeps(f.month, r))
    && (CategoryActive(f) ==> CategoryKeeps(f.category, r))
  }

  function Filtered(data: seq<Row>, f: Filters): seq<Row> {
    Filter((r: Row) => Keeps(f, r), data)
  }

  /** applyFilters: `result` starts as a copy of the data and each active
      filter narrows it. */
  method ApplyFilters(data: seq<Row>, f: Filters) returns (result: seq<Row>)
    ensures result == Filtered(data, f)
    ensures IsSubsequence(result, data)
    ensures forall r :: r in result <==> r in data && Keeps(f, r)
    ensures forall r :: multiset(result)[r] == if Keeps(f, r) then multiset(data)[r] else 0
    ensures !MonthActive(f) && !CategoryActive(f) ==> result == data
  {
    var byMonth := (r: Row) => MonthKeeps(f.month, r);
    var byCategory := (r: Row) => CategoryKeeps(f.category, r);
    result := data;
    if f.month != "" {
      result := Filter(byMonth, result);
    }
    if f.category != "" && f.category != "all" {
      if f.month != "" {
        FilterFilter(byMonth, byCategory, (r: Row) => Keeps(f, r), data);
      } else {
        FilterAgree(byCategory, (r: Row) => Keeps(f, r), data);
      }
      result := Filter(byCategory, result);
    } else if f.month != "" {
      FilterAgree(byMonth, (r: Row) => Keeps(f, r), data);
    } else {
      FilterKeepsAll((r: Row) => Keeps(f, r), data);
    }
    FilterSpec((r: Row) => Keeps(f, r), data);
  }

  /** For each choice of the month select, "1" to "12", the month filter
      keeps exactly the rows dated in that month of any year. */
  lemma MonthFilterByNumber(m: nat, r: Row)
    requires 1 <= m <= 12
    ensures MonthKeeps(Decimal(m), r) <==> r.date.month == m
  {
    ParseIntDecimal(m);
  }

  /** Picking a category from the category select, with no month chosen,
      always leaves at least one row: every row of that category, whatever
      its letter case. A stored category spelt "all" is offered too, and
      choosing it filters nothing. */
  lemma ChosenCategoryShowsRows(data: seq<Row>, c: string)
    requires c in UniqueCategories(data)
    ensures Filtered(data, Filters("", c)) != []
    ensures forall r :: r in data && Lower(r.category) == Lower(c) ==> r in Filtered(data, Filters("", c))
    ensures c == "all" ==> Filtered(data, Filters("", c)) == data
  {
    if c == "all" {
      FilterKeepsAll((r: Row) => Keeps(Filters("", c), r), data);
    }
    var i :| 0 <= i < |data| && data[i].category == c;
    FilterSpec((r: Row) => Keeps(Filters("", c), r), data);
    assert data[i] in Filtered(data, Filters("", c));
  }

  // Category totals and choices

  function ItemsOf(rows: seq<Row>): (items: seq<Item<string>>)
    ensures |items| == |rows|
    ensures forall i :: 0 <= i < |rows| ==> items[i] == Item(rows[i].category, rows[i].amount)
  {
    seq(|rows|, i requires 0 <= i < |rows| => Item(rows[i].category, rows[i].amount))
  }

  /** `[...new Set(data.map(e => e.category))]`: each category of the data
      exactly once, in order of first appearance. */
  function UniqueCategories(data: seq<Row>): (r: seq<string>)
    ensures forall c :: c in r <==> exists i :: 0 <= i < |data| && data[i].category == c
    ensures NoDuplicates(r)
  {
    var cs := Categories(ItemsOf(data));
    assert forall c :: c in cs <==> exists i :: 0 <= i < |data| && data[i].category == c by {
      forall c ensures c in cs <==> exists i :: 0 <= i < |data| && data[i].category == c {
        if c in cs {
          var i :| 0 <= i < |cs| && cs[i] == c;
          assert data[i].category == c;
        }
      }
    }
    Distinct(cs)
  }

  /** The accumulator after folding over the items: each category's
      previous entry (or 0) plus the amount. */
  function TotalsOf(items: seq<Item<string>>): map<string, int> {
    if items == [] then map[]
    else
      Tally(TotalsOf(items[..|items| - 1]), items[|items| - 1])
  }

  /** One step of the reduce: `acc[category] = (acc[category] || 0) + amount`. */
  function Tally(acc: map<string, int>, x: Item<string>): map<string, int> {
    acc[x.category := (if x.category in acc then acc[x.category] else 0) + x.amount]
  }

  /** The accumulator's keys are the categories seen, and each value is the
      category's sum. */
  lemma {:induction false} TotalsOfSpec(items: seq<Item<string>>)
    ensures forall c :: c in TotalsOf(items) <==> c in Categories(items)
    ensures forall c :: c in TotalsOf(items) ==> TotalsOf(items)[c] == SumCat(items, c)
  {
    if items != [] {
      var init, x := items[..|items| - 1], items[|items| - 1];
      TotalsOfSpec(init);
      assert Categories(items) == Categories(init) + [x.category];
      if x.category !in Categories(init) {
        SumCatAbsent(init, x.category);
      }
    }
  }

  /** The `categoryTotals` reduce: for each row, `acc[category]` becomes
      its old value (or 0) plus the amount. `labels` is the key order of
      the resulting object. */
  method CategoryTotals(rows: seq<Row>) returns (totals: map<string, int>, labels: seq<string>)
    ensures forall c :: c in totals <==> c in Categories(ItemsOf(rows))
    ensures forall c :: c in totals ==> totals[c] == SumCat(ItemsOf(rows), c)
    ensures labels == Distinct(Categories(ItemsOf(rows)))
  {
    var items := ItemsOf(rows);
    totals := map[];
    labels := [];
    var i := 0;
    while i < |rows|
      invariant 0 <= i <= |rows|
      invariant totals == TotalsOf(items[..i])
      invariant labels == Distinct(Categories(items[..i]))
    {
      var x := items[i];
      LabelsStep(items, i);
      if x.category !in totals {
        labels := labels + [x.category];
      }
      totals := Tally(totals, x);
      i := i + 1;
    }
    assert items[..|rows|] == items;
    TotalsOfSpec(items);
  }

  /** One more row: a category gets a new label exactly when the accumulator
      had no entry for it. */
  lemma LabelsStep(items: seq<Item<string>>, i: nat)
    requires i < |items|
    ensures TotalsOf(items[..i + 1]) == Tally(TotalsOf(items[..i]), items[i])
    ensures Distinct(Categories(items[..i + 1])) ==
      var d := Distinct(Categories(items[..i]));
      if items[i].category in TotalsOf(items[..i]) then d else d + [items[i].category]
  {
    TotalsStep(items, i);
    TotalsOfSpec(items[..i]);
  }

  /** What one more row adds to the categories, the accumulator and the
      labels. */
  lemma TotalsStep(items: seq<Item<string>>, i: nat)
    requires i < |items|
    ensures Categories(items[..i + 1]) == Categories(items[..i]) + [items[i].category]
    ensures TotalsOf(items[..i + 1]) == Tally(TotalsOf(items[..i]), items[i])
    ensures Distinct(Categories(items[..i + 1])) ==
      var d := Distinct(Categories(items[..i]));
      if items[i].category in d then d else d + [items[i].category]
  {
    var next := items[..i + 1];
    assert next[..i] == items[..i] && next[i] == items[i];
    assert Categories(next)[..i] == Categories(items[..i]);
  }

  lemma {:induction false} SumCatAbsent(s: seq<Item<string>>, c: string)
    requires c !in Categories(s)
    ensures SumCat(s, c) == 0
  {
    if s != [] {
      assert Categories(s[..|s| - 1]) == Categories(s)[..|s| - 1];
      SumCatAbsent(s[..|s| - 1], c);
    }
  }

  /** The sum of the values of m over the keys ks. */
  function ValuesSum(m: map<string, int>, ks: seq<string>): int
    requires forall k :: k in ks ==> k in m
  {
    if ks == [] then 0 else m[ks[0]] + ValuesSum(m, ks[1..])
  }

  lemma {:induction false} ValuesSumIsSumOver(m: map<string, int>, ks: seq<string>, s: seq<Item<string>>)
    requires forall k :: k in ks ==> k in m && m[k] == SumCat(s, k)
    ensures ValuesSum(m, ks) == SumOver(ks, s)
  {
    if ks != [] {
      ValuesSumIsSumOver(m, ks[1..], s);
    }
  }

  /** The chart's values, one per label, add up to the displayed total. */
  lemma ChartValuesAddUp(rows: seq<Row>, totals: map<string, int>, labels: seq<string>)
    requires forall c :: c in totals <==> c in Categories(ItemsOf(rows))
    requires forall c :: c in totals ==> totals[c] == SumCat(ItemsOf(rows), c)
    requires labels == Distinct(Categories(ItemsOf(rows)))
    ensures forall k :: k in labels ==> k in totals
    ensures ValuesSum(totals, labels) == Total(ItemsOf(rows))
  {
    var items := ItemsOf(rows);
    ValuesSumIsSumOver(totals, labels, items);
    forall i | 0 <= i < |items| ensures items[i].category in labels {
      assert Categories(items)[i] == items[i].category;
    }
    SumOverDistinct(labels, items);
  }

  // The summary block

  /** Total, highest and average of the shown rows. */
  datatype Stats = Stats(total: int, highest: int, average: real)

  /** `Math.max(...amounts)` over a non-empty list. */
  function Highest(rows: seq<Row>): (h: int)
    requires rows != []
    ensures exists i :: 0 <= i < |rows| && rows[i].amount == h
    ensures forall i :: 0 <= i < |rows| ==> rows[i].amount <= h
  {
    if |rows| == 1 then rows[0].amount
    else
      var rest := Highest(rows[1..]);
      assert forall i :: 1 <= i < |rows| ==> rows[i] == rows[1..][i - 1];
      if rows[0].amount >= rest then rows[0].amount else rest
  }

  /** The summary block, shown only when some row is shown. */
  function StatsOf(rows: seq<Row>): (s: Option<Stats>)
    ensures s.None? <==> rows == []
    ensures s.Some? ==> s.value.total == Total(ItemsOf(rows)) && s.value.highest == Highest(rows)
  {
    if rows == [] then None
    else
      var total := Total(ItemsOf(rows));
      Some(Stats(total, Highest(rows), (total as real) / (|rows| as real)))
  }

  /** The average times the number of rows is the total. */
  lemma AverageTimesCount(rows: seq<Row>)
    requires rows != []
    ensures StatsOf(rows).value.average * (|rows| as real) == StatsOf(rows).value.total as real
  {
    var s := StatsOf(rows).value;
    DivTimes(s.total as real, |rows| as real);
  }

  lemma DivTimes(t: real, n: real)
    requires n != 0.0
    ensures (t / n) * n == t
  {
  }

  /** The average is at most the highest amount. */
  lemma {:induction false} AverageAtMostHighest(rows: seq<Row>)
    requires rows != []
    ensures StatsOf(rows).value.average <= StatsOf(rows).value.highest as real
  {
    var s := StatsOf(rows).value;
    TotalAtMost(ItemsOf(rows), s.highest);
    AverageBound(s.total, s.highest, |rows|);
  }

  lemma AverageBound(total: int, h: int, k: nat)
    requires k > 0 && total <= k * h
    ensures (total as real) / (k as real) <= h as real
  {
    var n := k as real;
    assert (k * h) as real == n * (h as real);
    assert (total as real) <= n * (h as real);
    DivTimes(total as real, n);
  }

  lemma {:induction false} TotalAtMost(items: seq<Item<string>>, h: int)
    requires forall i :: 0 <= i < |items| ==> items[i].amount <= h
    ensures Total(items) <= |items| * h
  {
    if items != [] {
      TotalAtMost(items[..|items| - 1], h);
    }
  }

  // The edit form

  /** `s.split(c)[0]`: everything before the first c, or all of s. */
  function BeforeFirst(s: string, c: char): (r: string)
    ensures |r| <= |s| && r == s[..|r|]
    ensures c !in r
    ensures |r| < |s| ==> s[|r|] == c
  {
    if s == [] || s[0] == c then [] else [s[0]] + BeforeFirst(s[1..], c)
  }

  /** The form's date field, cut from the stored date's ISO text, is the
      calendar day `YYYY-MM-DD` of the expense. */
  lemma EditDateIsDay(d: Date)
    ensures BeforeFirst(IsoString(d), 'T') == DayText(d)
  {
    DayTextHasNoT(d);
    var s, r := IsoString(d), BeforeFirst(IsoString(d), 'T');
    var k := |DayText(d)|;
    assert s[k] == 'T' && s[..k] == DayText(d);
  }

  /** The nine values of the edit form's fixed category options. */
  const FixedCategories: seq<string> :=
    ["food", "transportation", "utilities", "entertainment", "shopping", "health", "travel", "education", "other"]

  /** The category option values as written: the nine fixed ones, plus the
      expense's own category when its lower-case form is not among them. */
  function EditOptionsAsWritten(category: string): seq<string> {
    FixedCategories + (if Lower(category) in FixedCategories then [] else [category])
  }

  /** The extra option is present exactly when the lower-cased category is
      not a fixed value; then it is the category as stored. */
  lemma EditOptionsAsWrittenRule(category: string)
    ensures |EditOptionsAsWritten(category)| == 10 <==> Lower(category) !in FixedCategories
    ensures Lower(category) !in FixedCategories ==> EditOptionsAsWritten(category)[9] == category
    ensures category in EditOptionsAsWritten(category) <==>
      category in FixedCategories || Lower(category) !in FixedCategories
  {
  }

  /** A category stored as "Food" gets no option of its own, and no option
      has the value "Food", so the select cannot show it. */
  lemma EditOptionsAsWrittenMissesFood()
    ensures "Food" !in EditOptionsAsWritten("Food")
  {
    assert Lower("Food") == "food";
    assert "Food" != "food";
  }

  /** A category stored as "Travel" has no option of its own either, and
      the first enabled option, the one a select without a matching option
      falls back to, holds another category. */
  lemma EditOptionsAsWrittenMissesTravel()
    ensures "Travel" !in EditOptionsAsWritten("Travel")
    ensures EditOptionsAsWritten("Travel")[0] == "food" && Lower("Travel") != "food"
  {
    assert Lower("Travel") == "travel";
    assert "Travel" != "travel";
  }

  /** The extra option whenever the category is not itself a fixed value. */
  function EditOptions(category: string): (r: seq<string>)
    ensures category in r
    ensures |r| == 10 <==> category !in FixedCategories
  {
    FixedCategories + (if category in FixedCategories then [] else [category])
  }

  /** With the corrected rule every category has its option, and the
      category option is never duplicated. */
  lemma EditOptionsCorrect(category: string)
    ensures category in EditOptions(category)
    ensures NoDuplicates(EditOptions(category))
  {
    var r := EditOptions(category);
    forall i, j | 0 <= i < j < |r| ensures r[i] != r[j] {
      if j == 9 {
        assert r[j] == category && r[i] == FixedCategories[i];
      }
    }
  }
}
