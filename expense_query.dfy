/** The query and aggregation logic of the Expense controller, stated over
    the list of stored documents: the month range, `find` with a date
    filter, `sort({ date: -1 })`, `skip`/`limit` and the page count, the
    category summary pipeline and the export selection. */
module ExpenseQuery {
  import opened Common
  import opened Seqs
  import opened Text
  import opened Calendar
  import opened Grouping
  import opened Collection
  import opened ExpenseModel

  /** `{ $gte: lo, $lt: hi }` on the date. */
  datatype Range = Range(lo: int, hi: int)

  /** The filter object getAllExpenses builds: `{}` or a date range. */
  datatype Query = Everything | Between(range: Range)

  const InvalidMonth := "Invalid month format. Use YYYY-MM."

  const DateCastFailure := "Cast to date failed for value \"Invalid Date\" at path \"date\""

  predicate Matches(q: Query, d: Doc<Expense>) {
    q.Everything? || (q.range.lo <= Instant(d.value.date) < q.range.hi)
  }

  /** `find(query)` in natural order. */
  function Find(docs: seq<Doc<Expense>>, q: Query): seq<Doc<Expense>> {
    Filter((d: Doc<Expense>) => Matches(q, d), docs)
  }

  predicate InCalendarMonth(d: Doc<Expense>, y: int, m: int) {
    d.value.date.year == y && d.value.date.month == m
  }

  /** `startDate` and `endDate` for month m of year y. */
  function MonthRange(y: int, m: int): Range
    requires 1 <= m <= 12
  {
    Range(MonthStart(y, m), MonthEnd(y, m))
  }

  /** The month's range selects exactly the documents dated in that
      calendar month, whatever their time of day; the boundary instants
      belong to the months that start at them. */
  lemma {:induction false} MonthQueryIsCalendarMonth(docs: seq<Doc<Expense>>, y: int, m: int)
    requires 1 <= m <= 12
    ensures Find(docs, Between(MonthRange(y, m))) == Filter((d: Doc<Expense>) => InCalendarMonth(d, y, m), docs)
  {
    forall i | 0 <= i < |docs|
      ensures Matches(Between(MonthRange(y, m)), docs[i]) == InCalendarMonth(docs[i], y, m)
    {
      InMonthIff(docs[i].value.date, y, m);
    }
    FilterAgree((d: Doc<Expense>) => Matches(Between(MonthRange(y, m)), d),
                (d: Doc<Expense>) => InCalendarMonth(d, y, m), docs);
  }

  /** The sort key of `sort({ date: -1 })`. */
  function DateKey(d: Doc<Expense>): int { Instant(d.value.date) }

  // Pagination

  /** `(page - 1) * limit`. */
  function Skip(page: int, limit: int): (k: nat)
    requires page >= 1 && limit >= 1
  {
    MulNonNegative(page - 1, limit);
    (page - 1) * limit
  }

  function Min(a: int, b: int): int { if a <= b then a else b }

  /** `.skip(skip).limit(limit)`: at most `limit` elements, the ones at
      positions skip, skip + 1, ... of s. */
  function Slice<T>(s: seq<T>, skip: nat, limit: nat): (r: seq<T>)
    ensures |r| == if skip >= |s| then 0 else Min(limit, |s| - skip)
    ensures forall i :: 0 <= i < |r| ==> skip + i < |s| && r[i] == s[skip + i]
  {
    if skip >= |s| then [] else s[skip..Min(skip + limit, |s|)]
  }

  /** Page `page` of `limit` elements. */
  function PageOf<T>(s: seq<T>, page: int, limit: int): seq<T>
    requires page >= 1 && limit >= 1
  {
    Slice(s, Skip(page, limit), limit)
  }

  /** `Math.ceil(totalCount / limit)`. */
  function TotalPages(count: nat, limit: int): nat
    requires limit >= 1
  {
    (count + limit - 1) / limit
  }

  lemma MulNonNegative(a: int, b: int)
    requires a >= 0 && b >= 0
    ensures a * b >= 0
  {
  }

  lemma MulMonotone(a: int, b: int, c: int)
    requires a <= b && c >= 0
    ensures a * c <= b * c
  {
    assert b * c - a * c == (b - a) * c;
    MulNonNegative(b - a, c);
  }

  /** The page count is the least number of pages of `limit` documents
      that hold all `count` of them. */
  lemma TotalPagesIsCeiling(count: nat, limit: int)
    requires limit >= 1
    ensures TotalPages(count, limit) * limit >= count
    ensures TotalPages(count, limit) >= 1 ==> (TotalPages(count, limit) - 1) * limit < count
    ensures TotalPages(count, limit) == 0 <==> count == 0
  {
    var n := count + limit - 1;
    var t, r := n / limit, n % limit;
    assert n == t * limit + r && 0 <= r < limit;
    assert t * limit - limit == (t - 1) * limit;
    if count == 0 {
      assert n < limit;
    }
  }

  /** A page has documents exactly when its number is at most the page
      count. */
  lemma PageNonEmptyIff<T>(s: seq<T>, page: int, limit: int)
    requires page >= 1 && limit >= 1
    ensures PageOf(s, page, limit) != [] <==> page <= TotalPages(|s|, limit)
  {
    var t := TotalPages(|s|, limit);
    TotalPagesIsCeiling(|s|, limit);
    if page <= t {
      MulMonotone(page - 1, t - 1, limit);
    } else {
      MulMonotone(t, page - 1, limit);
    }
  }

  /** Pages 1 to k, one after the other. */
  function PagesUpTo<T>(s: seq<T>, limit: int, k: nat): seq<T>
    requires limit >= 1
  {
    if k == 0 then [] else PagesUpTo(s, limit, k - 1) + PageOf(s, k, limit)
  }

  lemma {:induction false} PagesUpToPrefix<T>(s: seq<T>, limit: int, k: nat)
    requires limit >= 1
    ensures PagesUpTo(s, limit, k) == s[..Min(k * limit, |s|)]
  {
    if k > 0 {
      PagesUpToPrefix(s, limit, k - 1);
      SkipStep(k, limit);
      SliceJoin(s, Skip(k, limit), limit);
    }
  }

  /** Page k starts where page k - 1 ends. */
  lemma SkipStep(k: int, limit: int)
    requires k >= 1 && limit >= 1
    ensures Skip(k, limit) == (k - 1) * limit
    ensures Skip(k, limit) + limit == k * limit
  {
  }

  /** The elements before a slice followed by the slice are the elements
      before its end. */
  lemma SliceJoin<T>(s: seq<T>, skip: nat, limit: nat)
    ensures s[..Min(skip, |s|)] + Slice(s, skip, limit) == s[..Min(skip + limit, |s|)]
  {
    if skip < |s| {
      assert s[..skip] + s[skip..Min(skip + limit, |s|)] == s[..Min(skip + limit, |s|)];
    }
  }

  /** Reading pages 1 to totalPages in turn yields every document once, in
      order: pagination loses and repeats nothing. */
  lemma PagesCoverAll<T>(s: seq<T>, limit: int)
    requires limit >= 1
    ensures PagesUpTo(s, limit, TotalPages(|s|, limit)) == s
  {
    TotalPagesIsCeiling(|s|, limit);
    PagesUpToPrefix(s, limit, TotalPages(|s|, limit));
  }

  // Replies

  /** The body of a list reply: `{ data, totalPages, currentPage }`. */
  datatype Listing = Listing(data: seq<Doc<Expense>>, totalPages: nat, currentPage: int)

  /** The query for a `month` parameter: none for an empty or missing one;
      a range when `${month}-01T00:00:00.000Z` is a date; None when it is an
      Invalid Date. */
  function ListQuery(month: string): Option<Query> {
    if month == "" then Some(Everything)
    else match MonthStartOf(month)
      case None => None
      case Some(ym) => Some(Between(MonthRange(ym.0, ym.1)))
  }

  /** getAllExpenses for positive page and limit (defaults 1 and 10): the
      date-descending matches, the requested slice, the page count of all
      matches and the page number; 500 when the month is an Invalid Date. */
  function ListReply(docs: seq<Doc<Expense>>, month: string, page: int, limit: int): Reply<Listing>
    requires page >= 1 && limit >= 1
  {
    match ListQuery(month)
    case None => Fail(500, DateCastFailure)
    case Some(q) =>
      Ok(200, ListingOf(Find(docs, q), page, limit))
  }

  function ListingOf(found: seq<Doc<Expense>>, page: int, limit: int): Listing
    requires page >= 1 && limit >= 1
  {
    Listing(PageOf(SortDesc(DateKey, found), page, limit), TotalPages(|found|, limit), page)
  }

  lemma ListingOfCorrect(found: seq<Doc<Expense>>, page: int, limit: int)
    requires page >= 1 && limit >= 1
    ensures ListingOf(found, page, limit).currentPage == page
    ensures |ListingOf(found, page, limit).data| <= limit
    ensures forall d :: d in ListingOf(found, page, limit).data ==> d in found
    ensures SortedDesc(DateKey, ListingOf(found, page, limit).data)
    ensures forall i :: 0 <= i < |ListingOf(found, page, limit).data| ==>
      ListingOf(found, page, limit).data[i] == SortDesc(DateKey, found)[Skip(page, limit) + i]
    ensures ListingOf(found, page, limit).totalPages * limit >= |found|
    ensures ListingOf(found, page, limit).totalPages >= 1 ==> (ListingOf(found, page, limit).totalPages - 1) * limit < |found|
    ensures ListingOf(found, page, limit).data != [] <==> page <= ListingOf(found, page, limit).totalPages
  {
    var sorted := SortDesc(DateKey, found);
    var l := ListingOf(found, page, limit);
    assert l.data == PageOf(sorted, page, limit);
    assert l.totalPages == TotalPages(|sorted|, limit);
    PageOfSlice(DateKey, sorted, page, limit);
    TotalPagesIsCeiling(|found|, limit);
    PageNonEmptyIff(sorted, page, limit);
  }

  /** A page is a run of consecutive elements: each comes from s, and a
      page of a sorted list is sorted. */
  lemma PageOfSlice<T>(key: T -> int, s: seq<T>, page: int, limit: int)
    requires page >= 1 && limit >= 1
    ensures forall i :: 0 <= i < |PageOf(s, page, limit)| ==>
      Skip(page, limit) + i < |s| && PageOf(s, page, limit)[i] == s[Skip(page, limit) + i]
    ensures forall x :: x in PageOf(s, page, limit) ==> x in s
    ensures SortedDesc(key, s) ==> SortedDesc(key, PageOf(s, page, limit))
  {
    var r, k := PageOf(s, page, limit), Skip(page, limit);
    assert r == Slice(s, k, limit);
    forall x | x in r ensures x in s {
      var i :| 0 <= i < |r| && r[i] == x;
      assert s[k + i] == x;
    }
    if SortedDesc(key, s) {
      forall i, j | 0 <= i < j < |r| ensures key(r[i]) >= key(r[j]) {
        assert r[i] == s[k + i] && r[j] == s[k + j];
      }
    }
  }

  /** Every document on a page of the matches of q is a stored document
      that matches q. */
  lemma FindListingMatches(docs: seq<Doc<Expense>>, q: Query, page: int, limit: int)
    requires page >= 1 && limit >= 1
    ensures forall d :: d in ListingOf(Find(docs, q), page, limit).data ==> d in docs && Matches(q, d)
  {
    var found := Find(docs, q);
    ListingOfCorrect(found, page, limit);
    FilterSpec((d: Doc<Expense>) => Matches(q, d), docs);
  }

  /** getAllExpenses by its month parameter: no month lists every stored
      document; a `YYYY-MM` with month 01-12 lists the documents dated in
      that calendar month, and a bare four-digit year those of its January;
      a `YYYY-MM` with month 00 or 13-99, and any other text, is an Invalid
      Date, which the cast of the find rejects with 500. */
  lemma ListReplyByMonth(docs: seq<Doc<Expense>>, month: string, page: int, limit: int)
    requires page >= 1 && limit >= 1
    ensures month == "" ==> ListReply(docs, month, page, limit) == Ok(200, ListingOf(docs, page, limit))
    ensures IsMonthToken(month) && 1 <= TokenMonth(month) <= 12 ==>
      ListReply(docs, month, page, limit) ==
        Ok(200, ListingOf(Filter((d: Doc<Expense>) => InCalendarMonth(d, TokenYear(month), TokenMonth(month)), docs), page, limit))
    ensures |month| == 4 && AllDigits(month) ==>
      ListReply(docs, month, page, limit) ==
        Ok(200, ListingOf(Filter((d: Doc<Expense>) => InCalendarMonth(d, DigitsValue(month), 1), docs), page, limit))
    ensures IsMonthToken(month) && !(1 <= TokenMonth(month) <= 12) ==>
      ListReply(docs, month, page, limit) == Fail(500, DateCastFailure)
    ensures month != "" && !IsMonthToken(month) && !(|month| == 4 && AllDigits(month)) ==>
      ListReply(docs, month, page, limit) == Fail(500, DateCastFailure)
  {
    if month == "" {
      FilterKeepsAll((d: Doc<Expense>) => Matches(Everything, d), docs);
    } else if IsMonthToken(month) && 1 <= TokenMonth(month) <= 12 {
      MonthQueryIsCalendarMonth(docs, TokenYear(month), TokenMonth(month));
    } else if |month| == 4 && AllDigits(month) {
      MonthQueryIsCalendarMonth(docs, DigitsValue(month), 1);
    }
  }

  function ItemsOf(docs: seq<Doc<Expense>>): (r: seq<Item<string>>)
    ensures |r| == |docs|
    ensures forall i :: 0 <= i < |docs| ==> r[i] == Item(docs[i].value.category, docs[i].value.amount)
  {
    seq(|docs|, i requires 0 <= i < |docs| => Item(docs[i].value.category, docs[i].value.amount))
  }

  /** getExpenseSummary. The aggregation is not cast, so an Invalid Date
      bound is sent as instant 0 and the match stage selects nothing. */
  function SummaryReply(docs: seq<Doc<Expense>>, month: string): Reply<seq<CategoryTotal<string>>> {
    if !IsMonthToken(month) then Fail(400, InvalidMonth)
    else if 1 <= TokenMonth(month) <= 12 then
      Ok(200, Summarize(ItemsOf(Find(docs, Between(MonthRange(TokenYear(month), TokenMonth(month)))))))
    else Ok(200, Summarize(ItemsOf(Find(docs, Between(Range(0, 0))))))
  }

  /** The summary rejects anything but `YYYY-MM`; for a month 01-12 it has
      one entry per category of the documents dated in that calendar month,
      each with that category's sum, in non-increasing order of total, and
      the totals add up to the month's overall amount; for month 00 or 13-99
      it is empty. */
  lemma SummaryReplyCorrect(docs: seq<Doc<Expense>>, month: string)
    ensures !IsMonthToken(month) <==> SummaryReply(docs, month) == Fail(400, InvalidMonth)
    ensures IsMonthToken(month) && !(1 <= TokenMonth(month) <= 12) ==> SummaryReply(docs, month) == Ok(200, [])
    ensures IsMonthToken(month) && 1 <= TokenMonth(month) <= 12 ==>
      var inMonth := ItemsOf(Filter((d: Doc<Expense>) => InCalendarMonth(d, TokenYear(month), TokenMonth(month)), docs));
      var r := SummaryReply(docs, month);
      && r.Ok? && r.status == 200
      && (forall e :: e in r.data ==> e.category in Categories(inMonth) && e.total == SumCat(inMonth, e.category))
      && (forall c :: c in Categories(inMonth) ==> CategoryTotal(c, SumCat(inMonth, c)) in r.data)
      && (forall i, j :: 0 <= i < j < |r.data| ==> r.data[i].category != r.data[j].category)
      && SortedDesc(TotalOf, r.data)
      && SumBy(TotalOf, r.data) == Total(inMonth)
  {
    if IsMonthToken(month) {
      if 1 <= TokenMonth(month) <= 12 {
        var y, m := TokenYear(month), TokenMonth(month);
        MonthQueryIsCalendarMonth(docs, y, m);
        SummarizeCorrect(ItemsOf(Find(docs, Between(MonthRange(y, m)))));
      } else {
        var none := Find(docs, Between(Range(0, 0)));
        FilterDropsAll((d: Doc<Expense>) => Matches(Between(Range(0, 0)), d), docs);
        assert ItemsOf(none) == [];
      }
    }
  }

  /** exportExpenses: 400 for a malformed month, 500 when the month makes an
      Invalid Date (the find casts its filter), 404 when nothing matches,
      else every matching document in natural order. */
  function ExportReply(docs: seq<Doc<Expense>>, month: string): Reply<seq<Doc<Expense>>> {
    if !IsMonthToken(month) then Fail(400, InvalidMonth)
    else match MonthStartOf(month)
      case None => Fail(500, DateCastFailure)
      case Some(ym) =>
        var found := Find(docs, Between(MonthRange(ym.0, ym.1)));
        if found == [] then Fail(404, "No expenses found for this month.") else Ok(200, found)
  }

  /** Export answers 400 for anything but `YYYY-MM` and 500 for month 00
      or 13-99; for a month 01-12 it answers 404 exactly when no document
      is dated in that month, and otherwise returns all of them and nothing
      else, in their stored order. */
  lemma ExportReplyCorrect(docs: seq<Doc<Expense>>, month: string)
    ensures !IsMonthToken(month) <==> ExportReply(docs, month) == Fail(400, InvalidMonth)
    ensures IsMonthToken(month) && !(1 <= TokenMonth(month) <= 12) ==>
      ExportReply(docs, month) == Fail(500, DateCastFailure)
    ensures IsMonthToken(month) && 1 <= TokenMonth(month) <= 12 ==>
      var inMonth := Filter((d: Doc<Expense>) => InCalendarMonth(d, TokenYear(month), TokenMonth(month)), docs);
      && (ExportReply(docs, month).Fail? <==> inMonth == [])
      && (ExportReply(docs, month).Fail? ==> ExportReply(docs, month) == Fail(404, "No expenses found for this month."))
      && (ExportReply(docs, month).Ok? ==> ExportReply(docs, month).status == 200 && ExportReply(docs, month).data == inMonth)
  {
    if IsMonthToken(month) && 1 <= TokenMonth(month) <= 12 {
      MonthQueryIsCalendarMonth(docs, TokenYear(month), TokenMonth(month));
    }
  }
}
