/** The older Expence controller, the one the server mounts at /expenses,
    over a record type whose four fields carry no constraint at all. */
module LegacyController {
  import opened Common
  import opened Seqs
  import opened Text
  import opened Calendar
  import opened Grouping
  import opened Collection
  import opened ExpenseModel
  import opened ExpenseQuery

  /** A record of the unconstrained schema: each field is stored when the
      body has it, as sent, and missing otherwise. */
  datatype Record = Record(amount: Option<int>, category: Option<string>, date: Option<Date>, description: Option<string>)

  function Present<T>(f: Field<T>): Option<T> {
    if f.Given? then Some(f.value) else None
  }

  /** Every field of the body whose value does not cast to the field's
      type, in schema path order: the only validators of this schema. */
  function CastViolations(b: Input): seq<Violation> {
    (if b.amount.Junk? then [Violation("amount", "Cast to Number failed")] else [])
      + (if b.category.Junk? then [Violation("category", "Cast to string failed")] else [])
      + (if b.date.Junk? then [Violation("date", "Cast to date failed")] else [])
      + (if b.description.Junk? then [Violation("description", "Cast to string failed")] else [])
  }

  /** `new ExpenseModal(body).save()`: only casting can fail, and the
      ValidationError collects every cast failure. */
  function Build(b: Input): Result<Record> {
    if CastViolations(b) != [] then Failure("Expense validation failed: " + JoinViolations(CastViolations(b)))
    else Success(Record(Present(b.amount), Present(b.category), Present(b.date), Present(b.description)))
  }

  /** Any body whose values have the right types is saved, including an
      empty one or a negative amount, and its values are kept untrimmed. */
  lemma BuildAcceptsIff(b: Input)
    ensures Build(b).Success? <==> !b.amount.Junk? && !b.category.Junk? && !b.date.Junk? && !b.description.Junk?
    ensures Build(b).Success? ==>
      && (b.amount.Given? ==> Build(b).value.amount == Some(b.amount.value))
      && (b.amount.Absent? ==> Build(b).value.amount == None)
      && (b.category.Given? ==> Build(b).value.category == Some(b.category.value))
      && (b.category.Absent? ==> Build(b).value.category == None)
      && (b.date.Given? ==> Build(b).value.date == Some(b.date.value))
      && (b.date.Absent? ==> Build(b).value.date == None)
      && (b.description.Given? ==> Build(b).value.description == Some(b.description.value))
      && (b.description.Absent? ==> Build(b).value.description == None)
    ensures Build(Input(Absent, Absent, Absent, Absent)) == Success(Record(None, None, None, None))
    ensures Build(Input(Given(-5), Given(" x "), Absent, Absent)).Success?
  {
  }

  /** A rejected body's error message starts with the validation-failed
      prefix and names every mistyped field as `path: reason`. */
  lemma BuildReportsCasts(b: Input, n: nat)
    requires n < |CastViolations(b)|
    ensures Build(b).Failure?
    ensures |Build(b).message| >= 27 && Build(b).message[..27] == "Expense validation failed: "
    ensures Occurs(Named(CastViolations(b)[n]), Build(b).message)
  {
    JoinNamesEach(CastViolations(b), n);
    OccursAfter(Named(CastViolations(b)[n]), "Expense validation failed: ", JoinViolations(CastViolations(b)));
  }

  /** With both the amount and the date mistyped, both are reported, and
      the message names the date as well as the amount. */
  lemma BuildReportsBothCasts()
    ensures Build(Input(Junk, Absent, Junk, Absent)).Failure?
    ensures CastViolations(Input(Junk, Absent, Junk, Absent)) ==
      [Violation("amount", "Cast to Number failed"), Violation("date", "Cast to date failed")]
    ensures Occurs(Named(Violation("date", "Cast to date failed")), Build(Input(Junk, Absent, Junk, Absent)).message)
  {
    BuildReportsCasts(Input(Junk, Absent, Junk, Absent), 1);
  }



  /** `findByIdAndUpdate(id, body)`: each field the body has replaces the
      stored one, the rest stay. */
  function Patch(r: Record, b: Input): Record {
    Record(
      if b.amount.Given? then Some(b.amount.value) else r.amount,
      if b.category.Given? then Some(b.category.value) else r.category,
      if b.date.Given? then Some(b.date.value) else r.date,
      if b.description.Given? then Some(b.description.value) else r.description)
  }

  /** The patch stores the fields the body has as sent, keeps the fields
      the body leaves out, and applying it twice is applying it once. */
  lemma PatchProperties(r: Record, b: Input)
    ensures b.amount.Given? ==> Patch(r, b).amount == Some(b.amount.value)
    ensures b.category.Given? ==> Patch(r, b).category == Some(b.category.value)
    ensures b.date.Given? ==> Patch(r, b).date == Some(b.date.value)
    ensures b.description.Given? ==> Patch(r, b).description == Some(b.description.value)
    ensures !b.amount.Given? ==> Patch(r, b).amount == r.amount
    ensures !b.category.Given? ==> Patch(r, b).category == r.category
    ensures !b.date.Given? ==> Patch(r, b).date == r.date
    ensures !b.description.Given? ==> Patch(r, b).description == r.description
    ensures Patch(Patch(r, b), b) == Patch(r, b)
  {
  }

  // The monthly summary

  /** `{ data, message }` of the summary answer. A record without a
      category is grouped under a null key. */
  datatype Summary = Summary(data: seq<CategoryTotal<Option<string>>>, message: string)

  const ServerError := "Internal server error. Please try again later."

  /** The summary handler as written: past the format check it calls
      `aggregate` on `ExpenseModel`, a name the file never declares (its
      import binds `ExpenseModal`), so the call throws a ReferenceError and
      the catch block answers 500 for every well-formed month. */
  function SummaryAsWritten(month: string): Reply<Summary> {
    if !IsMonthToken(month) then Fail(400, InvalidMonth)
    else Fail(500, ServerError)
  }

  /** No request to the summary as written ever succeeds. */
  lemma SummaryAsWrittenNeverSucceeds(month: string)
    ensures SummaryAsWritten(month).Fail?
    ensures SummaryAsWritten(month).status == if IsMonthToken(month) then 500 else 400
    ensures IsMonthToken(month) ==> SummaryAsWritten(month) == Fail(500, ServerError)
  {
  }

  predicate DatedIn(d: Doc<Record>, r: Range) {
    d.value.date.Some? && r.lo <= Instant(d.value.date.value) < r.hi
  }

  /** The `$match` stage on the date range. */
  function DatedWithin(docs: seq<Doc<Record>>, range: Range): seq<Doc<Record>> {
    Filter((d: Doc<Record>) => DatedIn(d, range), docs)
  }

  predicate DatedInMonth(d: Doc<Record>, y: int, m: int) {
    d.value.date.Some? && d.value.date.value.year == y && d.value.date.value.month == m
  }

  /** `$group` inputs: a missing amount adds nothing to `$sum`. */
  function LegacyItems(docs: seq<Doc<Record>>): (r: seq<Item<Option<string>>>)
    ensures |r| == |docs|
    ensures forall i :: 0 <= i < |docs| ==>
      r[i] == Item(docs[i].value.category, if docs[i].value.amount.Some? then docs[i].value.amount.value else 0)
  {
    seq(|docs|, i requires 0 <= i < |docs| =>
      Item(docs[i].value.category, if docs[i].value.amount.Some? then docs[i].value.amount.value else 0))
  }

  /** The summary with the model the file imports: the match stage keeps
      dated records in the month's range (an Invalid Date bound, for month
      00 or 13-99, is sent as instant 0 and keeps none), then group, sum and
      order by total. */
  function SummaryIntended(docs: seq<Doc<Record>>, month: string): Reply<Summary> {
    if !IsMonthToken(month) then Fail(400, InvalidMonth)
    else
      var range := if 1 <= TokenMonth(month) <= 12 then MonthRange(TokenYear(month), TokenMonth(month)) else Range(0, 0);
      var s := Summarize(LegacyItems(DatedWithin(docs, range)));
      Ok(200, Summary(s, if |s| > 0 then "Expense summary fetched successfully." else "No expenses found for the given month."))
  }

  /** The month's range keeps the records dated in that calendar month. */
  lemma {:induction false} LegacyMonthIsCalendarMonth(docs: seq<Doc<Record>>, y: int, m: int)
    requires 1 <= m <= 12
    ensures DatedWithin(docs, MonthRange(y, m)) == Filter((d: Doc<Record>) => DatedInMonth(d, y, m), docs)
  {
    forall i | 0 <= i < |docs|
      ensures DatedIn(docs[i], MonthRange(y, m)) == DatedInMonth(docs[i], y, m)
    {
      if docs[i].value.date.Some? {
        InMonthIff(docs[i].value.date.value, y, m);
      }
    }
    FilterAgree((d: Doc<Record>) => DatedIn(d, MonthRange(y, m)),
                (d: Doc<Record>) => DatedInMonth(d, y, m), docs);
  }

  /** The intended summary answers every well-formed month with 200: one
      entry per category key among the month's records with its sum, in
      non-increasing order of total, totals adding up to the month's
      amount; the "No expenses" message exactly when the month has no
      record. Month 00 and 13-99 give an empty summary. */
  lemma SummaryIntendedCorrect(docs: seq<Doc<Record>>, month: string)
    ensures !IsMonthToken(month) <==> SummaryIntended(docs, month) == Fail(400, InvalidMonth)
    ensures IsMonthToken(month) && !(1 <= TokenMonth(month) <= 12) ==>
      SummaryIntended(docs, month) == Ok(200, Summary([], "No expenses found for the given month."))
    ensures IsMonthToken(month) && 1 <= TokenMonth(month) <= 12 ==>
      var inMonth := Filter((d: Doc<Record>) => DatedInMonth(d, TokenYear(month), TokenMonth(month)), docs);
      var items := LegacyItems(inMonth);
      var r := SummaryIntended(docs, month);
      && r.Ok? && r.status == 200
      && (forall e :: e in r.data.data ==> e.category in Categories(items) && e.total == SumCat(items, e.category))
      && (forall c :: c in Categories(items) ==> CategoryTotal(c, SumCat(items, c)) in r.data.data)
      && (forall i, j :: 0 <= i < j < |r.data.data| ==> r.data.data[i].category != r.data.data[j].category)
      && SortedDesc(TotalOf, r.data.data)
      && SumBy(TotalOf, r.data.data) == Total(items)
      && (r.data.message == "No expenses found for the given month." <==> inMonth == [])
  {
    if IsMonthToken(month) {
      if 1 <= TokenMonth(month) <= 12 {
        var y, m := TokenYear(month), TokenMonth(month);
        LegacyMonthIsCalendarMonth(docs, y, m);
        var inMonth := Filter((d: Doc<Record>) => DatedInMonth(d, y, m), docs);
        var items := LegacyItems(inMonth);
        SummarizeCorrect(items);
        if inMonth != [] {
          assert Categories(items)[0] in Categories(items);
          assert Categories(items)[0] in Distinct(Categories(items));
        }
      } else {
        FilterDropsAll((d: Doc<Record>) => DatedIn(d, Range(0, 0)), docs);
        assert DatedWithin(docs, Range(0, 0)) == [];
        assert LegacyItems([]) == [];
      }
    }
  }

  /** For every store and every well-formed month the code as written
      answers 500 where the intended handler answers 200. */
  lemma SummaryDiscrepancy(docs: seq<Doc<Record>>, month: string)
    requires IsMonthToken(month)
    ensures SummaryAsWritten(month).status == 500
    ensures SummaryIntended(docs, month).Ok? && SummaryIntended(docs, month).status == 200
  {
  }

  /** The records held by the store, ids allocated from a counter. */
  class LegacyStore {
    var docs: map<Id, Record>
    var nextId: Id

    ghost predicate Valid()
      reads this
    {
      forall id :: id in docs ==> id < nextId
    }

    constructor ()
      ensures Valid() && docs == map[] && nextId == 0
    {
      docs := map[];
      nextId := 0;
    }

    function Records(): seq<Doc<Record>>
      reads this
    {
      InIdOrder(docs, nextId)
    }

    /** getAllExpence: every stored record, no filter, no paging. */
    method GetAllExpence() returns (r: Reply<seq<Doc<Record>>>)
      requires Valid()
      ensures r.Ok? && r.status == 200
      ensures forall id :: id in docs ==> Doc(id, docs[id]) in r.data
      ensures forall d :: d in r.data ==> d.id in docs && docs[d.id] == d.value
      ensures forall i, j :: 0 <= i < j < |r.data| ==> r.data[i].id < r.data[j].id
    {
      var all := Records();
      InIdOrderSpec(docs, nextId);
      r := Ok(200, all);
    }

    /** getExpenceById: a missing id answers 400, not 404. */
    method GetExpenceById(id: Id) returns (r: Reply<Doc<Record>>)
      ensures id in docs ==> r == Ok(200, Doc(id, docs[id]))
      ensures id !in docs ==> r == Fail(400, "Expense not found")
    {
      if id !in docs {
        return Fail(400, "Expense not found");
      }
      r := Ok(200, Doc(id, docs[id]));
    }

    /** addExpence: the body is stored as sent; a save failure answers 400. */
    method AddExpence(body: Input) returns (r: Reply<Doc<Record>>)
      requires Valid()
      modifies this
      ensures Valid()
      ensures Build(body).Failure? ==>
        r == Fail(400, Build(body).message) && docs == old(docs) && nextId == old(nextId)
      ensures Build(body).Success? ==>
        && r == Ok(201, Doc(old(nextId), Build(body).value))
        && docs == old(docs)[old(nextId) := Build(body).value]
        && nextId == old(nextId) + 1
        && Records() == old(Records()) + [Doc(old(nextId), Build(body).value)]
    {
      var record := Build(body);
      if record.Failure? {
        return Fail(400, record.message);
      }
      var id := nextId;
      InIdOrderAdd(docs, id, record.value);
      docs := docs[id := record.value];
      nextId := nextId + 1;
      r := Ok(201, Doc(id, record.value));
    }

    /** updateExpence: a cast failure answers 500 and a missing id 404,
        both changing nothing; otherwise the patched record is stored under
        the same id and returned. */
    method UpdateExpence(id: Id, body: Input) returns (r: Reply<Doc<Record>>)
      requires Valid()
      modifies this
      ensures Valid() && nextId == old(nextId)
      ensures UpdateCastError(body).Some? ==> r == Fail(500, UpdateCastError(body).value) && docs == old(docs)
      ensures UpdateCastError(body).None? && id !in old(docs) ==> r == Fail(404, "Expense not updated") && docs == old(docs)
      ensures UpdateCastError(body).None? && id in old(docs) ==>
        && r == Ok(200, Doc(id, Patch(old(docs)[id], body)))
        && docs == old(docs)[id := Patch(old(docs)[id], body)]
        && |Records()| == |old(Records())|
        && (forall i :: 0 <= i < |Records()| ==>
              Records()[i] == if old(Records())[i].id == id then r.data else old(Records())[i])
    {
      var failure := UpdateCastError(body);
      if failure.Some? {
        return Fail(500, failure.value);
      }
      if id !in docs {
        return Fail(404, "Expense not updated");
      }
      var updated := Patch(docs[id], body);
      InIdOrderReplace(docs, nextId, id, updated);
      docs := docs[id := updated];
      r := Ok(200, Doc(id, updated));
    }

    /** deleteExpence: a missing id answers 404 and changes nothing. */
    method DeleteExpence(id: Id) returns (r: Reply<string>)
      requires Valid()
      modifies this
      ensures Valid() && nextId == old(nextId)
      ensures id !in old(docs) ==> r == Fail(404, "Expense not deleted") && docs == old(docs)
      ensures id in old(docs) ==>
        && r == Ok(200, "Expense deleted successfully")
        && docs == old(docs) - {id}
        && Records() == Filter((d: Doc<Record>) => d.id != id, old(Records()))
    {
      if id !in docs {
        return Fail(404, "Expense not deleted");
      }
      InIdOrderRemove(docs, nextId, id);
      docs := docs - {id};
      r := Ok(200, "Expense deleted successfully");
    }

    /** getExpenseSummary with the aggregation run on the imported model:
        the format check, the month range, then group-and-sum. */
    method GetExpenseSummary(month: string) returns (r: Reply<Summary>)
      ensures r == SummaryIntended(Records(), month)
    {
      if !IsMonthToken(month) {
        return Fail(400, InvalidMonth);
      }
      var start := MonthStartOf(month);
      var range := Range(0, 0);
      if start.Some? {
        var next := AddMonth(start.value.0, start.value.1);
        range := Range(MonthStart(start.value.0, start.value.1), MonthStart(next.0, next.1));
        assert range == MonthRange(TokenYear(month), TokenMonth(month));
      }
      var summary := Summarize(LegacyItems(DatedWithin(Records(), range)));
      var message := if |summary| > 0 then "Expense summary fetched successfully." else "No expenses found for the given month.";
      r := Ok(200, Summary(summary, message));
    }
  }
}
