/** The Expense controller's handlers over a document collection: create
    with the controller's own checks before schema validation, the paged
    listing, lookup, update, delete, the monthly summary and the export. */
module ExpenseController {
  import opened Common
  import opened Seqs
  import opened Text
  import opened Calendar
  import opened Grouping
  import opened Collection
  import opened ExpenseModel
  import opened ExpenseQuery

  // Creating an expense

  /** The handler's checks, in order: amount (`!amount || amount < 0`, so
      zero fails too), category (`!category`), date (missing or not a
      date). A value the schema cannot cast passes the first two. */
  function ControllerCheck(b: Input): Option<string> {
    if b.amount.Absent? || (b.amount.Given? && b.amount.value <= 0) then Some("Invalid amount")
    else if b.category.Absent? || b.category == Given("") then Some("Category is required")
    else if !b.date.Given? then Some("Invalid date")
    else None
  }

  /** What addExpense answers for a body: 400 from its own checks, 500 when
      the schema rejects the document, else 201 and the saved fields. */
  function AddOutcome(b: Input): Reply<Expense> {
    match ControllerCheck(b)
    case Some(message) => Fail(400, message)
    case None =>
      match Construct(b)
      case Failure(message) => Fail(500, message)
      case Success(e) => Ok(201, e)
  }

  predicate AmountOk(b: Input) { b.amount.Junk? || (b.amount.Given? && b.amount.value > 0) }

  predicate CategoryOk(b: Input) { b.category.Junk? || (b.category.Given? && b.category.value != "") }

  /** Each 400 answer, with the first failed check deciding the message. */
  lemma AddRejections(b: Input)
    ensures !AmountOk(b) <==> AddOutcome(b) == Fail(400, "Invalid amount")
    ensures AmountOk(b) && !CategoryOk(b) <==> AddOutcome(b) == Fail(400, "Category is required")
    ensures AmountOk(b) && CategoryOk(b) && !b.date.Given? <==> AddOutcome(b) == Fail(400, "Invalid date")
    ensures AddOutcome(b).Fail? && AddOutcome(b).status == 400 <==> ControllerCheck(b).Some?
  {
  }

  /** A body is saved exactly when its amount is a positive number, its
      category a string that is not blank, its date a date and its
      description absent or a string; the saved document carries those
      values, trimmed, and meets the schema. */
  lemma {:induction false} AddAcceptsIff(b: Input)
    ensures AddOutcome(b).Ok? <==>
      && b.amount.Given? && b.amount.value > 0
      && b.category.Given? && Trim(b.category.value) != ""
      && b.date.Given?
      && !b.description.Junk?
    ensures AddOutcome(b).Ok? ==>
      && AddOutcome(b).status == 201
      && AddOutcome(b).data == Expense(b.amount.value, Trim(b.category.value), b.date.value, TrimmedText(b.description))
      && Conforms(AddOutcome(b).data)
  {
    if b.category.Given? && b.category.value == "" {
      TrimEmptyIff(b.category.value);
    }
    if AddOutcome(b).Ok? {
      ConstructStores(b);
    }
  }

  /** A category of blanks passes the handler's check but is trimmed to
      nothing by the schema, so the answer is the save's 500, whose message
      names the category's required validator, not 400. */
  lemma BlankCategoryIsServerError(b: Input)
    requires b.amount.Given? && b.amount.value > 0 && b.date.Given?
    requires b.category.Given? && b.category.value != "" && Trim(b.category.value) == ""
    ensures ControllerCheck(b).None?
    ensures Construct(b).Failure? && AddOutcome(b) == Fail(500, Construct(b).message)
    ensures Occurs(Named(Violation("category", "Category is required")), AddOutcome(b).message)
  {
    assert Violations(b)[0] == Violation("category", "Category is required");
    ConstructReportsViolations(b, 0);
  }

  /** An amount of zero is turned away by the handler whatever the other
      fields hold, although the schema allows it: with the other fields
      valid, the document itself would save. */
  lemma ZeroAmountRejectedByHandlerOnly(b: Input)
    requires b.amount == Given(0)
    ensures AddOutcome(b) == Fail(400, "Invalid amount")
    ensures b.category.Given? && Trim(b.category.value) != "" && b.date.Given? && !b.description.Junk? ==>
      Construct(b).Success?
  {
    ConstructAcceptsIff(b);
  }


  // Updating an expense

  /** `findByIdAndUpdate(id, body)` without validators: each key present in
      the body replaces that field, text run through the trim setter; the
      other fields stay. */
  function ApplyPatch(e: Expense, b: Input): Expense {
    Expense(
      if b.amount.Given? then b.amount.value else e.amount,
      if b.category.Given? then Trim(b.category.value) else e.category,
      if b.date.Given? then b.date.value else e.date,
      if b.description.Given? then Some(Trim(b.description.value)) else e.description)
  }

  /** Fields the body leaves out are kept; the body's own fields are
      stored; and sending the same body again changes nothing more. */
  lemma {:induction false} ApplyPatchProperties(e: Expense, b: Input)
    ensures b.amount.Given? ==> ApplyPatch(e, b).amount == b.amount.value
    ensures !b.amount.Given? ==> ApplyPatch(e, b).amount == e.amount
    ensures b.category.Given? ==> ApplyPatch(e, b).category == Trim(b.category.value)
    ensures !b.category.Given? ==> ApplyPatch(e, b).category == e.category
    ensures b.date.Given? ==> ApplyPatch(e, b).date == b.date.value
    ensures !b.date.Given? ==> ApplyPatch(e, b).date == e.date
    ensures b.description.Given? ==> ApplyPatch(e, b).description == Some(Trim(b.description.value))
    ensures !b.description.Given? ==> ApplyPatch(e, b).description == e.description
    ensures ApplyPatch(ApplyPatch(e, b), b) == ApplyPatch(e, b)
  {
    if b.category.Given? {
      TrimIdempotent(b.category.value);
    }
    if b.description.Given? {
      TrimIdempotent(b.description.value);
    }
  }

  /** Without validators an update can store what create would refuse. */
  lemma UpdateCanBreakSchema(e: Expense)
    requires Conforms(e)
    ensures var b := Input(Given(-1), Given(""), Absent, Absent);
      UpdateCastError(b).None? && !Conforms(ApplyPatch(e, b))
  {
  }

  /** The documents held by the store. Ids are allocated from a counter, so
      every stored id is below it and the listing is in insertion order. */
  class ExpenseStore {
    var docs: map<Id, Expense>
    var nextId: Id

    ghost predicate Valid()
      reads this
    {
      forall id :: id in docs ==> id < nextId
    }

    /** Every stored document meets the schema. */
    ghost predicate AllConform()
      reads this
    {
      forall id :: id in docs ==> Conforms(docs[id])
    }

    constructor ()
      ensures Valid() && AllConform()
      ensures docs == map[] && nextId == 0
    {
      docs := map[];
      nextId := 0;
    }

    /** The collection as an unsorted `find` returns it. */
    function Records(): seq<Doc<Expense>>
      reads this
    {
      InIdOrder(docs, nextId)
    }

    /** addExpense: a rejected body stores nothing; an accepted one is
        stored under a fresh id and appended to the listing. */
    method AddExpense(body: Input) returns (r: Reply<Doc<Expense>>)
      requires Valid()
      modifies this
      ensures Valid()
      ensures old(AllConform()) ==> AllConform()
      ensures AddOutcome(body).Fail? ==>
        && r == Fail(AddOutcome(body).status, AddOutcome(body).message)
        && docs == old(docs) && nextId == old(nextId)
      ensures AddOutcome(body).Ok? ==>
        && r == Ok(201, Doc(old(nextId), AddOutcome(body).data))
        && docs == old(docs)[old(nextId) := AddOutcome(body).data]
        && nextId == old(nextId) + 1
        && Records() == old(Records()) + [Doc(old(nextId), AddOutcome(body).data)]
    {
      if body.amount.Absent? || (body.amount.Given? && body.amount.value <= 0) {
        return Fail(400, "Invalid amount");
      }
      if body.category.Absent? || body.category == Given("") {
        return Fail(400, "Category is required");
      }
      if !body.date.Given? {
        return Fail(400, "Invalid date");
      }
      assert ControllerCheck(body).None?;
      var built := Construct(body);
      if built.Failure? {
        return Fail(500, built.message);
      }
      ConstructStores(body);
      var id := nextId;
      InIdOrderAdd(docs, id, built.value);
      docs := docs[id := built.value];
      nextId := nextId + 1;
      r := Ok(201, Doc(id, built.value));
    }

    /** getAllExpenses: the query is built step by step, then sorted,
        skipped and limited; absent page and limit default to 1 and 10. */
    method GetAllExpenses(month: string, page: Option<int>, limit: Option<int>) returns (r: Reply<Listing>)
      requires page.Some? ==> page.value >= 1
      requires limit.Some? ==> limit.value >= 1
      ensures r == ListReply(Records(), month, if page.Some? then page.value else 1, if limit.Some? then limit.value else 10)
    {
      var p := if page.Some? then page.value else 1;
      var l := if limit.Some? then limit.value else 10;
      var skip := Skip(p, l);
      var query := Everything;
      if month != "" {
        var start := MonthStartOf(month);
        if start.None? {
          return Fail(500, DateCastFailure);
        }
        var next := AddMonth(start.value.0, start.value.1);
        query := Between(Range(MonthStart(start.value.0, start.value.1), MonthStart(next.0, next.1)));
      }
      var found := Find(Records(), query);
      var expenses := Slice(SortDesc(DateKey, found), skip, l);
      r := Ok(200, Listing(expenses, TotalPages(|found|, l), p));
    }

    /** getExpenseById: the stored document, or 404. */
    method GetExpenseById(id: Id) returns (r: Reply<Doc<Expense>>)
      ensures id in docs ==> r == Ok(200, Doc(id, docs[id]))
      ensures id !in docs ==> r == Fail(404, "Expense not found")
    {
      if id !in docs {
        return Fail(404, "Expense not found");
      }
      r := Ok(200, Doc(id, docs[id]));
    }

    /** updateExpense: a body with a value of the wrong type fails with 500
        and an absent id with 404, both changing nothing; otherwise the
        patched document replaces the old one in place, under the same id,
        and is returned. */
    method UpdateExpense(id: Id, body: Input) returns (r: Reply<Doc<Expense>>)
      requires Valid()
      modifies this
      ensures Valid() && nextId == old(nextId)
      ensures UpdateCastError(body).Some? ==>
        r == Fail(500, UpdateCastError(body).value) && docs == old(docs)
      ensures UpdateCastError(body).None? && id !in old(docs) ==>
        r == Fail(404, "Expense not updated") && docs == old(docs)
      ensures UpdateCastError(body).None? && id in old(docs) ==>
        && r == Ok(200, Doc(id, ApplyPatch(old(docs)[id], body)))
        && docs == old(docs)[id := ApplyPatch(old(docs)[id], body)]
        && |Records()| == |old(Records())|
        && (forall i :: 0 <= i < |Records()| ==>
              Records()[i] == if old(Records())[i].id == id then r.data else old(Records())[i])
    {
      var castError := UpdateCastError(body);
      if castError.Some? {
        return Fail(500, castError.value);
      }
      if id !in docs {
        return Fail(404, "Expense not updated");
      }
      var updated := ApplyPatch(docs[id], body);
      InIdOrderReplace(docs, nextId, id, updated);
      docs := docs[id := updated];
      r := Ok(200, Doc(id, updated));
    }

    /** deleteExpense: an absent id answers 404 and changes nothing; a
        present one is removed, and the listing loses that document only. */
    method DeleteExpense(id: Id) returns (r: Reply<string>)
      requires Valid()
      modifies this
      ensures Valid() && nextId == old(nextId)
      ensures id !in old(docs) ==> r == Fail(404, "Expense not deleted") && docs == old(docs)
      ensures id in old(docs) ==>
        && r == Ok(200, "Expense deleted successfully")
        && docs == old(docs) - {id}
        && Records() == Filter((d: Doc<Expense>) => d.id != id, old(Records()))
    {
      if id !in docs {
        return Fail(404, "Expense not deleted");
      }
      InIdOrderRemove(docs, nextId, id);
      docs := docs - {id};
      r := Ok(200, "Expense deleted successfully");
    }

    /** getExpenseSummary: the format check, then the month range computed
        as the handler does, then group-and-sum over the matches. */
    method GetExpenseSummary(month: string) returns (r: Reply<seq<CategoryTotal<string>>>)
      ensures r == SummaryReply(Records(), month)
    {
      if !IsMonthToken(month) {
        return Fail(400, InvalidMonth);
      }
      var start := MonthStartOf(month);
      var range := Range(0, 0);
      if start.Some? {
        var next := AddMonth(start.value.0, start.value.1);
        range := Range(MonthStart(start.value.0, start.value.1), MonthStart(next.0, next.1));
      }
      var matched := Find(Records(), Between(range));
      r := Ok(200, Summarize(ItemsOf(matched)));
    }

    /** exportExpenses: the matches of the month, or 404 when there are
        none. */
    method ExportExpenses(month: string) returns (r: Reply<seq<Doc<Expense>>>)
      ensures r == ExportReply(Records(), month)
    {
      if !IsMonthToken(month) {
        return Fail(400, InvalidMonth);
      }
      var start := MonthStartOf(month);
      if start.None? {
        return Fail(500, DateCastFailure);
      }
      var next := AddMonth(start.value.0, start.value.1);
      var expenses := Find(Records(), Between(Range(MonthStart(start.value.0, start.value.1), MonthStart(next.0, next.1))));
      if |expenses| == 0 {
        return Fail(404, "No expenses found for this month.");
      }
      r := Ok(200, expenses);
    }
  }

  /** After a successful delete, looking the id up answers 404. */
  method DeleteThenGet(store: ExpenseStore, id: Id) returns (deleted: Reply<string>, found: Reply<Doc<Expense>>)
    requires store.Valid()
    modifies store
    ensures id in old(store.docs) ==> deleted.Ok?
    ensures found == Fail(404, "Expense not found")
  {
    deleted := store.DeleteExpense(id);
    found := store.GetExpenseById(id);
  }
}
