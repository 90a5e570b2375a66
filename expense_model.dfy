/** The Expense document schema: field types, `required`, `min: 0` on the
    amount and the `trim` setters on the two text fields. */
module ExpenseModel {
  import opened Common
  import opened Text
  import opened Calendar

  /** A stored expense. Amounts are integers (cents). */
  datatype Expense = Expense(amount: int, category: string, date: Date, description: Option<string>)

  /** The fields handed to the model constructor, before casting. */
  datatype Input = Input(amount: Field<int>, category: Field<string>, date: Field<Date>, description: Field<string>)

  /** One failed validator: the field path and its message. */
  datatype Violation = Violation(path: string, reason: string)

  /** What a document that passed validation looks like once stored:
      amount at least zero, category present and non-empty after trimming,
      text fields stored trimmed. */
  predicate Conforms(e: Expense) {
    && e.amount >= 0
    && e.category != ""
    && Trim(e.category) == e.category
    && (e.description.Some? ==> Trim(e.description.value) == e.description.value)
  }

  function AmountViolations(f: Field<int>): seq<Violation> {
    match f
    case Junk => [Violation("amount", "Cast to Number failed")]
    case Absent => [Violation("amount", "Amount is required")]
    case Given(v) => if v < 0 then [Violation("amount", "Amount cannot be negative")] else []
  }

  /** `required` on a String fails for the empty string, and the setter has
      already trimmed the value. */
  function CategoryViolations(f: Field<string>): seq<Violation> {
    match f
    case Junk => [Violation("category", "Cast to string failed")]
    case Absent => [Violation("category", "Category is required")]
    case Given(s) => if Trim(s) == "" then [Violation("category", "Category is required")] else []
  }

  function DateViolations(f: Field<Date>): seq<Violation> {
    match f
    case Junk => [Violation("date", "Cast to date failed")]
    case Absent => [Violation("date", "Date is required")]
    case Given(_) => []
  }

  function DescriptionViolations(f: Field<string>): seq<Violation> {
    if f.Junk? then [Violation("description", "Cast to string failed")] else []
  }

  /** Every failed validator, in schema path order. */
  function Violations(i: Input): seq<Violation> {
    AmountViolations(i.amount) + CategoryViolations(i.category)
      + DateViolations(i.date) + DescriptionViolations(i.description)
  }

  function JoinViolations(vs: seq<Violation>): string {
    if vs == [] then ""
    else if |vs| == 1 then Named(vs[0])
    else Named(vs[0]) + ", " + JoinViolations(vs[1..])
  }

  function Named(v: Violation): string {
    v.path + ": " + v.reason
  }

  /** Every violation appears, as `path: reason`, in the joined list. */
  lemma {:induction false} JoinNamesEach(vs: seq<Violation>, n: nat)
    requires n < |vs|
    ensures Occurs(Named(vs[n]), JoinViolations(vs))
  {
    var head := Named(vs[0]);
    if |vs| == 1 {
      OccursSelf(head);
    } else if n == 0 {
      OccursSelf(head);
      OccursBefore(head, head, ", " + JoinViolations(vs[1..]));
      assert head + (", " + JoinViolations(vs[1..])) == JoinViolations(vs);
    } else {
      JoinNamesEach(vs[1..], n - 1);
      OccursAfter(Named(vs[n]), head + ", ", JoinViolations(vs[1..]));
      assert head + ", " + JoinViolations(vs[1..]) == JoinViolations(vs);
    }
  }

  /** The `trim: true` setter, applied when a value is assigned. */
  function TrimmedText(f: Field<string>): Option<string> {
    if f.Given? then Some(Trim(f.value)) else None
  }

  /** `new ExpenseModel(fields)` followed by `save()`: the document, or the
      ValidationError message listing every failed validator. */
  function Construct(i: Input): (r: Result<Expense>)
    ensures r.Success? <==> Violations(i) == []
  {
    if Violations(i) != [] then Failure("Expense validation failed: " + JoinViolations(Violations(i)))
    else Success(Expense(i.amount.value, Trim(i.category.value), i.date.value, TrimmedText(i.description)))
  }

  /** A document passes validation exactly when the amount is a number at
      least zero, the category is a string that is not blank, the date is a
      date and the description, if any, is a string. Zero is allowed. */
  lemma ConstructAcceptsIff(i: Input)
    ensures Construct(i).Success? <==>
      && i.amount.Given? && i.amount.value >= 0
      && i.category.Given? && Trim(i.category.value) != ""
      && i.date.Given?
      && !i.description.Junk?
  {
  }

  /** What is saved carries the given amount and date and the trimmed text
      fields, and satisfies the schema. */
  lemma ConstructStores(i: Input)
    requires Construct(i).Success?
    ensures Construct(i).value.amount == i.amount.value
    ensures Construct(i).value.category == Trim(i.category.value)
    ensures Construct(i).value.date == i.date.value
    ensures Construct(i).value.description == TrimmedText(i.description)
    ensures Conforms(Construct(i).value)
  {
    ConstructAcceptsIff(i);
    assert Construct(i).value == Expense(i.amount.value, Trim(i.category.value), i.date.value, TrimmedText(i.description));
    TrimIdempotent(i.category.value);
    if i.description.Given? {
      TrimIdempotent(i.description.value);
    }
  }

  /** The CastError an update query raises for the first field of the body,
      in schema order, whose value has the wrong type, if any. */
  function UpdateCastError(b: Input): Option<string> {
    if b.amount.Junk? then Some("Cast to Number failed at path \"amount\"")
    else if b.category.Junk? then Some("Cast to string failed at path \"category\"")
    else if b.date.Junk? then Some("Cast to date failed at path \"date\"")
    else if b.description.Junk? then Some("Cast to string failed at path \"description\"")
    else None
  }

  /** A rejected document's error message is the validation-failed prefix
      followed by every failed validator, each as `path: reason`. */
  lemma ConstructReportsViolations(i: Input, n: nat)
    requires n < |Violations(i)|
    ensures Construct(i).Failure?
    ensures |Construct(i).message| >= 27 && Construct(i).message[..27] == "Expense validation failed: "
    ensures Occurs(Named(Violations(i)[n]), Construct(i).message)
  {
    var tail := JoinViolations(Violations(i));
    JoinNamesEach(Violations(i), n);
    OccursAfter(Named(Violations(i)[n]), "Expense validation failed: ", tail);
  }

  /** The fields of a stored document, as a body that sends them back. */
  function InputOf(e: Expense): Input {
    Input(Given(e.amount), Given(e.category), Given(e.date),
      if e.description.Some? then Given(e.description.value) else Absent)
  }

  /** Saving the fields of a saved document gives back that document: the
      stored category is non-blank and already trimmed, so the validators
      and the trim setters leave it as it is. */
  lemma ResaveIsStable(i: Input)
    requires Construct(i).Success?
    ensures Trim(Construct(i).value.category) != ""
    ensures Construct(InputOf(Construct(i).value)) == Construct(i)
  {
    var e := Construct(i).value;
    ConstructStores(i);
    TrimIdempotent(e.category);
    ConstructAcceptsIff(InputOf(e));
    if e.description.Some? {
      TrimIdempotent(e.description.value);
    }
  }

}
