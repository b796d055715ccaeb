/**
 * The BookInstance document (models/bookinstance.js): one physical copy of
 * a book, its status enum and defaults, and the `url`, `overdue` and
 * formatted-date virtuals.
 */
module BookInstanceModel {
  import opened Library

  /** The values the schema's `status` enum admits. */
  const Statuses: seq<string> := ["Available", "Maintenance", "Loaned", "Reserved"]

  const DefaultStatus: string := "Maintenance"

  /**
   * A stored copy. `status` is a string because the update path writes the
   * submitted value without running the schema's enum validator;
   * `dueBack` is None when the stored date is null.
   */
  datatype BookInstance = BookInstance(
    book: Id,
    imprint: string,
    status: string,
    dueBack: Option<Time>,
    borrower: Option<Id>)

  /**
   * `new BookInstance({...})`: the defaults apply to paths left undefined
   * (None). The `due_back` default is `Date.now()` evaluated once, when the
   * schema is defined, so it is the fixed instant `schemaLoadTime` rather
   * than the time of creation.
   */
  function NewInstance(book: Id, imprint: string, status: Option<string>,
                       dueBack: Option<Option<Time>>, borrower: Option<Id>,
                       schemaLoadTime: Time): (r: BookInstance)
    ensures r.book == book && r.imprint == imprint && r.borrower == borrower
    ensures status.None? ==> r.status == DefaultStatus
    ensures status.Some? ==> r.status == status.value
    ensures dueBack.None? ==> r.dueBack == Some(schemaLoadTime)
    ensures dueBack.Some? ==> r.dueBack == dueBack.value
  {
    BookInstance(book, imprint,
                 if status.None? then DefaultStatus else status.value,
                 if dueBack.None? then Some(schemaLoadTime) else dueBack.value,
                 borrower)
  }

  /** Every copy created without a due date gets the same one, whenever it is created. */
  lemma DefaultDueBackIsShared(b1: Id, i1: string, s1: Option<string>, w1: Option<Id>,
                               b2: Id, i2: string, s2: Option<string>, w2: Option<Id>,
                               schemaLoadTime: Time)
    ensures NewInstance(b1, i1, s1, None, w1, schemaLoadTime).dueBack
         == NewInstance(b2, i2, s2, None, w2, schemaLoadTime).dueBack
         == Some(schemaLoadTime)
  {
  }

  /** Save-time validation: `book`, `imprint` and `status` are required and `status` is in the enum. */
  predicate SchemaAccepts(inst: BookInstance)
    ensures SchemaAccepts(inst) ==>
      inst.status == "Available" || inst.status == "Maintenance" || inst.status == "Loaned" || inst.status == "Reserved"
    ensures inst.book != "" && inst.imprint != "" && inst.status == DefaultStatus ==> SchemaAccepts(inst)
  {
    inst.book != "" && inst.imprint != "" && inst.status in Statuses
  }

  const UrlPrefix: string := "/catalog/bookinstance/"

  /** The `url` virtual: the prefix followed by the document id. */
  function Url(id: Id): (r: string)
    ensures UrlPrefix <= r && r[|UrlPrefix|..] == id
  {
    UrlPrefix + id
  }

  /** The number `this.due_back` converts to in a comparison: a null date is 0. */
  function DueBackMillis(inst: BookInstance): (r: Time)
    ensures inst.dueBack.Some? ==> r == inst.dueBack.value
    ensures inst.dueBack.None? ==> r == 0
  {
    match inst.dueBack
    case Some(t) => t
    case None => 0
  }

  /**
   * The `overdue` virtual: `this.due_back < new Date()`. It is computed from
   * the record and the current time on every read; the record has no such
   * field.
   */
  function Overdue(inst: BookInstance, now: Time): (r: bool)
    ensures inst.dueBack.Some? ==> (r <==> inst.dueBack.value < now)
    ensures inst.dueBack.None? ==> (r <==> 0 < now)
  {
    DueBackMillis(inst) < now
  }

  /** Once a copy is overdue it stays overdue as time goes on. */
  lemma OverdueStaysOverdue(inst: BookInstance, now: Time, later: Time)
    requires now <= later
    ensures Overdue(inst, now) ==> Overdue(inst, later)
  {
  }

  /** A copy due exactly now, or later, is not overdue. */
  lemma NotOverdueUntilDue(inst: BookInstance, now: Time)
    requires inst.dueBack.Some? && now <= inst.dueBack.value
    ensures !Overdue(inst, now)
  {
  }

  /** The `due_back_formatted` virtual (MM/DD/YYYY); moment prints a null date as "Invalid date". */
  function DueBackFormatted(lib: Primitives, inst: BookInstance): (r: string)
    ensures inst.dueBack.Some? ==> r == lib.format(inst.dueBack.value, "MM/DD/YYYY")
    ensures inst.dueBack.None? ==> r == "Invalid date"
  {
    match inst.dueBack
    case Some(t) => lib.format(t, "MM/DD/YYYY")
    case None => "Invalid date"
  }

  /** The `due_back_form` virtual (YYYY-MM-DD). */
  function DueBackForForm(lib: Primitives, inst: BookInstance): (r: string)
    ensures inst.dueBack.Some? ==> r == lib.format(inst.dueBack.value, "YYYY-MM-DD")
    ensures inst.dueBack.None? ==> r == "Invalid date"
  {
    match inst.dueBack
    case Some(t) => lib.format(t, "YYYY-MM-DD")
    case None => "Invalid date"
  }
}
