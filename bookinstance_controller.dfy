/**
 * controllers/bookinstanceController.js: the copy list's page count, the
 * detail page, create, unconditional delete, the update form's book
 * selection, and update under the route id with the status and borrower
 * rules.
 */
module BookInstanceController {
  import opened Library
  import opened Forms
  import opened CatalogStore
  import opened BookInstanceModel
  import UserModel

  const Tag: string := "local-library:bookinstance"
  const InstanceListUrl: string := "/catalog/bookinstances"

  const BookMsg: string := "Book must be specified"
  const CreateImprintMsg: string := "Imprint must be non-empty and with length under 100"
  const UpdateImprintMsg: string := "Imprint must be non-empty and no more than 100 long"
  const CreateDateMsg: string := "Invalid date"
  const UpdateDateMsg: string := "Invalid due back date"
  const IllegalStatusMsg: string := "Illegal status"
  const NoUserMsg: string := "Cannot find user"

  /**
   * The copy form as posted. `book` and `imprint` are text inputs; the
   * other three are None when the body does not carry them. The validators
   * see such a field as undefined; the sanitisers do not leave it so (see
   * `Written`).
   */
  datatype InstanceForm = InstanceForm(
    book: string,
    imprint: string,
    dueBack: Option<string>,
    status: Option<string>,
    borrower: Option<string>)

  /** `.optional({checkFalsy: true}).isISO8601()` on a field that may be absent. */
  predicate DueBackOk(lib: Primitives, v: Option<string>)
  {
    v.None? || OptionalIso(lib, v.value)
  }

  /** The rules of bookinstance_create_post, in the order they run; status is not checked. */
  function CreateErrors(lib: Primitives, f: InstanceForm): (r: seq<FieldError>)
    ensures |r| <= 3
    ensures forall e | e in r :: e.field == "book" || e.field == "imprint" || e.field == "due_back"
  {
    Check(LengthIn(Trim(f.book), 1, None), "book", BookMsg)
    + Check(LengthIn(Trim(f.imprint), 1, Some(100)), "imprint", CreateImprintMsg)
    + Check(DueBackOk(lib, f.dueBack), "due_back", CreateDateMsg)
  }

  /**
   * A create submission passes exactly when the book is not blank, the
   * trimmed imprint has 1 to 100 characters and the due date is absent,
   * empty or ISO-8601; whatever the status.
   */
  lemma CreateErrorsExplained(lib: Primitives, f: InstanceForm)
    ensures CreateErrors(lib, f) == [] <==>
      !AllSpace(f.book) && !AllSpace(f.imprint) && |Trim(f.imprint)| <= 100 && DueBackOk(lib, f.dueBack)
    ensures forall s :: CreateErrors(lib, f.(status := s)) == CreateErrors(lib, f)
  {
    TrimEmptyIffAllSpace(f.book);
    TrimEmptyIffAllSpace(f.imprint);
  }

  /** The status is one of the four the custom validator lets through. */
  predicate StatusLegal(status: Option<string>)
    ensures StatusLegal(status) <==>
      status.Some? && (status.value == "Maintenance" || status.value == "Loaned"
                       || status.value == "Available" || status.value == "Reserved")
  {
    status.Some? && status.value in Statuses
  }

  /**
   * The second status rule, run after the sanitizers: a copy marked
   * `Loaned` must name a borrower that `User.findById` finds.
   */
  predicate LoanUnresolved(lib: Primitives, users: seq<UserModel.User>, f: InstanceForm)
    ensures !LoanUnresolved(lib, users, f) && f.status.Some? && lib.escape(f.status.value) == "Loaned" ==>
      f.borrower.Some? && exists u | u in users :: u.id == lib.escape(f.borrower.value)
    ensures f.status.None? || lib.escape(f.status.value) != "Loaned" ==> !LoanUnresolved(lib, users, f)
  {
    f.status.Some? && lib.escape(f.status.value) == "Loaned"
    && (f.borrower.None? || UserModel.FindById(users, lib.escape(f.borrower.value)).None?)
  }

  /** The rules of bookinstance_update_post, in the order they run. */
  function UpdateErrors(lib: Primitives, users: seq<UserModel.User>, f: InstanceForm): (r: seq<FieldError>)
    ensures |r| <= 5
    ensures forall e | e in r :: e.field == "book" || e.field == "imprint" || e.field == "due_back" || e.field == "status"
  {
    Check(LengthIn(Trim(f.book), 1, None), "book", BookMsg)
    + Check(LengthIn(Trim(f.imprint), 1, Some(100)), "imprint", UpdateImprintMsg)
    + Check(DueBackOk(lib, f.dueBack), "due_back", UpdateDateMsg)
    + Check(StatusLegal(f.status), "status", IllegalStatusMsg)
    + Check(!LoanUnresolved(lib, users, f), "status", NoUserMsg)
  }

  /**
   * An update submission passes exactly when the create rules would pass,
   * the raw status is one of the four, and a loan names a known user.
   */
  lemma UpdateErrorsExplained(lib: Primitives, users: seq<UserModel.User>, f: InstanceForm)
    ensures UpdateErrors(lib, users, f) == [] <==>
      CreateErrors(lib, f) == [] && StatusLegal(f.status) && !LoanUnresolved(lib, users, f)
  {
    var c := Check(StatusLegal(f.status), "status", IllegalStatusMsg);
    var l := Check(!LoanUnresolved(lib, users, f), "status", NoUserMsg);
    var b := Check(LengthIn(Trim(f.book), 1, None), "book", BookMsg);
    var i1 := Check(LengthIn(Trim(f.imprint), 1, Some(100)), "imprint", CreateImprintMsg);
    var i2 := Check(LengthIn(Trim(f.imprint), 1, Some(100)), "imprint", UpdateImprintMsg);
    var d1 := Check(DueBackOk(lib, f.dueBack), "due_back", CreateDateMsg);
    var d2 := Check(DueBackOk(lib, f.dueBack), "due_back", UpdateDateMsg);
    assert |UpdateErrors(lib, users, f)| == |b| + |i2| + |d2| + |c| + |l|;
    assert |CreateErrors(lib, f)| == |b| + |i1| + |d1|;
  }

  /** The status rule reports `Illegal status` exactly for a missing or unknown raw status. */
  lemma IllegalStatusReported(lib: Primitives, users: seq<UserModel.User>, f: InstanceForm)
    ensures FieldError("status", IllegalStatusMsg) in UpdateErrors(lib, users, f) <==> !StatusLegal(f.status)
  {
    var e := FieldError("status", IllegalStatusMsg);
    var pre := Check(LengthIn(Trim(f.book), 1, None), "book", BookMsg)
      + Check(LengthIn(Trim(f.imprint), 1, Some(100)), "imprint", UpdateImprintMsg)
      + Check(DueBackOk(lib, f.dueBack), "due_back", UpdateDateMsg);
    assert e !in pre;
    assert e !in Check(!LoanUnresolved(lib, users, f), "status", NoUserMsg);
  }

  /**
   * The borrower rule reports `Cannot find user` exactly for a copy marked
   * `Loaned` whose borrower is absent or unknown; other statuses never look
   * a user up.
   */
  lemma LoanRuleReported(lib: Primitives, users: seq<UserModel.User>, f: InstanceForm)
    ensures FieldError("status", NoUserMsg) in UpdateErrors(lib, users, f) <==> LoanUnresolved(lib, users, f)
    ensures f.status.None? || lib.escape(f.status.value) != "Loaned" ==>
      forall us :: UpdateErrors(lib, us, f) == UpdateErrors(lib, users, f)
  {
    var e := FieldError("status", NoUserMsg);
    var pre := Check(LengthIn(Trim(f.book), 1, None), "book", BookMsg)
      + Check(LengthIn(Trim(f.imprint), 1, Some(100)), "imprint", UpdateImprintMsg)
      + Check(DueBackOk(lib, f.dueBack), "due_back", UpdateDateMsg)
      + Check(StatusLegal(f.status), "status", IllegalStatusMsg);
    assert e !in pre;
  }

  /**
   * The text a sanitiser works on. express-validator 6 hands each sanitiser
   * `toString(value)` and writes the result back to the body, and
   * `toString(undefined)` is "", so a field the body does not carry comes
   * out of `escape()` or `toDate()` as that sanitiser applied to "".
   */
  function Written(v: Option<string>): string
  {
    if v.Some? then v.value else ""
  }

  /**
   * The copy the create handler builds from the sanitised body: trimmed and
   * escaped text, the escaped status, the parsed date, no borrower. Every
   * path it sets is defined, so no schema default fills it in.
   */
  function CreateDraft(lib: Primitives, f: InstanceForm): (d: BookInstance)
    ensures d.book == lib.escape(Trim(f.book)) && d.imprint == lib.escape(Trim(f.imprint))
    ensures d.status == lib.escape(if f.status.Some? then f.status.value else "")
    ensures f.dueBack.None? || f.dueBack == Some("") ==> d.dueBack.None?
    ensures f.dueBack.Some? && f.dueBack.value != "" ==> d.dueBack == lib.toDate(f.dueBack.value)
    ensures d.borrower.None?
  {
    BookInstance(lib.escape(Trim(f.book)), lib.escape(Trim(f.imprint)), lib.escape(Written(f.status)),
                 SanitizeDate(lib, Written(f.dueBack)), None)
  }

  /**
   * The schema's defaults never apply to a created copy: it is the copy
   * `new BookInstance` builds with every path given, so a copy created
   * without a due date has none rather than the schema-load instant.
   */
  lemma CreateDraftSkipsDefaults(lib: Primitives, f: InstanceForm, schemaLoadTime: Time)
    ensures var d := CreateDraft(lib, f);
      d == NewInstance(d.book, d.imprint, Some(d.status), Some(d.dueBack), None, schemaLoadTime)
    ensures f.dueBack.None? ==> CreateDraft(lib, f).dueBack != Some(schemaLoadTime)
  {
  }

  /**
   * A create whose body carries no status is refused when the copy is
   * saved: the sanitiser writes the escaped "" over it, which is not in the
   * enum, so the "Maintenance" default is never used.
   */
  lemma CreateWithoutStatusRefused(lib: Primitives, f: InstanceForm)
    requires lib.escape("") == ""
    requires f.status.None?
    ensures !SchemaAccepts(CreateDraft(lib, f))
  {
  }

  /**
   * The update document the handler builds: as on create, plus the escaped
   * borrower id when the body carries one. A missing borrower is written
   * back as "", which does not cast to an ObjectId, so the document holds
   * no borrower path.
   */
  function UpdateDraft(lib: Primitives, f: InstanceForm): (d: BookInstance)
    ensures d.(borrower := None) == CreateDraft(lib, f)
    ensures d.borrower == if f.borrower.Some? then Some(lib.escape(f.borrower.value)) else None
  {
    CreateDraft(lib, f).(borrower := if f.borrower.Some? then Some(lib.escape(f.borrower.value)) else None)
  }

  /** validator's escape() leaves the four status words as they are: they hold no special character. */
  predicate EscapeKeepsStatuses(lib: Primitives)
  {
    forall k | 0 <= k < |Statuses| :: lib.escape(Statuses[k]) == Statuses[k]
  }

  /**
   * Create never checks the status: a submission that passes the rules
   * with an escaped status outside the enum is refused only by the schema
   * when the copy is saved.
   */
  lemma CreateStatusLeftToSchema(lib: Primitives, f: InstanceForm)
    requires f.status.Some? && lib.escape(f.status.value) !in Statuses
    ensures !SchemaAccepts(CreateDraft(lib, f))
  {
  }

  /**
   * What an accepted update writes: a status of the enum,
   * and, for a loan, a borrower id that resolves to a stored user.
   */
  lemma UpdateAcceptedWritesValidLoan(lib: Primitives, users: seq<UserModel.User>, f: InstanceForm)
    requires EscapeKeepsStatuses(lib)
    requires UpdateErrors(lib, users, f) == []
    ensures UpdateDraft(lib, f).status in Statuses
    ensures UpdateDraft(lib, f).status == "Loaned" ==>
      UpdateDraft(lib, f).borrower.Some?
      && UserModel.FindById(users, UpdateDraft(lib, f).borrower.value).Some?
  {
    UpdateErrorsExplained(lib, users, f);
    var s := f.status.value;
    assert s in Statuses;
    var k :| 0 <= k < |Statuses| && Statuses[k] == s;
    assert lib.escape(s) == s;
  }

  /**
   * What `findByIdAndUpdate(id, inst)` stores over a copy: every path the new
   * document sets is written. The borrower is set only when the form sent
   * one, so without it the stored borrower stays.
   */
  function ApplyUpdate(stored: BookInstance, draft: BookInstance): (r: BookInstance)
    ensures r.book == draft.book && r.imprint == draft.imprint
    ensures r.status == draft.status && r.dueBack == draft.dueBack
    ensures draft.borrower.Some? ==> r.borrower == draft.borrower
    ensures draft.borrower.None? ==> r.borrower == stored.borrower
  {
    if draft.borrower.Some? then draft else draft.(borrower := stored.borrower)
  }

  /**
   * What an accepted update leaves in the store: a status of the enum, and,
   * for a loan, a borrower that resolves to a stored user, whatever the copy
   * held before.
   */
  lemma UpdateStoresValidLoan(lib: Primitives, users: seq<UserModel.User>, f: InstanceForm,
                              stored: BookInstance)
    requires EscapeKeepsStatuses(lib)
    requires UpdateErrors(lib, users, f) == []
    ensures ApplyUpdate(stored, UpdateDraft(lib, f)).status in Statuses
    ensures var r := ApplyUpdate(stored, UpdateDraft(lib, f));
      r.status == "Loaned" ==> r.borrower.Some? && UserModel.FindById(users, r.borrower.value).Some?
  {
    UpdateAcceptedWritesValidLoan(lib, users, f);
  }

  /** `JSON.stringify` of a copy: a null date is written as null, an unset borrower is omitted. */
  function InstanceJson(id: Id, inst: BookInstance): (r: Payload)
    ensures r.Doc? && |r.members| == (if inst.borrower.Some? then 6 else 5)
    ensures r.members[0] == Member("_id", JString(id))
    ensures r.members[1] == Member("book", JString(inst.book))
    ensures r.members[2] == Member("imprint", JString(inst.imprint))
    ensures r.members[3] == Member("status", JString(inst.status))
    ensures inst.dueBack.Some? ==> r.members[4] == Member("due_back", JDate(inst.dueBack.value))
    ensures inst.dueBack.None? ==> r.members[4] == Member("due_back", JNull)
    ensures inst.borrower.Some? ==> r.members[5] == Member("borrower", JString(inst.borrower.value))
    ensures forall j, k | 0 <= j < k < |r.members| :: r.members[j].key != r.members[k].key
  {
    Doc([Member("_id", JString(id)),
         Member("book", JString(inst.book)),
         Member("imprint", JString(inst.imprint)),
         Member("status", JString(inst.status)),
         Member("due_back", if inst.dueBack.Some? then JDate(inst.dueBack.value) else JNull)]
        + (if inst.borrower.Some? then [Member("borrower", JString(inst.borrower.value))] else []))
  }

  /** An entry of the update form's book list; `selected` is the flag the loop sets. */
  datatype BookChoice = BookChoice(id: Id, title: string, selected: bool)

  /** What `Book.find({}, 'title')` hands the form: each stored book once, none selected yet. */
  predicate ListsBooks(choices: seq<BookChoice>, books: map<Id, Book>)
  {
    (forall i | 0 <= i < |choices| ::
       choices[i].id in books && choices[i].title == books[choices[i].id].title && !choices[i].selected)
    && (forall i, j | 0 <= i < j < |choices| :: choices[i].id != choices[j].id)
    && (forall id | id in books :: exists i | 0 <= i < |choices| :: choices[i].id == id)
  }

  function ChoiceIds(choices: seq<BookChoice>): (r: seq<Id>)
    ensures |r| == |choices| && forall i | 0 <= i < |r| :: r[i] == choices[i].id
  {
    seq(|choices|, i requires 0 <= i < |choices| => choices[i].id)
  }

  /** The book list after the loop: the first entry with the copy's book id is selected, nothing else changes. */
  function Selected(choices: seq<BookChoice>, bookId: Id): (r: seq<BookChoice>)
    ensures |r| == |choices|
  {
    var i := IndexOfItem(ChoiceIds(choices), bookId);
    if i < 0 then choices else choices[i := choices[i].(selected := true)]
  }

  /**
   * The loop of bookinstance_update_get: walk the book list, select the
   * first entry whose id is the copy's book, and stop there.
   */
  method MarkSelected(books: array<BookChoice>, bookId: Id)
    modifies books
    ensures books[..] == Selected(old(books[..]), bookId)
  {
    ghost var ids := ChoiceIds(books[..]);
    var i := 0;
    while i < books.Length
      invariant 0 <= i <= books.Length
      invariant books[..] == old(books[..])
      invariant bookId !in ids[..i]
    {
      if books[i].id == bookId {
        assert ids[i] == bookId;
        IndexOfItemAt(ids, bookId, i);
        books[i] := books[i].(selected := true);
        return;
      }
      assert ids[..i + 1] == ids[..i] + [ids[i]];
      i := i + 1;
    }
    assert ids[..i] == ids;
  }

  /**
   * On a fresh listing the loop selects exactly one entry when the copy's
   * book is listed and none otherwise, and the selected entry is that book.
   */
  lemma SelectedExactlyTheBook(choices: seq<BookChoice>, books: map<Id, Book>, bookId: Id)
    requires ListsBooks(choices, books)
    ensures forall k | 0 <= k < |choices| ::
      Selected(choices, bookId)[k].selected <==> choices[k].id == bookId
    ensures forall k | 0 <= k < |choices| ::
      Selected(choices, bookId)[k].id == choices[k].id && Selected(choices, bookId)[k].title == choices[k].title
    ensures bookId in books ==> exists k | 0 <= k < |choices| :: Selected(choices, bookId)[k].selected
  {
    var ids := ChoiceIds(choices);
    var i := IndexOfItem(ids, bookId);
    forall k | 0 <= k < |choices|
      ensures Selected(choices, bookId)[k].selected <==> choices[k].id == bookId
    {
      if i >= 0 && choices[k].id == bookId {
        assert ids[k] == ids[i];
      } else if i < 0 {
        assert ids[k] in ids;
      }
    }
    if bookId in books {
      var k :| 0 <= k < |choices| && choices[k].id == bookId;
      assert Selected(choices, bookId)[k].selected;
    }
  }

  /**
   * bookinstance_detail: a 404 for an unknown id; a copy whose book is gone
   * fails on reading the populated book's title; otherwise the copy with its book.
   */
  method Detail(db: Db, id: Id) returns (out: Outcome<BookInstance, Book>)
    ensures id !in db.instances ==> out == NotFound("Book copy not found")
    ensures id in db.instances && db.instances[id].book !in db.books ==> out.Failed?
    ensures id in db.instances && db.instances[id].book in db.books ==>
      out == Show(db.instances[id], db.books[db.instances[id].book])
  {
    if id !in db.instances {
      return NotFound("Book copy not found");
    }
    var inst := db.instances[id];
    if inst.book !in db.books {
      return Failed("Cannot read property 'title' of null");
    }
    out := Show(inst, db.books[inst.book]);
  }

  /**
   * bookinstance_create_post. Failing rules redisplay the draft and store
   * nothing; a draft the schema refuses stores nothing; otherwise the copy
   * is stored under the new id, logged, and the response redirects to its URL.
   */
  method CreatePost(db: Db, lib: Primitives, f: InstanceForm, newId: Id)
    returns (out: Outcome<BookInstance, Book>)
    requires newId !in db.instances
    modifies db
    ensures CreateErrors(lib, f) != [] ==>
      out == Redisplay(CreateDraft(lib, f), CreateErrors(lib, f))
      && db.State() == old(db.State())
    ensures CreateErrors(lib, f) == [] && !SchemaAccepts(CreateDraft(lib, f)) ==>
      out.Failed? && db.State() == old(db.State())
    ensures CreateErrors(lib, f) == [] && SchemaAccepts(CreateDraft(lib, f)) ==>
      out == Redirect(Url(newId))
      && db.State() == old(db.State()).(
           instances := old(db.instances)[newId := CreateDraft(lib, f)],
           log := old(db.log) + [LogEntry(Tag, "create", InstanceJson(newId, CreateDraft(lib, f)))])
  {
    var errors := CreateErrors(lib, f);
    var inst := CreateDraft(lib, f);
    if errors != [] {
      return Redisplay(inst, errors);
    }
    if !SchemaAccepts(inst) {
      return Failed("BookInstance validation failed");
    }
    db.instances := db.instances[newId := inst];
    db.log := db.log + [LogEntry(Tag, "create", InstanceJson(newId, inst))];
    out := Redirect(Url(newId));
  }

  /** bookinstance_delete_get: the confirmation page is rendered with whatever the lookup found. */
  method DeleteGet(db: Db, id: Id) returns (inst: Option<BookInstance>)
    ensures inst.Some? <==> id in db.instances
    ensures inst.Some? ==> inst.value == db.instances[id]
  {
    inst := if id in db.instances then Some(db.instances[id]) else None;
  }

  /**
   * bookinstance_delete_post, where `id` is the posted `id` field, not a
   * route parameter: no check of any kind; the copy is removed if
   * it exists, the id is logged, and the response goes back to the list.
   */
  method DeletePost(db: Db, id: Id) returns (out: Outcome<BookInstance, Book>)
    modifies db
    ensures out == Redirect(InstanceListUrl)
    ensures db.State() == old(db.State()).(
      instances := old(db.instances) - {id},
      log := old(db.log) + [LogEntry(Tag, "delete", Text(id))])
    ensures id !in db.instances
  {
    db.instances := db.instances - {id};
    db.log := db.log + [LogEntry(Tag, "delete", Text(id))];
    out := Redirect(InstanceListUrl);
  }

  /**
   * bookinstance_update_get. An unknown id is a 404 and a copy whose book is
   * gone fails on the populated book's id; neither changes anything.
   * Otherwise the copy's book is selected in the list, the attempt is
   * logged, and the form shows the copy.
   */
  method UpdateGet(db: Db, id: Id, listing: array<BookChoice>) returns (out: Outcome<BookInstance, Book>)
    requires ListsBooks(listing[..], db.books)
    modifies db, listing
    ensures id !in old(db.instances) ==>
      out == NotFound("Book copy not found") && db.State() == old(db.State()) && listing[..] == old(listing[..])
    ensures id in old(db.instances) && old(db.instances)[id].book !in old(db.books) ==>
      out.Failed? && db.State() == old(db.State()) && listing[..] == old(listing[..])
    ensures id in old(db.instances) && old(db.instances)[id].book in old(db.books) ==>
      out == Show(old(db.instances)[id], old(db.books)[old(db.instances)[id].book])
      && db.State() == old(db.State()).(
           log := old(db.log) + [LogEntry(Tag, "update attempt", InstanceJson(id, old(db.instances)[id]))])
      && listing[..] == Selected(old(listing[..]), old(db.instances)[id].book)
  {
    if id !in db.instances {
      return NotFound("Book copy not found");
    }
    var inst := db.instances[id];
    if inst.book !in db.books {
      return Failed("Cannot read property '_id' of null");
    }
    MarkSelected(listing, inst.book);
    db.log := db.log + [LogEntry(Tag, "update attempt", InstanceJson(id, inst))];
    out := Show(inst, db.books[inst.book]);
  }

  /**
   * bookinstance_update_post. Failing rules redisplay the draft and store
   * nothing. A valid submission writes the draft's paths over the copy
   * under the route id and no other key (a borrower the form did not send
   * is kept), and the draft is logged; for an unknown id the log line is
   * written, nothing is stored, and reading `thebook.url` from the null
   * result fails.
   */
  method UpdatePost(db: Db, lib: Primitives, id: Id, f: InstanceForm)
    returns (out: Outcome<BookInstance, Book>)
    modifies db
    ensures UpdateErrors(lib, old(db.users), f) != [] ==>
      out == Redisplay(UpdateDraft(lib, f), UpdateErrors(lib, old(db.users), f))
      && db.State() == old(db.State())
    ensures UpdateErrors(lib, old(db.users), f) == [] ==>
      db.log == old(db.log) + [LogEntry(Tag, "update complete", InstanceJson(id, UpdateDraft(lib, f)))]
    ensures UpdateErrors(lib, old(db.users), f) == [] && id in old(db.instances) ==>
      out == Redirect(Url(id))
      && db.instances == old(db.instances)[id := ApplyUpdate(old(db.instances)[id], UpdateDraft(lib, f))]
      && db.instances.Keys == old(db.instances).Keys
      && db.State() == old(db.State()).(instances := db.instances, log := db.log)
    ensures UpdateErrors(lib, old(db.users), f) == [] && id !in old(db.instances) ==>
      out.Failed? && db.State() == old(db.State()).(log := db.log)
  {
    var errors := UpdateErrors(lib, db.users, f);
    var inst := UpdateDraft(lib, f);
    if errors != [] {
      return Redisplay(inst, errors);
    }
    var found := id in db.instances;
    if found {
      db.instances := db.instances[id := ApplyUpdate(db.instances[id], inst)];
    }
    db.log := db.log + [LogEntry(Tag, "update complete", InstanceJson(id, inst))];
    if !found {
      return Failed("Cannot read property 'url' of null");
    }
    out := Redirect(Url(id));
  }
}
