/**
 * controllers/bookController.js: the normalisation of the `genre` input,
 * the create and update rules, the genre check-box marking, the redacted
 * log payload, and the detail, create, delete and update workflows.
 */
module BookController {
  import opened Library
  import opened Forms
  import opened CatalogStore
  import BookInstanceModel

  const Tag: string := "local-library:book"
  const BookListUrl: string := "/catalog/books"

  type Instances = map<Id, BookInstanceModel.BookInstance>

  /** What the browser posts for `genre`: nothing, one check-box value, or several. */
  datatype GenreInput = Absent | Single(value: string) | Many(values: seq<string>)

  /** The list a `genre` input stands for. */
  function GenreList(g: GenreInput): seq<string>
  {
    match g
    case Absent => []
    case Single(v) => [v]
    case Many(vs) => vs
  }

  /** A book-form submission once its genre input is a list. */
  datatype BookForm = BookForm(title: string, author: string, summary: string, isbn: string, genre: seq<string>)

  /** The posted body of the book form, which the handler chain rewrites in place. */
  class BookBody {
    var title: string
    var author: string
    var summary: string
    var isbn: string
    var genre: GenreInput

    constructor (title: string, author: string, summary: string, isbn: string, genre: GenreInput)
      ensures this.title == title && this.author == author && this.summary == summary
      ensures this.isbn == isbn && this.genre == genre
    {
      this.title, this.author, this.summary, this.isbn := title, author, summary, isbn;
      this.genre := genre;
    }

    /** The submission the body stands for, with its genre input read as a list. */
    function Form(): BookForm
      reads this
    {
      BookForm(title, author, summary, isbn, GenreList(genre))
    }

    /**
     * The genreToArray middleware: afterwards `genre` is always a list; an
     * absent input becomes the empty list, a single value a one-element list,
     * and a list is left as it was. No other field changes, so the
     * submission the body stands for is unchanged.
     */
    method GenreToArray()
      modifies this
      ensures genre.Many?
      ensures old(genre).Absent? ==> genre.values == []
      ensures old(genre).Single? ==> genre.values == [old(genre).value]
      ensures old(genre).Many? ==> genre == old(genre)
      ensures title == old(title) && author == old(author) && summary == old(summary) && isbn == old(isbn)
      ensures Form() == old(Form())
    {
      if !genre.Many? {
        if genre.Absent? {
          genre := Many([]);
        } else {
          genre := Many([genre.value]);
        }
      }
    }
  }

  /** The four required text fields of the book form, as (field, trimmed value is checked). */
  datatype BookMessages = BookMessages(title: string, author: string, summary: string, isbn: string)

  const CreateMessages := BookMessages("Title must not be empty.", "Author must not be empty. ",
                                       "Summary must not be empty. ", "ISBN must not be empty")
  const UpdateMessages := BookMessages("Title must not be empty", "Author must not be empty",
                                       "Summary must not be empty", "ISBN must not be empty")

  /** The four `trim().isLength({min: 1})` chains, with the given messages, in form order. */
  function RequiredErrors(title: string, author: string, summary: string, isbn: string, m: BookMessages)
    : (r: seq<FieldError>)
    ensures |r| <= 4
    ensures r == [] <==> !AllSpace(title) && !AllSpace(author) && !AllSpace(summary) && !AllSpace(isbn)
  {
    RequiredCheck(title, "title", m.title);
    RequiredCheck(author, "author", m.author);
    RequiredCheck(summary, "summary", m.summary);
    RequiredCheck(isbn, "isbn", m.isbn);
    Check(LengthIn(Trim(title), 1, None), "title", m.title)
    + Check(LengthIn(Trim(author), 1, None), "author", m.author)
    + Check(LengthIn(Trim(summary), 1, None), "summary", m.summary)
    + Check(LengthIn(Trim(isbn), 1, None), "isbn", m.isbn)
  }

  /** One error per blank (empty or whitespace-only) field, in form order. */
  function BlankErrors(title: string, author: string, summary: string, isbn: string, m: BookMessages)
    : seq<FieldError>
  {
    Check(!AllSpace(title), "title", m.title)
    + Check(!AllSpace(author), "author", m.author)
    + Check(!AllSpace(summary), "summary", m.summary)
    + Check(!AllSpace(isbn), "isbn", m.isbn)
  }

  /** The trim-then-length rules fail on exactly the blank fields. */
  lemma RequiredIsBlank(title: string, author: string, summary: string, isbn: string, m: BookMessages)
    ensures RequiredErrors(title, author, summary, isbn, m) == BlankErrors(title, author, summary, isbn, m)
  {
    RequiredCheck(title, "title", m.title);
    RequiredCheck(author, "author", m.author);
    RequiredCheck(summary, "summary", m.summary);
    RequiredCheck(isbn, "isbn", m.isbn);
  }

  /**
   * Every blank field reports its own error with its own message, no
   * non-blank field is reported, and no field is reported twice.
   */
  lemma RequiredErrorsExact(title: string, author: string, summary: string, isbn: string, m: BookMessages)
    ensures FieldError("title", m.title) in RequiredErrors(title, author, summary, isbn, m) <==> AllSpace(title)
    ensures FieldError("author", m.author) in RequiredErrors(title, author, summary, isbn, m) <==> AllSpace(author)
    ensures FieldError("summary", m.summary) in RequiredErrors(title, author, summary, isbn, m) <==> AllSpace(summary)
    ensures FieldError("isbn", m.isbn) in RequiredErrors(title, author, summary, isbn, m) <==> AllSpace(isbn)
    ensures forall e | e in RequiredErrors(title, author, summary, isbn, m) ::
      e == FieldError("title", m.title) || e == FieldError("author", m.author)
      || e == FieldError("summary", m.summary) || e == FieldError("isbn", m.isbn)
    ensures DistinctFields(RequiredErrors(title, author, summary, isbn, m))
    ensures RequiredErrors(title, author, summary, isbn, m) == []
      <==> !AllSpace(title) && !AllSpace(author) && !AllSpace(summary) && !AllSpace(isbn)
  {
    RequiredIsBlank(title, author, summary, isbn, m);
    BlankErrorsMembers(title, author, summary, isbn, m);
    BlankErrorsDistinct(title, author, summary, isbn, m);
  }

  /** Each blank field's own error is present, and only those errors are. */
  lemma BlankErrorsMembers(title: string, author: string, summary: string, isbn: string, m: BookMessages)
    ensures FieldError("title", m.title) in BlankErrors(title, author, summary, isbn, m) <==> AllSpace(title)
    ensures FieldError("author", m.author) in BlankErrors(title, author, summary, isbn, m) <==> AllSpace(author)
    ensures FieldError("summary", m.summary) in BlankErrors(title, author, summary, isbn, m) <==> AllSpace(summary)
    ensures FieldError("isbn", m.isbn) in BlankErrors(title, author, summary, isbn, m) <==> AllSpace(isbn)
    ensures forall e | e in BlankErrors(title, author, summary, isbn, m) ::
      e == FieldError("title", m.title) || e == FieldError("author", m.author)
      || e == FieldError("summary", m.summary) || e == FieldError("isbn", m.isbn)
  {
  }

  /** No field is reported twice, and there are no errors exactly when no field is blank. */
  lemma BlankErrorsDistinct(title: string, author: string, summary: string, isbn: string, m: BookMessages)
    ensures DistinctFields(BlankErrors(title, author, summary, isbn, m))
    ensures BlankErrors(title, author, summary, isbn, m) == []
      <==> !AllSpace(title) && !AllSpace(author) && !AllSpace(summary) && !AllSpace(isbn)
  {
    var t := Check(!AllSpace(title), "title", m.title);
    var a := Check(!AllSpace(author), "author", m.author);
    var s := Check(!AllSpace(summary), "summary", m.summary);
    assert [] + t == t;
    DistinctFieldsAppendCheck([], !AllSpace(title), "title", m.title);
    DistinctFieldsAppendCheck(t, !AllSpace(author), "author", m.author);
    DistinctFieldsAppendCheck(t + a, !AllSpace(summary), "summary", m.summary);
    DistinctFieldsAppendCheck(t + a + s, !AllSpace(isbn), "isbn", m.isbn);
  }

  function CreateErrors(f: BookForm): (r: seq<FieldError>)
    ensures r == [] <==> !AllSpace(f.title) && !AllSpace(f.author) && !AllSpace(f.summary) && !AllSpace(f.isbn)
  {
    RequiredErrors(f.title, f.author, f.summary, f.isbn, CreateMessages)
  }

  function UpdateErrors(f: BookForm): (r: seq<FieldError>)
    ensures SameFields(r, CreateErrors(f))
  {
    CreateUpdateAgree(f.title, f.author, f.summary, f.isbn);
    RequiredErrors(f.title, f.author, f.summary, f.isbn, UpdateMessages)
  }

  /**
   * Create and update refuse exactly the same submissions: their errors name
   * the same fields in the same order, and only the messages differ.
   */
  lemma CreateUpdateAgree(title: string, author: string, summary: string, isbn: string)
    ensures SameFields(RequiredErrors(title, author, summary, isbn, CreateMessages),
                       RequiredErrors(title, author, summary, isbn, UpdateMessages))
  {
    RequiredIsBlank(title, author, summary, isbn, CreateMessages);
    RequiredIsBlank(title, author, summary, isbn, UpdateMessages);
    BlankErrorsSameFields(title, author, summary, isbn, CreateMessages, UpdateMessages);
  }

  lemma BlankErrorsSameFields(title: string, author: string, summary: string, isbn: string, m1: BookMessages, m2: BookMessages)
    ensures SameFields(BlankErrors(title, author, summary, isbn, m1), BlankErrors(title, author, summary, isbn, m2))
  {
    var t1, t2 := Check(!AllSpace(title), "title", m1.title), Check(!AllSpace(title), "title", m2.title);
    var a1, a2 := Check(!AllSpace(author), "author", m1.author), Check(!AllSpace(author), "author", m2.author);
    var s1, s2 := Check(!AllSpace(summary), "summary", m1.summary), Check(!AllSpace(summary), "summary", m2.summary);
    assert [] + t1 == t1 && [] + t2 == t2;
    SameFieldsAppendCheck([], [], !AllSpace(title), "title", m1.title, m2.title);
    SameFieldsAppendCheck(t1, t2, !AllSpace(author), "author", m1.author, m2.author);
    SameFieldsAppendCheck(t1 + a1, t2 + a2, !AllSpace(summary), "summary", m1.summary, m2.summary);
    SameFieldsAppendCheck(t1 + a1 + s1, t2 + a2 + s2, !AllSpace(isbn), "isbn", m1.isbn, m2.isbn);
  }

  /** `escape()` applied to every entry of the genre list. */
  function EscapeAll(lib: Primitives, ids: seq<string>): (r: seq<string>)
    ensures |r| == |ids| && forall i | 0 <= i < |ids| :: r[i] == lib.escape(ids[i])
  {
    seq(|ids|, i requires 0 <= i < |ids| => lib.escape(ids[i]))
  }

  /** The book built from the sanitised body: trimmed and escaped text fields, escaped genre ids. */
  function Draft(lib: Primitives, f: BookForm): (b: Book)
    ensures b.title == lib.escape(Trim(f.title)) && b.author == lib.escape(Trim(f.author))
    ensures b.summary == lib.escape(Trim(f.summary)) && b.isbn == lib.escape(Trim(f.isbn))
    ensures |b.genre| == |f.genre| && forall i | 0 <= i < |f.genre| :: b.genre[i] == lib.escape(f.genre[i])
  {
    Book(lib.escape(Trim(f.title)), lib.escape(Trim(f.author)), lib.escape(Trim(f.summary)),
         lib.escape(Trim(f.isbn)), EscapeAll(lib, f.genre))
  }

  /** The document as JSON.stringify lists it, before any replacer runs. */
  function BookJson(id: Id, b: Book): seq<Member>
  {
    [Member("_id", JString(id)), Member("title", JString(b.title)), Member("author", JString(b.author)),
     Member("summary", JString(b.summary)), Member("isbn", JString(b.isbn)), Member("genre", JStrings(b.genre))]
  }

  /**
   * The replacer of logString(): every member keyed "summary" is dropped,
   * every other member is kept, in its original order.
   */
  function Redact(ms: seq<Member>): (r: seq<Member>)
    ensures |r| <= |ms|
    ensures forall i | 0 <= i < |r| :: r[i].key != "summary"
  {
    if |ms| == 0 then []
    else if ms[0].key == "summary" then Redact(ms[1..])
    else [ms[0]] + Redact(ms[1..])
  }

  /** The replacer drops exactly the members keyed "summary". */
  lemma {:induction false} RedactMembers(ms: seq<Member>)
    ensures forall m :: m in Redact(ms) <==> m in ms && m.key != "summary"
  {
    if |ms| > 0 {
      RedactMembers(ms[1..]);
      assert ms == [ms[0]] + ms[1..];
    }
  }

  /** A payload with no summary in it passes through the replacer unchanged. */
  lemma {:induction false} RedactKeepsSummaryFree(ms: seq<Member>)
    requires forall m | m in ms :: m.key != "summary"
    ensures Redact(ms) == ms
  {
    if |ms| > 0 {
      RedactKeepsSummaryFree(ms[1..]);
    }
  }

  /** Redacting twice is redacting once. */
  lemma RedactIdempotent(ms: seq<Member>)
    ensures Redact(Redact(ms)) == Redact(ms)
  {
    RedactMembers(ms);
    RedactKeepsSummaryFree(Redact(ms));
  }

  /** logString(book): the book's JSON without its summary, every other field in place. */
  function LogString(id: Id, b: Book): (r: Payload)
    ensures r.Doc? && |r.members| > 0 && r.members[0] == Member("_id", JString(id))
    ensures forall m | m in r.members :: m.key != "summary"
  {
    Doc(Redact(BookJson(id, b)))
  }

  /** The replacer on a member followed by the rest: the member stays unless it is the summary. */
  lemma RedactCons(m: Member, rest: seq<Member>)
    ensures Redact([m] + rest) == if m.key == "summary" then Redact(rest) else [m] + Redact(rest)
  {
    assert ([m] + rest)[1..] == rest;
  }

  /** The logged payload of a book holds its id, title, author, ISBN and genres, and no summary. */
  lemma LogStringFields(id: Id, b: Book)
    ensures LogString(id, b).members
      == [Member("_id", JString(id)), Member("title", JString(b.title)), Member("author", JString(b.author)),
          Member("isbn", JString(b.isbn)), Member("genre", JStrings(b.genre))]
  {
    var ms := BookJson(id, b);
    var tail := [ms[4], ms[5]];
    var r3 := [ms[3]] + tail;
    var r2 := [ms[2]] + r3;
    var r1 := [ms[1]] + r2;
    assert ms == [ms[0]] + r1;
    RedactKeepsSummaryFree(tail);
    RedactCons(ms[3], tail);
    RedactCons(ms[2], r3);
    RedactCons(ms[1], r2);
    RedactCons(ms[0], r1);
  }

  /** One entry of the genre check-box list the book form renders. */
  datatype GenreChoice = GenreChoice(id: Id, name: string, checked: bool)

  /** What `Genre.find()` hands the form: each stored genre once, none checked yet. */
  predicate ListsGenres(choices: seq<GenreChoice>, genres: map<Id, Genre>)
  {
    (forall i | 0 <= i < |choices| ::
       choices[i].id in genres && choices[i].name == genres[choices[i].id].name && !choices[i].checked)
    && (forall id | id in genres :: exists i | 0 <= i < |choices| :: choices[i].id == id)
  }

  /** A choice after marking: checked once its id is among the book's genres, never unchecked. */
  function Marked(c: GenreChoice, bookGenres: seq<Id>): (r: GenreChoice)
    ensures r.id == c.id && r.name == c.name
    ensures r.checked <==> c.checked || c.id in bookGenres
  {
    if c.id in bookGenres then c.(checked := true) else c
  }

  /** The loop of book_create_post's error path, with `indexOf(...) > -1` as the test. */
  method MarkCheckedIndexOf(genres: array<GenreChoice>, bookGenres: seq<Id>)
    modifies genres
    ensures forall k | 0 <= k < genres.Length :: genres[k] == Marked(old(genres[k]), bookGenres)
  {
    for i := 0 to genres.Length
      invariant forall k | 0 <= k < i :: genres[k] == Marked(old(genres[k]), bookGenres)
      invariant forall k | i <= k < genres.Length :: genres[k] == old(genres[k])
    {
      if IndexOfItem(bookGenres, genres[i].id) > -1 {
        genres[i] := genres[i].(checked := true);
      }
    }
  }

  /** The nested loops of book_update_get, comparing every genre with every genre of the book. */
  method MarkCheckedNested(genres: array<GenreChoice>, bookGenres: seq<Id>)
    modifies genres
    ensures forall k | 0 <= k < genres.Length :: genres[k] == Marked(old(genres[k]), bookGenres)
  {
    for i := 0 to genres.Length
      invariant forall k | 0 <= k < i :: genres[k] == Marked(old(genres[k]), bookGenres)
      invariant forall k | i <= k < genres.Length :: genres[k] == old(genres[k])
    {
      for j := 0 to |bookGenres|
        invariant forall k | 0 <= k < i :: genres[k] == Marked(old(genres[k]), bookGenres)
        invariant forall k | i < k < genres.Length :: genres[k] == old(genres[k])
        invariant genres[i] == Marked(old(genres[i]), bookGenres[..j])
      {
        assert bookGenres[..j + 1] == bookGenres[..j] + [bookGenres[j]];
        if genres[i].id == bookGenres[j] {
          genres[i] := genres[i].(checked := true);
        }
      }
      assert bookGenres[..|bookGenres|] == bookGenres;
    }
  }

  /**
   * On a fresh listing, marking checks a genre exactly when the book names
   * it, and keeps the listing's genres and names.
   */
  lemma MarkedListing(choices: seq<GenreChoice>, genres: map<Id, Genre>, bookGenres: seq<Id>, i: nat)
    requires ListsGenres(choices, genres) && i < |choices|
    ensures Marked(choices[i], bookGenres).checked <==> choices[i].id in bookGenres
    ensures Marked(choices[i], bookGenres).id in genres
  {
  }

  /** book_detail: a 404 for an unknown id, else the book with its copies. */
  method Detail(db: Db, id: Id) returns (out: Outcome<Book, Instances>)
    ensures id !in db.books ==> out == NotFound("Book not found")
    ensures id in db.books ==> out == Show(db.books[id], db.InstancesOfBook(id))
  {
    if id !in db.books {
      return NotFound("Book not found");
    }
    out := Show(db.books[id], db.InstancesOfBook(id));
  }

  /**
   * book_create_post. The genre input is first normalised. Failing rules
   * redisplay the draft, with the listed genres the draft names checked,
   * and store nothing; otherwise the draft is stored under the new id, its
   * redacted JSON is logged, and the response redirects to its URL.
   */
  method CreatePost(db: Db, lib: Primitives, b: BookBody, listing: array<GenreChoice>, newId: Id)
    returns (out: Outcome<Book, Instances>)
    requires newId !in db.books
    requires ListsGenres(listing[..], db.genres)
    modifies db, b, listing
    ensures b.genre == Many(GenreList(old(b.genre)))
    ensures CreateErrors(old(b.Form())) != [] ==>
      out == Redisplay(Draft(lib, old(b.Form())), CreateErrors(old(b.Form())))
      && db.State() == old(db.State())
      && forall k | 0 <= k < listing.Length ::
           listing[k].id in db.genres && (listing[k].checked <==> listing[k].id in Draft(lib, old(b.Form())).genre)
    ensures CreateErrors(old(b.Form())) == [] ==>
      out == Redirect(BookUrl(newId))
      && db.State() == old(db.State()).(
           books := old(db.books)[newId := Draft(lib, old(b.Form()))],
           log := old(db.log) + [LogEntry(Tag, "create", LogString(newId, Draft(lib, old(b.Form()))))])
      && listing[..] == old(listing[..])
  {
    b.GenreToArray();
    var errors := CreateErrors(b.Form());
    var book := Draft(lib, b.Form());
    if errors != [] {
      MarkCheckedIndexOf(listing, book.genre);
      forall k | 0 <= k < listing.Length
        ensures listing[k].id in db.genres && (listing[k].checked <==> listing[k].id in book.genre)
      {
        MarkedListing(old(listing[..]), db.genres, book.genre, k);
      }
      return Redisplay(book, errors);
    }
    db.books := db.books[newId := book];
    db.log := db.log + [LogEntry(Tag, "create", LogString(newId, book))];
    out := Redirect(BookUrl(newId));
  }

  /** book_delete_get: back to the list for an unknown id, else the confirmation page. */
  method DeleteGet(db: Db, id: Id) returns (out: Outcome<Book, Instances>)
    ensures id !in db.books ==> out == Redirect(BookListUrl)
    ensures id in db.books ==> out == Show(db.books[id], db.InstancesOfBook(id))
  {
    if id !in db.books {
      return Redirect(BookListUrl);
    }
    out := Show(db.books[id], db.InstancesOfBook(id));
  }

  /**
   * book_delete_post, where `id` is the posted `bookid`, not a route
   * parameter. An unknown id redirects to the list; a book with any
   * copy is kept and shown with exactly those copies; otherwise only that
   * book is removed and its redacted JSON is logged.
   */
  method DeletePost(db: Db, id: Id) returns (out: Outcome<Book, Instances>)
    modifies db
    ensures id !in old(db.books) ==> out == Redirect(BookListUrl) && db.State() == old(db.State())
    ensures id in old(db.books) && old(db.InstancesOfBook(id)) != map[] ==>
      out == Blocked(old(db.books)[id], old(db.InstancesOfBook(id))) && db.State() == old(db.State())
    ensures id in old(db.books) && old(db.InstancesOfBook(id)) == map[] ==>
      out == Redirect(BookListUrl)
      && db.State() == old(db.State()).(
           books := old(db.books) - {id},
           log := old(db.log) + [LogEntry(Tag, "delete", LogString(id, old(db.books)[id]))])
  {
    if id !in db.books {
      return Redirect(BookListUrl);
    }
    var book := db.books[id];
    var copies := db.InstancesOfBook(id);
    if copies != map[] {
      return Blocked(book, copies);
    }
    db.books := db.books - {id};
    db.log := db.log + [LogEntry(Tag, "delete", LogString(id, book))];
    out := Redirect(BookListUrl);
  }

  /**
   * book_update_get. An unknown id is a 404 and changes nothing. Otherwise
   * the listed genres the book names are checked, the attempt is logged, and
   * the form shows the stored book.
   */
  method UpdateGet(db: Db, id: Id, listing: array<GenreChoice>) returns (out: Outcome<Book, Instances>)
    requires ListsGenres(listing[..], db.genres)
    modifies db, listing
    ensures id !in old(db.books) ==>
      out == NotFound("Book not found") && db.State() == old(db.State()) && listing[..] == old(listing[..])
    ensures id in old(db.books) ==>
      out == Show(old(db.books)[id], map[])
      && db.State() == old(db.State()).(
           log := old(db.log) + [LogEntry(Tag, "update attempt", LogString(id, old(db.books)[id]))])
      && forall k | 0 <= k < listing.Length ::
           listing[k].id in db.genres && (listing[k].checked <==> listing[k].id in db.books[id].genre)
  {
    if id !in db.books {
      return NotFound("Book not found");
    }
    var book := db.books[id];
    MarkCheckedNested(listing, book.genre);
    forall k | 0 <= k < listing.Length
      ensures listing[k].id in db.genres && (listing[k].checked <==> listing[k].id in book.genre)
    {
      MarkedListing(old(listing[..]), db.genres, book.genre, k);
    }
    db.log := db.log + [LogEntry(Tag, "update attempt", LogString(id, book))];
    out := Show(book, map[]);
  }

  /**
   * book_update_post. The genre input is first normalised. Failing rules
   * end in an error and store nothing. A valid submission overwrites the
   * book under the route id and no other key, and the redacted draft is
   * logged; for an unknown id the log line is written, nothing is stored,
   * and reading `thebook.url` from the null result fails.
   */
  method UpdatePost(db: Db, lib: Primitives, id: Id, b: BookBody) returns (out: Outcome<Book, Instances>)
    modifies db, b
    ensures b.genre == Many(GenreList(old(b.genre)))
    ensures UpdateErrors(old(b.Form())) != [] ==> out.Failed? && db.State() == old(db.State())
    ensures UpdateErrors(old(b.Form())) == [] ==>
      db.log == old(db.log) + [LogEntry(Tag, "update complete", LogString(id, Draft(lib, old(b.Form()))))]
    ensures UpdateErrors(old(b.Form())) == [] && id in old(db.books) ==>
      out == Redirect(BookUrl(id))
      && db.books == old(db.books)[id := Draft(lib, old(b.Form()))]
      && db.books.Keys == old(db.books).Keys
      && db.State() == old(db.State()).(books := db.books, log := db.log)
    ensures UpdateErrors(old(b.Form())) == [] && id !in old(db.books) ==>
      out.Failed? && db.State() == old(db.State()).(log := db.log)
  {
    b.GenreToArray();
    var errors := UpdateErrors(b.Form());
    var book := Draft(lib, b.Form());
    if errors != [] {
      return Failed("Authors is not defined");
    }
    var found := id in db.books;
    if found {
      db.books := db.books[id := book];
    }
    db.log := db.log + [LogEntry(Tag, "update complete", LogString(id, book))];
    if !found {
      return Failed("Cannot read property 'url' of null");
    }
    out := Redirect(BookUrl(id));
  }
}
