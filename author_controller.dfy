/**
 * controllers/authorController.js: the author form's two rule sets, the
 * detail page, create, delete guarded by the author's books, and update
 * under the route id. This controller writes no audit-log lines.
 */
module AuthorController {
  import opened Library
  import opened Forms
  import opened CatalogStore
  import opened AuthorModel

  const AuthorListUrl: string := "/catalog/authors"

  /** The four inputs of the author form, as the browser posts them. */
  datatype AuthorForm = AuthorForm(
    firstName: string,
    familyName: string,
    dateOfBirth: string,
    dateOfDeath: string)

  /**
   * `authorNameP.test(s)` for the pattern `/[a-zA-Z\-]*\/`: it has no anchors,
   * so it succeeds when some (possibly empty) run of class characters occurs
   * anywhere in `s`.
   */
  predicate NamePatternTest(s: string)
  {
    exists i, j | 0 <= i <= j <= |s| :: NameRun(s, i, j)
  }

  /** `s[i..j]` consists of class characters only. */
  predicate NameRun(s: string, i: nat, j: nat)
    requires i <= j <= |s|
  {
    forall k | i <= k < j :: LetterOrHyphen(s[k])
  }

  /** The empty run at position 0 always matches, so the test never fails. */
  lemma NamePatternAlwaysMatches(s: string)
    ensures NamePatternTest(s)
  {
    assert NameRun(s, 0, 0);
  }

  const FamilyEmptyMsg: string := "Family name should not be empty"
  const IllegalFirstMsg: string := "Illegal First Name"
  const IllegalFamilyMsg: string := "Illegal Family Name"
  const BirthMsg: string := "Invalid date of birth"
  const DeathMsg: string := "Invalid date of death"
  const FirstTooLongMsg: string := "First name should be no more than 100 characters long"
  const FamilyBlankMsg: string := "Family name cannot be blank"

  /** The rules of author_create_post, in the order they run. */
  function CreateErrors(lib: Primitives, f: AuthorForm): (r: seq<FieldError>)
    ensures r == [] <==> !AllSpace(f.familyName) && OptionalIso(lib, f.dateOfBirth) && OptionalIso(lib, f.dateOfDeath)
  {
    NamePatternAlwaysMatches(Trim(f.firstName));
    NamePatternAlwaysMatches(Trim(f.familyName));
    TrimEmptyIffAllSpace(f.familyName);
    Check(NamePatternTest(Trim(f.firstName)), "first_name", IllegalFirstMsg)
    + Check(LengthIn(Trim(f.familyName), 1, None), "family_name", FamilyEmptyMsg)
    + Check(NamePatternTest(Trim(f.familyName)), "family_name", IllegalFamilyMsg)
    + Check(OptionalIso(lib, f.dateOfBirth), "date_of_birth", BirthMsg)
    + Check(OptionalIso(lib, f.dateOfDeath), "date_of_death", DeathMsg)
  }

  /** The create errors that can actually arise: a blank family name and malformed dates. */
  function EffectiveCreateErrors(lib: Primitives, f: AuthorForm): seq<FieldError>
  {
    Check(!AllSpace(f.familyName), "family_name", FamilyEmptyMsg)
    + Check(OptionalIso(lib, f.dateOfBirth), "date_of_birth", BirthMsg)
    + Check(OptionalIso(lib, f.dateOfDeath), "date_of_death", DeathMsg)
  }

  /**
   * What the create rules amount to: the two name-pattern errors can never be
   * raised, so a submission fails exactly on a blank family name and on a
   * non-empty date that is not ISO-8601, one error each, in form order.
   */
  lemma CreateErrorsExplained(lib: Primitives, f: AuthorForm)
    ensures CreateErrors(lib, f) == EffectiveCreateErrors(lib, f)
    ensures CreateErrors(lib, f) == []
      <==> !AllSpace(f.familyName) && OptionalIso(lib, f.dateOfBirth) && OptionalIso(lib, f.dateOfDeath)
    ensures forall e | e in CreateErrors(lib, f) :: e.msg != IllegalFirstMsg && e.msg != IllegalFamilyMsg
  {
    NamePatternAlwaysMatches(Trim(f.firstName));
    NamePatternAlwaysMatches(Trim(f.familyName));
    RequiredCheck(f.familyName, "family_name", FamilyEmptyMsg);
    var family := Check(!AllSpace(f.familyName), "family_name", FamilyEmptyMsg);
    var birth := Check(OptionalIso(lib, f.dateOfBirth), "date_of_birth", BirthMsg);
    var death := Check(OptionalIso(lib, f.dateOfDeath), "date_of_death", DeathMsg);
    assert CreateErrors(lib, f) == [] + family + [] + birth + death;
    assert [] + family + [] + birth + death == family + birth + death;
    EffectiveCreateErrorsFacts(lib, f);
  }

  lemma EffectiveCreateErrorsFacts(lib: Primitives, f: AuthorForm)
    ensures EffectiveCreateErrors(lib, f) == []
      <==> !AllSpace(f.familyName) && OptionalIso(lib, f.dateOfBirth) && OptionalIso(lib, f.dateOfDeath)
    ensures forall e | e in EffectiveCreateErrors(lib, f) :: e.msg != IllegalFirstMsg && e.msg != IllegalFamilyMsg
  {
    var family := Check(!AllSpace(f.familyName), "family_name", FamilyEmptyMsg);
    var birth := Check(OptionalIso(lib, f.dateOfBirth), "date_of_birth", BirthMsg);
    var death := Check(OptionalIso(lib, f.dateOfDeath), "date_of_death", DeathMsg);
    assert |family + birth + death| == |family| + |birth| + |death|;
  }

  /** The rules of author_update_post, in the order they run. */
  function UpdateErrors(lib: Primitives, f: AuthorForm): (r: seq<FieldError>)
    ensures r == [] <==>
      |Trim(f.firstName)| <= 100 && !AllSpace(f.familyName)
      && OptionalIso(lib, f.dateOfBirth) && OptionalIso(lib, f.dateOfDeath)
  {
    TrimEmptyIffAllSpace(f.familyName);
    Check(LengthIn(Trim(f.firstName), 0, Some(100)), "first_name", FirstTooLongMsg)
    + Check(LengthIn(Trim(f.familyName), 1, None), "family_name", FamilyBlankMsg)
    + Check(OptionalIso(lib, f.dateOfBirth), "date_of_birth", BirthMsg)
    + Check(OptionalIso(lib, f.dateOfDeath), "date_of_death", DeathMsg)
  }

  /** Every submission the update form accepts, the create form accepts too. */
  lemma UpdateAcceptedImpliesCreateAccepted(lib: Primitives, f: AuthorForm)
    ensures UpdateErrors(lib, f) == [] ==> CreateErrors(lib, f) == []
  {
    CreateErrorsExplained(lib, f);
  }

  /** The author the handlers build from the sanitised body: trimmed and escaped names, parsed dates. */
  function Draft(lib: Primitives, f: AuthorForm): (a: Author)
    ensures a.dateOfBirth.Some? ==> f.dateOfBirth != ""
    ensures a.dateOfDeath.Some? ==> f.dateOfDeath != ""
  {
    Author(lib.escape(Trim(f.firstName)), lib.escape(Trim(f.familyName)),
           SanitizeDate(lib, f.dateOfBirth), SanitizeDate(lib, f.dateOfDeath))
  }

  /** author_detail: a 404 for an unknown id, else the author with the books naming it. */
  method Detail(db: Db, id: Id) returns (out: Outcome<Author, map<Id, Book>>)
    ensures id !in db.authors ==> out == NotFound("Author not found")
    ensures id in db.authors ==> out == Show(db.authors[id], db.BooksByAuthor(id))
  {
    if id !in db.authors {
      return NotFound("Author not found");
    }
    out := Show(db.authors[id], db.BooksByAuthor(id));
  }

  /**
   * author_create_post. Failing rules redisplay the sanitised submission and
   * store nothing; a draft the schema refuses (an empty family name after
   * escaping) is an error and stores nothing; otherwise the author is stored
   * under the new id and the response redirects to its URL.
   */
  method CreatePost(db: Db, lib: Primitives, f: AuthorForm, newId: Id)
    returns (out: Outcome<Author, map<Id, Book>>)
    requires newId !in db.authors
    modifies db
    ensures CreateErrors(lib, f) != [] ==>
      out == Redisplay(Draft(lib, f), CreateErrors(lib, f)) && db.State() == old(db.State())
    ensures CreateErrors(lib, f) == [] && !SchemaAccepts(Draft(lib, f)) ==>
      out.Failed? && db.State() == old(db.State())
    ensures CreateErrors(lib, f) == [] && SchemaAccepts(Draft(lib, f)) ==>
      out == Redirect(Url(newId))
      && db.State() == old(db.State()).(authors := old(db.authors)[newId := Draft(lib, f)])
  {
    var errors := CreateErrors(lib, f);
    var author := Draft(lib, f);
    if errors != [] {
      return Redisplay(author, errors);
    }
    if !SchemaAccepts(author) {
      return Failed("Path `family_name` is required.");
    }
    db.authors := db.authors[newId := author];
    out := Redirect(Url(newId));
  }

  /** author_delete_get: back to the list for an unknown id, else the confirmation page. */
  method DeleteGet(db: Db, id: Id) returns (out: Outcome<Author, map<Id, Book>>)
    ensures id !in db.authors ==> out == Redirect(AuthorListUrl)
    ensures id in db.authors ==> out == Show(db.authors[id], db.BooksByAuthor(id))
  {
    if id !in db.authors {
      return Redirect(AuthorListUrl);
    }
    out := Show(db.authors[id], db.BooksByAuthor(id));
  }

  /**
   * author_delete_post, where `id` is the posted `authorid`, not a route
   * parameter. An unknown id redirects to the list; an author that
   * any book names is kept and shown with exactly those books; otherwise
   * only that author is removed.
   */
  method DeletePost(db: Db, id: Id) returns (out: Outcome<Author, map<Id, Book>>)
    modifies db
    ensures id !in old(db.authors) ==> out == Redirect(AuthorListUrl) && db.State() == old(db.State())
    ensures id in old(db.authors) && old(db.BooksByAuthor(id)) != map[] ==>
      out == Blocked(old(db.authors)[id], old(db.BooksByAuthor(id))) && db.State() == old(db.State())
    ensures id in old(db.authors) && old(db.BooksByAuthor(id)) == map[] ==>
      out == Redirect(AuthorListUrl)
      && db.State() == old(db.State()).(authors := old(db.authors) - {id})
  {
    if id !in db.authors {
      return Redirect(AuthorListUrl);
    }
    var books := db.BooksByAuthor(id);
    if books != map[] {
      return Blocked(db.authors[id], books);
    }
    db.authors := db.authors - {id};
    out := Redirect(AuthorListUrl);
  }

  /** author_update_get: the form is rendered with whatever the lookup found, null included. */
  method UpdateGet(db: Db, id: Id) returns (author: Option<Author>)
    ensures author.Some? <==> id in db.authors
    ensures author.Some? ==> author.value == db.authors[id]
  {
    if id in db.authors {
      author := Some(db.authors[id]);
    } else {
      author := None;
    }
  }

  /**
   * author_update_post. Failing rules redisplay the draft and store nothing;
   * an unknown id is a 404 and stores nothing; otherwise the draft replaces
   * the author under the route id, every other author is kept, and the
   * response redirects to the author's URL.
   */
  method UpdatePost(db: Db, lib: Primitives, id: Id, f: AuthorForm)
    returns (out: Outcome<Author, map<Id, Book>>)
    modifies db
    ensures UpdateErrors(lib, f) != [] ==>
      out == Redisplay(Draft(lib, f), UpdateErrors(lib, f)) && db.State() == old(db.State())
    ensures UpdateErrors(lib, f) == [] && id !in old(db.authors) ==>
      out == NotFound("Author not found") && db.State() == old(db.State())
    ensures UpdateErrors(lib, f) == [] && id in old(db.authors) ==>
      out == Redirect(Url(id))
      && db.authors.Keys == old(db.authors).Keys
      && db.authors[id] == Draft(lib, f)
      && (forall k | k in db.authors && k != id :: db.authors[k] == old(db.authors)[k])
      && db.State() == old(db.State()).(authors := db.authors)
  {
    var errors := UpdateErrors(lib, f);
    var author := Draft(lib, f);
    if errors != [] {
      return Redisplay(author, errors);
    }
    if id !in db.authors {
      return NotFound("Author not found");
    }
    db.authors := db.authors[id := author];
    out := Redirect(Url(id));
  }
}
