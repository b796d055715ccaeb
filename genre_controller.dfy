/**
 * controllers/genreController.js: the genre list's page count, the detail
 * page, create-by-name, delete guarded by the books that use the genre, and
 * update under the route id.
 */
module GenreController {
  import opened Library
  import opened Forms
  import opened CatalogStore

  const Tag: string := "local-library:genre"
  const GenreListUrl: string := "/catalog/genres"
  const CreateNameMsg: string := "Genre name required"
  const UpdateNameMsg: string := "Genre name must be between 1 and 100 in length"

  /** The rule of genre_create_post: the trimmed name must not be empty. */
  function CreateErrors(name: string): (r: seq<FieldError>)
    ensures r == [] <==> !AllSpace(name)
    ensures r != [] ==> r == [FieldError("name", CreateNameMsg)]
  {
    TrimEmptyIffAllSpace(name);
    Check(LengthIn(Trim(name), 1, None), "name", CreateNameMsg)
  }

  /** The rule of genre_update_post: the trimmed name must be 1 to 100 characters long. */
  function UpdateErrors(name: string): (r: seq<FieldError>)
    ensures r == [] <==> !AllSpace(name) && |Trim(name)| <= 100
    ensures r != [] ==> r == [FieldError("name", UpdateNameMsg)]
  {
    TrimEmptyIffAllSpace(name);
    Check(LengthIn(Trim(name), 1, Some(100)), "name", UpdateNameMsg)
  }

  /** `new Genre({name: req.body.name})` after trim() and escape(). */
  function Draft(lib: Primitives, name: string): (g: Genre)
    ensures g.name == lib.escape(Trim(name))
  {
    Genre(lib.escape(Trim(name)))
  }

  /** logString(genre): the whole document. */
  function GenreJson(id: Id, g: Genre): Payload
  {
    Doc([Member("_id", JString(id)), Member("name", JString(g.name))])
  }

  /** `Genre.findOne({name})` found something: some stored genre has exactly this name. */
  predicate NameTaken(genres: map<Id, Genre>, name: string)
    ensures !NameTaken(genres, name) <==> forall k | k in genres :: genres[k].name != name
  {
    exists k :: k in genres && genres[k].name == name
  }

  /** genre_detail: a 404 for an unknown id, else the genre with the books filed under it. */
  method Detail(db: Db, id: Id) returns (out: Outcome<Genre, map<Id, Book>>)
    ensures id !in db.genres ==> out == NotFound("Genre not found")
    ensures id in db.genres ==> out == Show(db.genres[id], db.BooksByGenre(id))
  {
    if id !in db.genres {
      return NotFound("Genre not found");
    }
    out := Show(db.genres[id], db.BooksByGenre(id));
  }

  /**
   * genre_create_post. An invalid name redisplays the form and stores
   * nothing; a name equal to a stored genre's name redirects to that genre
   * and stores nothing; any other name is stored once, under the new id.
   */
  method CreatePost(db: Db, lib: Primitives, name: string, newId: Id)
    returns (out: Outcome<Genre, map<Id, Book>>)
    requires newId !in db.genres
    modifies db
    ensures CreateErrors(name) != [] ==>
      out == Redisplay(Draft(lib, name), CreateErrors(name)) && db.State() == old(db.State())
    ensures CreateErrors(name) == [] && NameTaken(old(db.genres), Draft(lib, name).name) ==>
      db.State() == old(db.State())
      && exists k :: k in db.genres && db.genres[k] == Draft(lib, name) && out == Redirect(GenreUrl(k))
    ensures CreateErrors(name) == [] && !NameTaken(old(db.genres), Draft(lib, name).name) ==>
      out == Redirect(GenreUrl(newId))
      && db.State() == old(db.State()).(
           genres := old(db.genres)[newId := Draft(lib, name)],
           log := old(db.log) + [LogEntry(Tag, "create", GenreJson(newId, Draft(lib, name)))])
  {
    var errors := CreateErrors(name);
    var genre := Draft(lib, name);
    if errors != [] {
      return Redisplay(genre, errors);
    }
    if NameTaken(db.genres, genre.name) {
      var found :| found in db.genres && db.genres[found].name == genre.name;
      return Redirect(GenreUrl(found));
    }
    db.genres := db.genres[newId := genre];
    db.log := db.log + [LogEntry(Tag, "create", GenreJson(newId, genre))];
    out := Redirect(GenreUrl(newId));
  }

  /** genre_delete_get: back to the list for an unknown id, else the confirmation page. */
  method DeleteGet(db: Db, id: Id) returns (out: Outcome<Genre, map<Id, Book>>)
    ensures id !in db.genres ==> out == Redirect(GenreListUrl)
    ensures id in db.genres ==> out == Show(db.genres[id], db.BooksByGenre(id))
  {
    if id !in db.genres {
      return Redirect(GenreListUrl);
    }
    out := Show(db.genres[id], db.BooksByGenre(id));
  }

  /**
   * genre_delete_post, where `id` is the posted `genreid`, not a route
   * parameter. An unknown id redirects to the list; a genre that any
   * book names is kept and shown with exactly those books; otherwise the
   * genre is removed and nothing else changes but the log.
   */
  method DeletePost(db: Db, id: Id) returns (out: Outcome<Genre, map<Id, Book>>)
    modifies db
    ensures id !in old(db.genres) ==> out == Redirect(GenreListUrl) && db.State() == old(db.State())
    ensures id in old(db.genres) && old(db.BooksByGenre(id)) != map[] ==>
      out == Blocked(old(db.genres)[id], old(db.BooksByGenre(id))) && db.State() == old(db.State())
    ensures id in old(db.genres) && old(db.BooksByGenre(id)) == map[] ==>
      out == Redirect(GenreListUrl)
      && db.State() == old(db.State()).(
           genres := old(db.genres) - {id},
           log := old(db.log) + [LogEntry(Tag, "delete", GenreJson(id, old(db.genres)[id]))])
  {
    if id !in db.genres {
      return Redirect(GenreListUrl);
    }
    var genre := db.genres[id];
    var books := db.BooksByGenre(id);
    if books != map[] {
      return Blocked(genre, books);
    }
    db.genres := db.genres - {id};
    db.log := db.log + [LogEntry(Tag, "delete", GenreJson(id, genre))];
    out := Redirect(GenreListUrl);
  }

  /**
   * genre_update_get: looks the genre up without a null check, logs the
   * attempt (`null` for an unknown id) and renders the form with what it found.
   */
  method UpdateGet(db: Db, id: Id) returns (genre: Option<Genre>)
    modifies db
    ensures genre == (if id in old(db.genres) then Some(old(db.genres)[id]) else None)
    ensures db.State() == old(db.State()).(
      log := old(db.log) + [LogEntry(Tag, "update attempt",
                                     if id in old(db.genres) then GenreJson(id, old(db.genres)[id]) else NullDoc)])
  {
    genre := if id in db.genres then Some(db.genres[id]) else None;
    var payload := if id in db.genres then GenreJson(id, db.genres[id]) else NullDoc;
    db.log := db.log + [LogEntry(Tag, "update attempt", payload)];
  }

  /**
   * genre_update_post. An invalid name redisplays the form and stores
   * nothing. A valid one overwrites the genre stored under the route id and
   * no other key; for an unknown id the log line is written, nothing is
   * stored, and reading `thegenre.url` from the null result fails.
   */
  method UpdatePost(db: Db, lib: Primitives, id: Id, name: string)
    returns (out: Outcome<Genre, map<Id, Book>>)
    modifies db
    ensures UpdateErrors(name) != [] ==>
      out == Redisplay(Draft(lib, name), UpdateErrors(name)) && db.State() == old(db.State())
    ensures UpdateErrors(name) == [] ==>
      db.log == old(db.log) + [LogEntry(Tag, "update complete", GenreJson(id, Draft(lib, name)))]
    ensures UpdateErrors(name) == [] && id in old(db.genres) ==>
      out == Redirect(GenreUrl(id))
      && db.genres == old(db.genres)[id := Draft(lib, name)]
      && db.genres.Keys == old(db.genres).Keys
      && db.State() == old(db.State()).(genres := db.genres, log := db.log)
    ensures UpdateErrors(name) == [] && id !in old(db.genres) ==>
      out.Failed? && db.State() == old(db.State()).(log := db.log)
  {
    var errors := UpdateErrors(name);
    var genre := Draft(lib, name);
    if errors != [] {
      return Redisplay(genre, errors);
    }
    var found := id in db.genres;
    if found {
      db.genres := db.genres[id := genre];
    }
    db.log := db.log + [LogEntry(Tag, "update complete", GenreJson(id, genre))];
    if !found {
      return Failed("Cannot read property 'url' of null");
    }
    out := Redirect(GenreUrl(id));
  }
}
