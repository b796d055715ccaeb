/**
 * The database the controllers talk to, held in memory: one map from
 * document id to record per collection, the users in the order the
 * collection returns them, and the audit log the controllers append to.
 *
 * models/book.js and models/genre.js are not part of this model: the Book and
 * Genre records below carry the fields the controllers read and write, and
 * their `url` virtuals follow the pattern of the two model files that are.
 */
module CatalogStore {
  import opened Library
  import AuthorModel
  import BookInstanceModel
  import UserModel

  datatype Genre = Genre(name: string)

  /** A book; `author` and each entry of `genre` are ids of other documents. */
  datatype Book = Book(title: string, author: Id, summary: string, isbn: string, genre: seq<Id>)

  const GenreUrlPrefix: string := "/catalog/genre/"
  const BookUrlPrefix: string := "/catalog/book/"

  function GenreUrl(id: Id): (r: string)
    ensures GenreUrlPrefix <= r && r[|GenreUrlPrefix|..] == id
  {
    GenreUrlPrefix + id
  }

  function BookUrl(id: Id): (r: string)
    ensures BookUrlPrefix <= r && r[|BookUrlPrefix|..] == id
  {
    BookUrlPrefix + id
  }

  /** The values `JSON.stringify` writes for the fields of a logged document. */
  datatype JsonValue = JNull | JString(s: string) | JStrings(items: seq<string>) | JDate(t: Time)

  datatype Member = Member(key: string, value: JsonValue)

  /** What a log message carries after its action word. */
  datatype Payload =
    | Doc(members: seq<Member>)   // a document serialised by JSON.stringify
    | NullDoc                     // JSON.stringify(null)
    | Text(s: string)             // a string written as it is

  /**
   * One call of utils/logger.js's `log(consoleLogger, label, msg)`: the
   * controller's tag, the action words that start the message, and what
   * follows them.
   */
  datatype LogEntry = LogEntry(tag: string, action: string, payload: Payload)

  /** Everything the store holds, as one value. */
  datatype Snapshot = Snapshot(
    authors: map<Id, AuthorModel.Author>,
    genres: map<Id, Genre>,
    books: map<Id, Book>,
    instances: map<Id, BookInstanceModel.BookInstance>,
    users: seq<UserModel.User>,
    log: seq<LogEntry>)

  class Db {
    var authors: map<Id, AuthorModel.Author>
    var genres: map<Id, Genre>
    var books: map<Id, Book>
    var instances: map<Id, BookInstanceModel.BookInstance>
    var users: seq<UserModel.User>
    var log: seq<LogEntry>

    /** The unique indexes of the user collection hold. */
    ghost predicate Valid()
      reads this
    {
      UserModel.UsersUnique(users)
    }

    /** An empty database. */
    constructor ()
      ensures Valid()
      ensures State() == Snapshot(map[], map[], map[], map[], [], [])
    {
      authors, genres, books, instances := map[], map[], map[], map[];
      users, log := [], [];
    }

    function State(): Snapshot
      reads this
    {
      Snapshot(authors, genres, books, instances, users, log)
    }

    /** `Book.find({author: id})`: the books that name this author. */
    function BooksByAuthor(id: Id): (r: map<Id, Book>)
      reads this
      ensures forall k :: k in r <==> k in books && books[k].author == id
      ensures forall k :: k in r ==> r[k] == books[k]
    {
      map k | k in books && books[k].author == id :: books[k]
    }

    /** `Book.find({genre: id})`: the books whose genre list contains this genre. */
    function BooksByGenre(id: Id): (r: map<Id, Book>)
      reads this
      ensures forall k :: k in r <==> k in books && id in books[k].genre
      ensures forall k :: k in r ==> r[k] == books[k]
    {
      map k | k in books && id in books[k].genre :: books[k]
    }

    /** `BookInstance.find({book: id})`: the copies of this book. */
    function InstancesOfBook(id: Id): (r: map<Id, BookInstanceModel.BookInstance>)
      reads this
      ensures forall k :: k in r <==> k in instances && instances[k].book == id
      ensures forall k :: k in r ==> r[k] == instances[k]
    {
      map k | k in instances && instances[k].book == id :: instances[k]
    }
  }
}
