# Local library catalogue: a Dafny model

This project models the core of an Express/Mongoose "local library" web
application: the catalogue of books, authors, genres and book copies
(book instances), and its users.

**Forms.** The catalogue's forms are checked by express-validator rule
chains. Each failing validator adds one `{field, message}` error. The model
states exactly which submissions each form accepts and which errors it
reports, in order. A sanitiser (`escape()`, `toDate()`) writes its result
back to the body even for a field the body did not carry, applying itself to
"" there; the copy form is the one whose fields may be missing.

**Handlers.** Every create, delete and update handler becomes a method on an
in-memory store (`CatalogStore.Db`: one map per collection, the user list and
the audit log). Each method's postcondition gives the whole new state and the
response in every case:
- redisplay of the form;
- a redirect;
- a refused delete that lists the records blocking it;
- a 404;
- an error passed on.

**Loops.** The loops that mark the selected genres and books on the edit
forms are methods over arrays. They are proved against the functions that
specify them.

**Users and routes.** Registration, the local sign-in strategy and session
serialisation are modelled over the user list. So is the catalogue router
with its login and privilege guards.

**Library primitives.** Functions from third-party libraries are fields of a
`Primitives` value that every caller receives:
- HTML escaping, ISO-8601 and e-mail recognition and e-mail normalisation
  (validator);
- date parsing and date formatting (moment).

Whitespace trimming, `isAscii` and `indexOf` are defined concretely, because
the accepted forms and the privilege check depend on them.

Files:
- `library.dfy`: Option, ids, times, trimming, indexOf, the primitives.
- `forms.dfy`: errors, the validator shapes, outcomes, page counts.
- `author_model.dfy`, `bookinstance_model.dfy`, `user_model.dfy`: the three
  schemas and their virtuals.
- `store.dfy`: the documents, log entries and the `Db` class.
- `author_controller.dfy`, `genre_controller.dfy`, `book_controller.dfy`,
  `bookinstance_controller.dfy`, `user_controller.dfy`: the controllers.
- `passport.dfy`: sign-in and sessions.
- `catalog_routes.dfy`: the catalogue router and its guards.

## Model

| member | source | states |
|---|---|---|
| Library.TrimIsSlice | controllers/genreController.js:64 | `trim()` returns a contiguous slice of its input whose cut-off margins are whitespace only, and the slice neither starts nor ends with whitespace |
| Library.TrimEmptyIffAllSpace | controllers/genreController.js:64 | a value is empty after `trim()` exactly when it is empty or whitespace only |
| Library.TrimIdempotent | controllers/bookController.js:104-107 | trimming an already trimmed value changes nothing |
| Library.IndexOfItem | controllers/bookController.js:133 | `Array.indexOf` gives -1 exactly when the item is absent, and otherwise an index that holds the item with no earlier occurrence |
| Library.IndexOfItemAt | controllers/bookinstanceController.js:144-150 | an index that holds the item, with no earlier occurrence, is the one `indexOf` reports |
| Library.IndexOf | routes/catalog.js:21 | `String.indexOf` gives -1 exactly when the needle occurs nowhere, and otherwise the first position where it occurs |
| Forms.Check | controllers/genreController.js:64 | a validator adds no error when its test holds, and otherwise exactly one error for its own field and message |
| Forms.SanitizeDate | controllers/authorController.js:67-68 | `toDate()` stores no date for an empty input and the parsed date (or none) otherwise |
| Forms.RequiredCheck | controllers/bookController.js:104-107 | a `trim().isLength({min: 1})` chain fails exactly on an empty or whitespace-only value |
| Forms.CountPages | controllers/genreController.js:24-25 | `Math.ceil(count / limit)` is not finite exactly for a limit of 0; otherwise it is the fewest pages of `limit` items that hold every item |
| AuthorModel.Name | models/author.js:15-23 | the name is empty exactly when the family name is; it starts with the family name and adds ", first" only when both names are set |
| AuthorModel.SchemaAccepts | models/author.js:6-13 | the schema accepts an author exactly when its `name` virtual is non-empty, that is when the family name is set |
| AuthorModel.Url | models/author.js:33-37 | the URL is the author prefix followed by the id, which can be read back |
| AuthorModel.UrlInjective | models/author.js:33-37 | different authors have different URLs |
| AuthorModel.FormDisplayDate | models/author.js:25-27 | an absent date is shown as "", and a present one in the YYYY-MM-DD pattern |
| AuthorModel.DetailDate | models/author.js:29-31 | an absent date is shown as "", and a present one in the "MMM Do, YYYY" pattern |
| AuthorModel.Lifespan | models/author.js:52-61 | with neither date set the lifespan is "Unknown" |
| AuthorModel.LifespanOfDates | models/author.js:52-61 | when present dates format as non-empty text, the lifespan is "Unknown" exactly when neither date is set; otherwise it is (birth or "Unknown") + " - " + (death or "") |
| UserModel.Name | models/user.js:18-21 | the name is "last, first", and both names can be read back from it at fixed positions |
| UserModel.SchemaAccepts | models/user.js:4-16 | the schema accepts a user exactly when all five fields are non-empty and the role is "admin", "librarian" or "user"; so a user with an empty password, like the redisplayed registration draft, can never be saved |
| UserModel.FindById | utils/passport.js:33-37 | `findById` finds nothing exactly when no stored user has the id, and otherwise a stored user with that id |
| UserModel.FindByUsername | utils/passport.js:13 | `findOne({username})` finds nothing exactly when no stored user has the username, and otherwise a stored user with it |
| UserModel.FindByIdUnique | models/user.js:4-16 | with unique ids, looking up a stored user's id finds that user |
| UserModel.FindByUsernameUnique | models/user.js:8 | with unique usernames, looking up a stored user's username finds that user |
| BookInstanceModel.NewInstance | models/bookinstance.js:11-17 | a new copy keeps the given book, imprint and borrower; an unset status becomes "Maintenance" and an unset due date becomes the schema-load instant |
| BookInstanceModel.DefaultDueBackIsShared | models/bookinstance.js:16 | every copy created without a due date gets the same due date, the instant the schema was loaded |
| BookInstanceModel.Url | models/bookinstance.js:21-25 | the URL is the copy prefix followed by the id, which can be read back |
| BookInstanceModel.DueBackMillis | models/bookinstance.js:39-43 | a due date compares as its time, and a null one as 0 |
| BookInstanceModel.Overdue | models/bookinstance.js:39-43 | a copy is overdue exactly when its due date (0 for none) is before now |
| BookInstanceModel.OverdueStaysOverdue | models/bookinstance.js:39-43 | once overdue, a copy stays overdue as time goes on |
| BookInstanceModel.NotOverdueUntilDue | models/bookinstance.js:39-43 | a copy due now or later is not overdue |
| BookInstanceModel.DueBackFormatted | models/bookinstance.js:27-31 | the due date is shown as MM/DD/YYYY, and a null one as "Invalid date" |
| BookInstanceModel.DueBackForForm | models/bookinstance.js:33-37 | the due date is shown as YYYY-MM-DD, and a null one as "Invalid date" |
| BookInstanceModel.SchemaAccepts | models/bookinstance.js:7-19 | an accepted copy has one of the four statuses; a copy with a book, an imprint and the default status is accepted |
| CatalogStore.GenreUrl | controllers/genreController.js:87 | a genre's URL is the genre prefix followed by the id, which can be read back |
| CatalogStore.BookUrl | controllers/bookController.js:148 | a book's URL is the book prefix followed by the id, which can be read back |
| CatalogStore.Db.BooksByAuthor | controllers/authorController.js:21 | holds exactly the stored books naming the author, with their stored values |
| CatalogStore.Db.BooksByGenre | controllers/genreController.js:41 | holds exactly the stored books whose genre list contains the genre, with their stored values |
| CatalogStore.Db.InstancesOfBook | controllers/bookController.js:53-56 | holds exactly the stored copies of the book, with their stored values |
| AuthorController.NamePatternAlwaysMatches | controllers/authorController.js:7 | the unanchored name pattern matches every string, because it matches the empty run at position 0 |
| AuthorController.CreateErrors | controllers/authorController.js:43-64 | a submission passes exactly when the family name is not blank and each date is empty or ISO-8601 |
| AuthorController.CreateErrorsExplained | controllers/authorController.js:43-64 | create errors equal the ones that can really arise; a submission passes exactly when the family name is not blank and each date is empty or ISO-8601; the two "Illegal ... Name" errors never appear |
| AuthorController.UpdateErrors | controllers/authorController.js:165-169 | an update passes exactly when the trimmed first name has at most 100 characters, the family name is not blank and each date is empty or ISO-8601 |
| AuthorController.UpdateAcceptedImpliesCreateAccepted | controllers/authorController.js:164-169 | every submission the update rules accept, the create rules accept too |
| AuthorController.Draft | controllers/authorController.js:65-68 | a stored date is present only when the submitted date was non-empty |
| AuthorController.Detail | controllers/authorController.js:18-36 | an unknown id is a 404; otherwise the page shows the author with exactly the books naming it |
| AuthorController.CreatePost | controllers/authorController.js:42-98 | failing rules redisplay the draft and store nothing; a draft the schema refuses stores nothing; otherwise only the new author is added and the response redirects to its URL |
| AuthorController.DeleteGet | controllers/authorController.js:100-119 | an unknown id redirects to the author list; otherwise the page shows the author with its books |
| AuthorController.DeletePost | controllers/authorController.js:122-148 | an unknown id changes nothing; an author some book names is kept and shown with exactly those books; otherwise only that author is removed |
| AuthorController.UpdateGet | controllers/authorController.js:151-161 | the form gets the stored author, or nothing for an unknown id |
| AuthorController.UpdatePost | controllers/authorController.js:164-202 | failing rules and unknown ids change nothing; otherwise the draft replaces the author under the route id, every other author and every key is kept, and the response redirects |
| GenreController.CreateErrors | controllers/genreController.js:64 | the name passes exactly when it is not blank; otherwise the only error is "Genre name required" |
| GenreController.Draft | controllers/genreController.js:66-73 | the genre built from the form has the escaped trimmed name |
| GenreController.NameTaken | controllers/genreController.js:78-82 | a name is free exactly when no stored genre has it |
| GenreController.UpdateErrors | controllers/genreController.js:168-169 | the name passes exactly when it is not blank and has at most 100 characters once trimmed; otherwise there is exactly one error |
| GenreController.Detail | controllers/genreController.js:38-55 | an unknown id is a 404; otherwise the page shows the genre with exactly the books filed under it |
| GenreController.CreatePost | controllers/genreController.js:63-93 | an invalid name stores nothing; a name already stored redirects to a genre with that name and stores nothing; otherwise only the new genre is added and logged |
| GenreController.DeleteGet | controllers/genreController.js:96-116 | an unknown id redirects to the genre list; otherwise the page shows the genre with its books |
| GenreController.DeletePost | controllers/genreController.js:119-150 | an unknown id changes nothing; a genre in use is kept and shown with exactly its books; otherwise only that genre is removed and logged |
| GenreController.UpdateGet | controllers/genreController.js:153-164 | the form gets the stored genre or nothing, and the attempt is logged (`null` for an unknown id) |
| GenreController.UpdatePost | controllers/genreController.js:167-191 | an invalid name changes nothing; otherwise the new name is logged and stored under the route id only, without adding a key; an unknown id then fails |
| BookController.BookBody.GenreToArray | controllers/bookController.js:291-300 | afterwards `genre` is a list; an absent input becomes [], a single value a one-element list, and a list stays as it was; the submission is unchanged |
| BookController.RequiredIsBlank | controllers/bookController.js:104-107 | the four trim-then-length rules report exactly the blank fields, in form order |
| BookController.RequiredErrorsExact | controllers/bookController.js:104-107 | each blank field gets its own error and nothing else is reported; no field is reported twice; no errors exactly when no field is blank |
| BookController.RequiredErrors | controllers/bookController.js:104-107 | at most four errors, and none exactly when no required field is blank |
| BookController.CreateErrors | controllers/bookController.js:104-107 | a new book passes exactly when title, author, summary and ISBN are all not blank |
| BookController.UpdateErrors | controllers/bookController.js:256-259 | an update reports errors for the same fields, in the same order, as create would |
| BookController.Draft | controllers/bookController.js:109-120 | the book built from the form holds the escaped trimmed fields and each genre id escaped, in order |
| BookController.CreateUpdateAgree | controllers/bookController.js:256-259 | create and update reject the same submissions, naming the same fields in the same order (only the messages differ) |
| BookController.EscapeAll | controllers/bookController.js:265 | every genre id is escaped, and the list keeps its length and order |
| BookController.Redact | controllers/bookController.js:326-331 | the replacer never lengthens the payload and leaves no member keyed "summary" |
| BookController.RedactMembers | controllers/bookController.js:326-331 | the logString replacer drops exactly the members keyed "summary" |
| BookController.RedactKeepsSummaryFree | controllers/bookController.js:326-331 | a payload without a summary is logged unchanged |
| BookController.RedactIdempotent | controllers/bookController.js:326-331 | redacting twice is redacting once |
| BookController.LogString | controllers/bookController.js:326-331 | the logged book starts with its id and carries no summary |
| BookController.LogStringFields | controllers/bookController.js:326-331 | a logged book carries its id, title, author, ISBN and genres in order, and no summary |
| BookController.Marked | controllers/bookController.js:132-136 | marking keeps a genre's id and name, and leaves it checked exactly when it was checked or the book names it |
| BookController.MarkCheckedIndexOf | controllers/bookController.js:132-136 | after the `indexOf` loop, every listed genre is marked exactly by the book's genre list |
| BookController.MarkCheckedNested | controllers/bookController.js:234-240 | after the nested loops, every listed genre is marked exactly by the book's genre list |
| BookController.MarkedListing | controllers/bookController.js:132-136 | on a fresh listing a genre ends up checked exactly when the book names it |
| BookController.Detail | controllers/bookController.js:45-71 | an unknown id is a 404; otherwise the page shows the book with exactly its copies |
| BookController.CreatePost | controllers/bookController.js:92-152 | failing rules redisplay the draft with exactly the named genres checked and store nothing; otherwise only the new book is added and its redacted JSON is logged |
| BookController.DeleteGet | controllers/bookController.js:155-179 | an unknown id redirects to the book list; otherwise the page shows the book with its copies |
| BookController.DeletePost | controllers/bookController.js:182-213 | an unknown id changes nothing; a book with copies is kept and shown with exactly those copies; otherwise only that book is removed and logged |
| BookController.UpdateGet | controllers/bookController.js:216-249 | an unknown id is a 404 and changes nothing; otherwise exactly the book's genres are checked and the attempt is logged |
| BookController.UpdatePost | controllers/bookController.js:252-289 | failing rules change nothing and end in an error; otherwise the draft is logged and stored under the route id only; an unknown id then fails |
| BookInstanceController.CreateErrorsExplained | controllers/bookinstanceController.js:68-73 | a copy passes create exactly when the book is not blank, the trimmed imprint has 1 to 100 characters and the due date is empty or ISO-8601, whatever the status |
| BookInstanceController.CreateErrors | controllers/bookinstanceController.js:68-73 | create reports at most three errors, only for the book, the imprint and the due date |
| BookInstanceController.StatusLegal | controllers/bookinstanceController.js:170-181 | the status rule passes exactly for "Maintenance", "Loaned", "Available" and "Reserved" |
| BookInstanceController.LoanUnresolved | controllers/bookinstanceController.js:188-195 | a loan that passes the rule names a borrower some stored user has as id; a status other than "Loaned" always passes |
| BookInstanceController.UpdateErrors | controllers/bookinstanceController.js:165-195 | update reports at most five errors, only for the book, the imprint, the due date and the status |
| BookInstanceController.UpdateErrorsExplained | controllers/bookinstanceController.js:165-195 | an update passes exactly when the create rules pass, the raw status is one of the four, and a loan names a known user |
| BookInstanceController.IllegalStatusReported | controllers/bookinstanceController.js:170-181 | "Illegal status" is reported exactly for a missing or unknown raw status |
| BookInstanceController.LoanRuleReported | controllers/bookinstanceController.js:188-195 | "Cannot find user" is reported exactly for a loan without a known borrower; other statuses never depend on the user list |
| BookInstanceController.CreateStatusLeftToSchema | controllers/bookinstanceController.js:74-86 | create never checks the status: an escaped status outside the enum is refused only by the schema |
| BookInstanceController.CreateDraft | controllers/bookinstanceController.js:74-86 | the new copy holds the escaped trimmed book and imprint and the escaped status, with "" escaped for a missing one; a missing or empty due date gives no date, and any other is parsed; there is no borrower |
| BookInstanceController.CreateDraftSkipsDefaults | controllers/bookinstanceController.js:74-86 | the created copy is `new BookInstance` with every path given, so no schema default applies, and a copy created without a due date has none rather than the schema-load instant |
| BookInstanceController.CreateWithoutStatusRefused | controllers/bookinstanceController.js:74-86 | given that escaping "" gives "", a create whose body carries no status is refused by the schema, because the sanitiser writes "" over it |
| BookInstanceController.UpdateDraft | controllers/bookinstanceController.js:182-208 | the update document is the create draft plus the escaped borrower when the body carries one; without one it has no borrower path |
| BookInstanceController.ApplyUpdate | controllers/bookinstanceController.js:212-213 | `findByIdAndUpdate` takes book, imprint, status and due date from the document, and keeps the stored borrower when the document has none |
| BookInstanceController.UpdateAcceptedWritesValidLoan | controllers/bookinstanceController.js:188-208 | an accepted update writes an enum status, and a loan writes a borrower that resolves to a stored user |
| BookInstanceController.UpdateStoresValidLoan | controllers/bookinstanceController.js:188-217 | after an accepted update the stored copy has an enum status, and a loaned copy's borrower resolves to a stored user |
| BookInstanceController.InstanceJson | controllers/bookinstanceController.js:240-242 | the logged copy lists `_id`, book, imprint, status, due date (null when unset) and, when set, the borrower, in that order and with distinct keys |
| BookInstanceController.MarkSelected | controllers/bookinstanceController.js:144-150 | the loop leaves the list exactly as `Selected` specifies: only the first entry with the copy's book is selected |
| BookInstanceController.SelectedExactlyTheBook | controllers/bookinstanceController.js:144-150 | on a fresh listing exactly the copy's book is selected, the entries keep their ids and titles, and a stored book is always found |
| BookInstanceController.Detail | controllers/bookinstanceController.js:36-52 | an unknown id is a 404; a copy whose book is gone fails; otherwise the page shows the copy with its book |
| BookInstanceController.CreatePost | controllers/bookinstanceController.js:67-105 | failing rules redisplay the draft and store nothing; a draft the schema refuses stores nothing; otherwise only the new copy is added and logged |
| BookInstanceController.DeleteGet | controllers/bookinstanceController.js:108-118 | the page gets the stored copy, or nothing for an unknown id |
| BookInstanceController.DeletePost | controllers/bookinstanceController.js:121-127 | with no check of any kind, the copy is gone afterwards, only it is removed, and the id is logged |
| BookInstanceController.UpdateGet | controllers/bookinstanceController.js:130-161 | an unknown id or a dangling book changes nothing; otherwise the copy's book is selected and the attempt is logged |
| BookInstanceController.UpdatePost | controllers/bookinstanceController.js:164-220 | failing rules redisplay and change nothing; otherwise the update document is logged and merged into the copy under the route id only (a borrower the form did not send is kept); an unknown id then fails |
| Passport.AuthenticateOutcomes | utils/passport.js:12-26 | "Username does not exist" exactly when no user has the name; "Incorrect password" exactly when the found user's password does not verify; success only with that user and a verified password |
| Passport.SignInIff | utils/passport.js:12-26 | with unique usernames, sign-in succeeds exactly when a stored user has the username and the password verifies, and it signs in that user |
| Passport.SessionRoundTrip | utils/passport.js:29-37 | serialising a stored user and deserialising the id gives back that user |
| Passport.StaleSessionIsAnonymous | utils/passport.js:33-37 | a session whose user is no longer stored deserialises to no user |
| Passport.Authenticate | utils/passport.js:12-26 | sign-in succeeds only with a stored user of that name whose password verifies; it is refused with one of the two messages, and with "Username does not exist" exactly when no user has the name |
| Passport.Serialize | utils/passport.js:29-31 | the session stores the user's id |
| Passport.Deserialize | utils/passport.js:33-37 | a session id gives no user exactly when no stored user has it, and otherwise a stored user with that id |
| UserController.UsernamePatternIsAscii | controllers/userController.js:24-34 | a username that matches the pattern is ASCII, so the isAscii rule adds no error of its own |
| UserController.RegisterErrors | controllers/userController.js:14-42 | "Username contains Illegal Characters" is reported exactly when the trimmed username breaks the pattern, and "Passwords do not match" exactly when the passwords differ |
| UserController.RegisterErrorsExplained | controllers/userController.js:14-42 | a registration passes exactly when both trimmed names are 1 to 100 letters or hyphens, the trimmed username has 4 to 40 pattern characters, the e-mail address is valid and the passwords match |
| UserController.MismatchReported | controllers/userController.js:36-42 | mismatched passwords always end the error list with "Passwords do not match" |
| UserController.Draft | controllers/userController.js:49-55 | the user built for the form has an empty password, the default role and the new id |
| UserController.FirstClash | controllers/userController.js:63-66 | gives -1 exactly when no stored user shares the username or the e-mail address, and otherwise the first user who does |
| UserController.DupNamesTheClash | controllers/userController.js:69-73 | the page names the username exactly when the first clash has it, and names the e-mail address only when the clash shares the address and not the username |
| UserController.RegisterPost | controllers/userController.js:13-89 | errors, duplicates and schema refusals save nothing; otherwise the user with the submitted password is appended and the response goes to the login page; unique usernames, e-mail addresses and ids keep holding |
| UserController.AppendKeepsUnique | models/user.js:7-8 | appending a user whose id, username and e-mail address are new keeps them unique |
| UserController.RegisteredUserSignsIn | controllers/userController.js:76-83 | a newly registered user is the one sign-in finds under its username, and signs in exactly when the password verifies |
| CatalogRoutes.SegmentsDistinct | routes/catalog.js:38-60 | distinct entities have distinct path segments, and no list segment names a single entity |
| CatalogRoutes.ModifyRoutesShape | routes/catalog.js:65-140 | every guarded route reaches a create, update or delete handler and starts with its entity's segment |
| CatalogRoutes.OpenRoutesShape | routes/catalog.js:36-60 | every open route is a GET of the home, a detail or a list page |
| CatalogRoutes.PageRoutesOpen | routes/catalog.js:38-60 | each entity's detail and list pages are registered on the open router |
| CatalogRoutes.FirstRoute | app.js:74 | the route picked is in the table and matches, and no route matches when none is picked |
| CatalogRoutes.FirstRouteOfAppend | app.js:74 | when the first match in two tables comes from the second, no route of the first matches |
| CatalogRoutes.Lookup | app.js:74 | a route found is registered and matches; an open route is found only when no guarded route matches; no route is found only when none matches |
| CatalogRoutes.Guarded | routes/catalog.js:30-33 | a path is guarded exactly when its first segment is "book", "author", "genre" or "bookinstance" |
| CatalogRoutes.PrivilegeAdmits | routes/catalog.js:19-28 | `priv.indexOf(role) >= 0` exactly when the role occurs somewhere in the privilege string |
| CatalogRoutes.Decide | routes/catalog.js:11-33 | a guarded path sends an anonymous request to login and refuses a signed-in role the privilege does not admit; otherwise the handler run is the route lookup's, and no route means none matched |
| CatalogRoutes.OnlyAdminPasses | routes/catalog.js:19-28 | of the schema's roles, only "admin" passes `"admin".indexOf(role)` |
| CatalogRoutes.MutationRoutesAreGuarded | routes/catalog.js:30-33 | every path that reaches a create, update or delete handler starts with a guarded prefix |
| CatalogRoutes.MutationsNeedAdmin | routes/catalog.js:11-33 | no create, update or delete handler runs for an anonymous request or for any role but admin |
| CatalogRoutes.AnonymousSentToLogin | routes/catalog.js:11-17 | on a guarded prefix an anonymous request is sent to the login page, never refused with 403 |
| CatalogRoutes.AdminPassesGuard | routes/catalog.js:19-28 | an admin passes both checks, so the route table alone decides |
| CatalogRoutes.ListPagesOpen | routes/catalog.js:36-60 | the home page and the four list pages reach their handlers for everyone |
| CatalogRoutes.DetailPagesGuardedAsWritten | routes/catalog.js:30-39 | as written, an anonymous GET of a detail page is sent to the login page |
| CatalogRoutes.LibrarianForbiddenAsWritten | routes/catalog.js:19-30 | as written, a librarian creating a book is refused with 403 |
| CatalogRoutes.IntendedGuard | routes/catalog.js:19-33 | in the corrected pipeline, mutations run exactly for a signed-in admin or librarian, and every other handler runs for anyone |
| CatalogRoutes.IntendedDetailPagesOpen | routes/catalog.js:36-60 | in the corrected pipeline, an anonymous visitor reaches every detail page |

## Left out

- I/O and plumbing are not modelled: the server (app.js), view rendering, the debug and winston logger sinks (a log call is one `LogEntry`), `async.parallel`, and database errors and their `next(err)` paths.
- routes/users.js and the login GET/POST handlers are not modelled; `user_login_post` has an empty body.
- Password hashing is not modelled: registration stores the submitted password as given, and sign-in checks it with a `verify` parameter standing for bcrypt's compare.
- List pages are not modelled beyond their page count: contents, sorting, `express-paginate` pages, populated references, and the counts on the catalogue index.
- The create-form GET handlers are not modelled; they only render lists.
- models/book.js and models/genre.js are not part of this model. Saving a book or genre always succeeds, and their `url` follows the other models' pattern.
- The `max: 100` options in the schemas are not enforced, because mongoose ignores `max` on strings.
- ObjectId casting is not modelled: ids are strings, and a malformed id behaves as an unknown one.
- Express path matching is exact here; its case-insensitive and trailing-slash matching is not modelled.
- Logged JSON is member lists rather than text. Populated references appear as ids. `update attempt` in bookinstance_update_get logs the document's string form, which is modelled as its JSON.
- Whitespace for `trim()` is JavaScript's `\s` set; escaping, ISO-8601, e-mail checks and date formatting are uninterpreted.
- BookController.UpdatePost: the error path of book_update_post (`formOnError`) throws on the undefined `Authors`, so it is only stated to fail; the form it would have rendered is not modelled.
- GenreController.UpdatePost: the update error page is passed the validation result object instead of its array; the model reports the error list.
- AuthorModel.Lifespan: its own contract covers only the no-dates case; LifespanOfDates states the rest under the assumption that moment never prints a present date as "".
- BookInstanceController.DeletePost: `next` is undefined in bookinstance_delete_post, so a database error there would throw; database errors are not modelled.
- BookInstanceController.LoanUnresolved: a loan without a borrower, or with one that is not an ObjectId, makes `User.findById` fail with a cast error, and the validator then reports that error's message; the model reports "Cannot find user" for every unresolved borrower.
- Logged payloads omit mongoose's version key: a saved or fetched document also carries `__v`, which `JSON.stringify` writes into the create, delete and update-attempt log lines.

## Findings

| source | as written | input that shows it | evidently intended | confidence | as-written member | corrected member |
|---|---|---|---|---|---|---|
| routes/catalog.js:19-33 | `require_privilege("admin", "librarian")` keeps only its first argument and tests `"admin".indexOf(role)`, so only admins pass | a signed-in librarian posting `/catalog/book/create` gets 403 | admins and librarians may create, update and delete | high, not executed | CatalogRoutes.LibrarianForbiddenAsWritten | CatalogRoutes.IntendedGuard |
| routes/catalog.js:30-39 | `modifyRouter.use('/book/', ...)` and its siblings guard every path under the prefix, and the guarded router is mounted before the open one (app.js:74) | an anonymous `GET /catalog/book/42` is sent to the login page | detail pages, registered on the open router, are visible without signing in | medium, not executed | CatalogRoutes.DetailPagesGuardedAsWritten | CatalogRoutes.IntendedDetailPagesOpen |
