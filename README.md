# Book API request layer, modelled in Dafny

This project models the decision layer of a small CRUD HTTP API for book records stored in
MongoDB through Mongoose. It covers four parts:

- The two request-body validators: a strict create shape and a strict partial-update shape, both Zod schemas in the source.
- The five Express handlers: `getBooks`, `getBooksById`, `addBook`, `updateBook` and `deleteBook`.
- The Mongoose `Book` schema, which becomes the invariant of the modelled collection.
- The terminal error handler `handleError`.

Files, one module each:

- `wrappers.dfy`: `Option` and `Result`.
- `js_string.dfy`: JavaScript's `String.prototype.trim`, with the exact ECMAScript whitespace and line-terminator set.
- `book_schema.dfy`: JSON values, validation issues, `ParseCreate` and `ParseUpdate`, field-by-field reference definitions of what each shape accepts, lemmas relating the issue list to the refused fields, and round-trip lemmas.
- `errors.dfy`: the thrown value as the catch blocks see it. It keeps an optional message (present for an `Error` instance) and an optional numeric `code`.
- `book_model.dfy`: the stored `Book`, the collection invariant, pure descriptions of what `save`, `findByIdAndUpdate` and `findByIdAndDelete` do, and the class `BookStore`. The class holds the collection as a map from id to document and has one method per store call.
- `handle_errors.dfy`: `HandleError`, from a thrown value to the `{success, message, errorCode}` envelope sent with status 500.
- `books_controller.dfy`: the five handlers as methods over a `BookStore`. Each one returns `Respond(status, envelope)` or `Forward(failure)`, which stands for `next(error)`. `Deliver` runs a forwarded failure through the error handler.
- `scenarios.dfy`: request sequences proved from the handler and schema contracts.

Inputs the source gets from outside become parameters:

- `validId: string -> bool` stands for `mongoose.Types.ObjectId.isValid`.
- `fault: Option<Thrown>` is the failure the backend raises on a store call, if any. In that case the call changes nothing.
- `newId` is the id the driver generates for a new document. An id already in use is refused with code 11000, as MongoDB's `_id` index would refuse it.

Behaviours of the code worth knowing, which the model keeps as written:

- `updateBook` does not turn a duplicate-key failure into a 409. Its catch block forwards every failure. A rename onto a title that is already taken therefore reaches the client as a 500 whose `errorCode` is 11000 (`UpdateBook`, `Scenarios.RenameOntoTakenTitle`).
- `addBook` answers 409 "The title already exists in the database" for any failure whose code is 11000. That includes a clash on `_id`.
- `getBooksById` answers 404 "Book not found". `updateBook` and `deleteBook` answer "Book with ID <id> not found.".
- Mongoose does not run `required` validators on `findByIdAndUpdate`. The store alone would therefore accept an update that empties a title. The invariant holds only because the update schema refuses blank titles and authors first (`BookStore.FindByIdAndUpdate`, `ValidatedPatchKeepsRequired`, `KeepsRequired`).

## Model

| member | source | states |
|---|---|---|
| JsString.TrimStartSpec | src/schemas/bookSchema.ts:5 | The front trim keeps a suffix of its input. Only whitespace is dropped, and the result does not start with whitespace. |
| JsString.TrimEndSpec | src/schemas/bookSchema.ts:5 | The back trim keeps a prefix of its input. Only whitespace is dropped, and the result does not end with whitespace. |
| JsString.TrimSpec | src/schemas/bookSchema.ts:5-8 | Trim never lengthens its input and leaves no whitespace at either end. |
| JsString.TrimmedIff | src/schemas/bookSchema.ts:5-8 | Trim leaves a string unchanged exactly when neither end of it is whitespace. |
| JsString.TrimIdempotent | src/schemas/bookSchema.ts:5-8 | Trimming an already trimmed string changes nothing. |
| JsString.TrimEmptyIffBlank | src/schemas/bookSchema.ts:5-6 | Trim yields the empty string exactly when every character is whitespace. |
| JsString.IsWhitespace | src/schemas/bookSchema.ts:5 | The code points `trim` removes: the ECMAScript WhiteSpace and LineTerminator set (TAB, VT, FF, SP, NBSP, ZWNBSP, the Zs separators, LF, CR, LS, PS). NEL is not in it. |
| JsString.TrimStart | src/schemas/bookSchema.ts:5 | `trimStart`: drops whitespace from the front; characterised by `TrimStartSpec`. |
| JsString.TrimEnd | src/schemas/bookSchema.ts:5 | `trimEnd`: drops whitespace from the back; characterised by `TrimEndSpec`. |
| JsString.Trim | src/schemas/bookSchema.ts:5-8 | `.trim()` on title, author and genre: both ends trimmed; characterised by `TrimSpec`, `TrimmedIff`, `TrimIdempotent`, `TrimEmptyIffBlank`. |
| BookSchema.ParseCreate | src/schemas/bookSchema.ts:4-10 | A refused body always comes with at least one issue. |
| BookSchema.ParseUpdate | src/schemas/bookSchema.ts:16-22 | A refused body always comes with at least one issue. The empty object is accepted and yields a patch that changes nothing. |
| BookSchema.CreateAcceptsExactly | src/schemas/bookSchema.ts:4-10 | The create shape accepts a body exactly when all of these hold: it is an object; it has no key outside the five fields; title and author are present and are strings that are not all whitespace; publishedYear, if present, is an integer number; genre, if present, is a string; available, if present, is a boolean. |
| BookSchema.UpdateAcceptsExactly | src/schemas/bookSchema.ts:16-22 | The update shape accepts exactly the same bodies, except that title and author may be absent. |
| BookSchema.CreateOutputNormalised | src/schemas/bookSchema.ts:4-10 | A create result holds the trimmed title and author, which are non-empty. It holds the integer year and the trimmed genre when they were given. Its available is the given boolean, or true when available was omitted. |
| BookSchema.UpdateOutputNormalised | src/schemas/bookSchema.ts:16-22 | An update result keeps exactly the keys the body carried, each normalised by its field rule. No default is added. |
| BookSchema.BlankTitleRejected | src/schemas/bookSchema.ts:5-17 | A whitespace-only title is refused by both shapes, with the "Title is required" too-small issue. |
| BookSchema.BlankAuthorRejected | src/schemas/bookSchema.ts:6-18 | A whitespace-only author is refused by both shapes, with the "Author is required" too-small issue. |
| BookSchema.BlankGenreAccepted | src/schemas/bookSchema.ts:8-20 | A whitespace-only genre is not an error. Both shapes store it as the empty string. |
| BookSchema.UnknownKeyRejected | src/schemas/bookSchema.ts:10-22 | Any key outside the five fields makes both shapes fail, with an unrecognised-keys issue that names it. |
| BookSchema.NonBlankText | src/schemas/bookSchema.ts:5-6 | `z.string().trim().min(1, msg)` on a present value: accepted exactly when the value is a string that is not all whitespace, yielding its trimmed form; an all-whitespace string gives exactly the too-small issue with the given message, and any refusal is one field issue on the field's path. |
| BookSchema.RequiredNonBlankText | src/schemas/bookSchema.ts:5-6 | The same rule on a required key: accepted exactly when the key is present with a non-blank string; a missing key gives the single "Required" invalid-type issue (received "undefined") on the field's path. |
| BookSchema.OptionalNonBlankText | src/schemas/bookSchema.ts:17-18 | The same rule with `.optional()`: an absent key is accepted as absent; a present value must be a non-blank string and is trimmed; one issue on the field's path otherwise. |
| BookSchema.OptionalText | src/schemas/bookSchema.ts:8-20 | `z.string().trim().optional()`: absent stays absent; any string is accepted and trimmed, with no minimum; anything else gives one field issue on the field's path. |
| BookSchema.OptionalInteger | src/schemas/bookSchema.ts:7-19 | `z.number().int().optional()`: absent stays absent; a number is accepted exactly when it is integral, and yields that integer; anything else gives one field issue on the field's path. |
| BookSchema.OptionalBoolean | src/schemas/bookSchema.ts:21 | `z.boolean().optional()`: absent stays absent; a boolean is kept; anything else gives one field issue on the field's path. |
| BookSchema.BooleanWithDefault | src/schemas/bookSchema.ts:9 | `z.boolean().optional().default(true)`: accepted exactly when the key is absent or holds a boolean; the result is that boolean, or the default when the key is absent; a refusal is one field issue on the field's path. |
| BookSchema.StrictProblems | src/schemas/bookSchema.ts:10-22 | `.strict()`: no issue exactly when every key belongs to the shape; otherwise the only issue lists exactly the keys outside it. |
| BookSchema.ValueAccepted | src/schemas/bookSchema.ts:4-22 | The per-key rule both shapes share once a key is present; it accepts nothing for a key outside the five fields. |
| BookSchema.FieldsWellTyped | src/schemas/bookSchema.ts:4-22 | Every present key is a known one whose value its rule accepts: the reference definition behind `CreateAcceptsExactly` and `UpdateAcceptsExactly`. |
| BookSchema.Normalised | src/models/bookModel.ts:6-9 | Title and author non-empty and trimmed, genre trimmed: the shape shared by a validated create record (`WellFormedNewBook`) and a stored document (`BookModel.WellFormed`). |
| BookSchema.KeepsRequired | src/schemas/bookSchema.ts:17-18 | A patch whose title and author, where given, are non-empty after trimming: the condition under which an update keeps required fields, since Mongoose does not check it on update. |
| BookSchema.CreateIssuesExplained | src/schemas/bookSchema.ts:4-10 | The 400 payload of a refused create explains itself: every issue names a present field its rule refuses, a missing title or author reported as "Required", or exactly the keys outside the shape; every refused or unknown field and every missing required field is named by some issue; a non-object body gets the single issue on the body. |
| BookSchema.UpdateIssuesExplained | src/schemas/bookSchema.ts:16-22 | The same for a refused update, where no field is required: every field issue names a present field its rule refuses, and every refused or unknown field is named. |
| BookSchema.CreateOutputReparses | src/schemas/bookSchema.ts:4-22 | A validated create record, written back out as JSON, passes the create shape unchanged. It also passes the update shape as a patch that sets every field. |
| BookSchema.PatchReparses | src/schemas/bookSchema.ts:16-22 | A validated patch, written back out as JSON, passes the update shape unchanged. |
| BookModel.WellFormed | src/models/bookModel.ts:5-10 | `required` and `trim` on title and author, `trim` on genre, as a property of one stored document. |
| BookModel.TitlesUnique | src/models/bookModel.ts:6 | `unique: true` on title: two stored documents with the same title are the same document. |
| BookModel.KeyedById | src/models/bookModel.ts:5-10 | Every document is stored under its own `_id`. |
| BookModel.Consistent | src/models/bookModel.ts:5-10 | The collection invariant: keyed by id, every document well-formed, titles unique. `BookStore.Valid` is this invariant on the store's contents. |
| BookModel.TitleInUse | src/models/bookModel.ts:6 | Some document other than the given one already carries the title: what the unique index on title refuses. |
| BookModel.NewDocument | src/controllers/booksControllers.ts:93 | `new Book(dataBook)`: the trim setters applied to validated data under the new id; `NewDocumentWellFormed` shows they change nothing and the result is well-formed. |
| BookModel.Patched | src/controllers/booksControllers.ts:154 | The document `findByIdAndUpdate(..., {new: true})` returns: the id never changes and an empty patch returns the document unchanged; `PatchChangesOnlyGivenFields` gives every field. |
| BookModel.SaveOutcome | src/controllers/booksControllers.ts:93 | `save()` succeeds exactly when title and author are non-empty, the id is unused and no other document has the title, and then stores the document as given; a failed `required` validator raises an error without a code, a unique-index clash one with code 11000. |
| BookModel.UpdateOutcome | src/controllers/booksControllers.ts:154 | `findByIdAndUpdate` returns null exactly when the id is absent, fails exactly when the patched title belongs to another document (code 11000), and otherwise returns the patched document; no update validator runs. |
| BookModel.SaveKeepsConsistent | src/models/bookModel.ts:5-10 | A successful insert of a trimmed document keeps the collection invariant. Under that invariant every document is stored under its id, is well-formed, and carries a title no other document has. |
| BookModel.NewDocumentWellFormed | src/models/bookModel.ts:5-10 | A document built from validated create data is well-formed: title and author present and trimmed, genre trimmed. The trim setters change nothing in it, and available is true when the body omitted it. |
| BookModel.UpdateKeepsConsistent | src/models/bookModel.ts:6-9 | A successful update whose patch leaves title and author non-empty keeps the collection invariant, title uniqueness included. |
| BookModel.ValidatedPatchKeepsRequired | src/schemas/bookSchema.ts:17-18 | Every patch the update shape produces leaves title and author non-empty. |
| BookModel.PatchChangesOnlyGivenFields | src/controllers/booksControllers.ts:154 | After a validated update, each field whose key the body lacked is unchanged, each present key sets its field to the normalised input, and the id never changes. |
| BookModel.BookStore.Find | src/controllers/booksControllers.ts:12 | Listing returns every stored document exactly once. The list is empty exactly when the collection is. A backend failure is raised unchanged. |
| BookModel.BookStore.FindById | src/controllers/booksControllers.ts:52 | Lookup finds a document exactly when its id is stored, and returns that document. |
| BookModel.BookStore.Save | src/models/bookModel.ts:5-10 | The insert follows the save outcome. A document with an empty title or author is refused with a code-less validation error. An id or title already in use is refused with code 11000. Otherwise the document is added. The invariant is kept. |
| BookModel.BookStore.FindByIdAndUpdate | src/controllers/booksControllers.ts:154 | An absent id returns null. A title clash raises code 11000 and changes nothing. Otherwise the patched document replaces the old one and is returned. The invariant is kept whenever the patch leaves required fields non-empty. |
| BookModel.BookStore.FindByIdAndDelete | src/controllers/booksControllers.ts:201 | The stored document is removed and returned, or null is returned and nothing changes. |
| HandleErrors.HandleError | src/middleware/handleErrors.ts:8-17 | The status is always 500 and success is always false. The message is the Error's own message, or "Unexpected error" otherwise. The error code is the failure's code when that is truthy and 500 otherwise, so it is never 0. |
| BooksController.Deliver | src/controllers/booksControllers.ts:170-173 | An answer is sent as it is. A forwarded failure reaches the client as a 500, and a forwarded duplicate-key failure carries errorCode 11000. |
| BooksController.CheckId | src/controllers/booksControllers.ts:31-48 | The two id checks (also at lines 122-139 and 181-198): an answer exactly when the id is empty or malformed, and that answer is a 400. |
| BooksController.GetBooks | src/controllers/booksControllers.ts:9-24 | The response is always 200 with success true and the full listing. The message is "Database is empty" exactly when the collection is empty and "Books found: " otherwise. A backend failure is forwarded. |
| BooksController.GetBooksById | src/controllers/booksControllers.ts:26-71 | An empty id gives 400 "Book ID is required.". An id failing the format check gives 400 "Invalid ID format". Neither depends on the store. An absent id gives 404 "Book not found". A stored id gives 200 with its document. |
| BooksController.AddBook | src/controllers/booksControllers.ts:73-116 | A refused body gives 400 "Invalid input data" with the issue list and inserts nothing. Otherwise the result is 201 with the new document, whose available is true when omitted. An id or title clash gives 409 with error 11000 and inserts nothing. Any other failure is forwarded unchanged. |
| BooksController.UpdateBook | src/controllers/booksControllers.ts:118-174 | The id checks come before the body check. All the 400 paths leave the store untouched. An absent id gives 404 "Book with ID <id> not found.". Success gives 200 with the post-update document. Every store failure is forwarded, including a title clash, so the handler never answers 409. |
| BooksController.DeleteBook | src/controllers/booksControllers.ts:176-218 | The same id checks apply. An existing id gives 200 with the removed document, and the id is then absent. An absent id gives 404 and leaves the store unchanged. |
| Scenarios.DuneParses | src/schemas/bookSchema.ts:4-10 | The literal body {title: "Dune", author: "Herbert"} passes the create shape unchanged, with available defaulted to true. |
| Scenarios.CreateTwice | src/controllers/booksControllers.ts:93-112 | Creating {title: "Dune", author: "Herbert"} twice on an empty store gives 201 with available true, then 409, with exactly one document stored. |
| Scenarios.PatchMissing | src/controllers/booksControllers.ts:154-161 | A valid patch on a well-formed but absent id gives 404 and changes nothing. |
| Scenarios.DeleteThenGet | src/controllers/booksControllers.ts:201-213 | Deleting an existing id returns its document, and a later lookup of that id gives 404. |
| Scenarios.RenameOntoTakenTitle | src/controllers/booksControllers.ts:170-173 | Renaming a book onto another book's title is forwarded, and the client receives 500 with errorCode 11000. |

## Left out

- Connection lifecycle, environment loading, server start-up and route wiring (`src/config/mongoDB.ts`, `src/server.ts`, `src/app.ts`, `src/routes/booksRoutes.ts`) are not part of this model.
- Async/await and the `next` callback: a handler returns `Forward(failure)` instead of calling `next`.
- `console.error` logging: it is output only.
- `createdAt`/`updatedAt` timestamps: they depend on the clock.
- The internals of `ObjectId.isValid`: it is the parameter `validId`. Ids are compared as strings, so the model does not capture that two spellings can name the same ObjectId.
- Backend failures are the parameter `fault` and leave the collection unchanged. A failure after a write was applied is not modelled.
- A thrown value that is not an object, such as `null` (where reading `.code` itself throws), and a non-numeric `code` are not modelled: `code` is an optional integer.
- An undefined request body (no JSON sent) is not modelled; bodies are JSON values.
- JSON numbers are reals. Double rounding, `-0` and non-finite values are not modelled.
- Strings are sequences of Unicode scalar values, so unpaired UTF-16 surrogates cannot occur.
- The Zod issue objects keep path, expected/received type, minimum and message. The other fields are dropped. The unrecognised-keys issue carries the set of extra keys, not their input order, so its message omits the key list.
- The E11000 error message is approximated: the database name and the duplicate value are not represented. Only its code is relied on.
- The unique index on title is assumed to exist (Mongoose builds it at start-up).
- Mongoose's strict mode, which silently drops unknown paths, is not modelled because the schemas already refuse unknown keys.
- BooksController.Deliver: `src/app.ts` registers no error middleware, so as written Express's default handler would answer a forwarded failure with its own 500 page and no `errorCode`. `Deliver` assumes `handleError` is mounted as the terminal error handler, which is what its own comment says it is for.
- BookModel.BookStore.Find: the order of the listing is left open ("every document exactly once"), because the collection's natural order is not fixed by the source.
