/**
 * The five request handlers of src/controllers/booksControllers.ts. Each is a fixed chain
 * of early returns: id present, id well-formed (`validId` stands for
 * mongoose.Types.ObjectId.isValid), body valid, one store call, then a not-found or
 * duplicate-key branch. A handler either answers with a status and a `{success, message,
 * data?, error?}` envelope, or forwards the failure to the error handler (`next(error)`).
 * `fault` is the failure the store call would raise, if the backend fails; `newId` is the
 * id the driver generates for a new document.
 */
module BooksController {
  import opened Wrappers
  import opened BookSchema
  import opened Errors
  import opened BookModel
  import opened HandleErrors

  datatype Data = NoData | OneBook(book: Book) | BookList(books: seq<Book>)

  /** The `error` field: absent, the validator's issues, or the duplicate-key marker. */
  datatype Detail = NoDetail | Issues(issues: seq<Issue>) | Code(code: int)

  /** The handler envelope `{success, message, data?, error?}`. */
  datatype QueryResponse = QueryResponse(success: bool, message: string, data: Data, error: Detail)

  /** What a handler does: answer, or pass the failure on with next(error). */
  datatype Outcome = Respond(status: int, body: QueryResponse) | Forward(failure: Thrown)

  /** What the client finally receives. */
  datatype Reply = Sent(status: int, body: QueryResponse) | Handled(reply: ErrorReply)

  const EmptyMessage := "Database is empty"
  const FoundMessage := "Books found: "
  const IdRequired := QueryResponse(false, "Book ID is required.", NoData, NoDetail)
  const BadIdFormat := QueryResponse(false, "Invalid ID format", NoData, NoDetail)
  const BookNotFound := QueryResponse(false, "Book not found", NoData, NoDetail)
  const TitleExists := QueryResponse(false, "The title already exists in the database", NoData, Code(DuplicateKeyCode))
  const DeletedMessage := "\U{1F5D1}\U{FE0F} Book successfully deleted."

  function InvalidInput(issues: seq<Issue>): QueryResponse {
    QueryResponse(false, "Invalid input data", NoData, Issues(issues))
  }

  function NoBookWithId(id: string): QueryResponse {
    QueryResponse(false, "Book with ID " + id + " not found.", NoData, NoDetail)
  }

  /** The two id checks shared by get-by-id, update and delete; neither touches the store. */
  function CheckId(id: string, validId: string -> bool): (r: Option<Outcome>)
    ensures r.Some? <==> id == "" || !validId(id)
    ensures r.Some? ==> r.value.Respond? && r.value.status == 400 && !r.value.body.success
  {
    if id == "" then Some(Respond(400, IdRequired))
    else if !validId(id) then Some(Respond(400, BadIdFormat))
    else None
  }

  /**
   * The express pipeline after a handler: an answer is sent as it is, a forwarded failure goes
   * through the error handler, so it always arrives as a 500 carrying the failure's code.
   */
  function Deliver(o: Outcome): (r: Reply)
    ensures r.Handled? <==> o.Forward?
    ensures o.Respond? ==> r == Sent(o.status, o.body)
    ensures o.Forward? ==> r.reply.status == 500 && !r.reply.body.success
    ensures o.Forward? && o.failure.code == Some(DuplicateKeyCode) ==> r.reply.body.errorCode == DuplicateKeyCode
  {
    match o
    case Respond(status, body) => Sent(status, body)
    case Forward(e) => Handled(HandleError(e))
  }

  /** getBooks: always 200 and success, with a message that tells an empty collection apart. */
  method GetBooks(store: BookStore, fault: Option<Thrown>) returns (o: Outcome)
    requires store.Valid()
    ensures fault.Some? ==> o == Forward(fault.value)
    ensures fault.None? ==> o.Respond? && o.status == 200 && o.body.success && o.body.error == NoDetail
    ensures fault.None? ==> o.body.data.BookList? && IsListing(o.body.data.books, store.books)
    ensures fault.None? ==> (o.body.message == EmptyMessage <==> store.books == map[])
    ensures fault.None? ==> (o.body.message == FoundMessage <==> store.books != map[])
  {
    var found := store.Find(fault);
    if found.Err? {
      return Forward(found.error);
    }
    var books := found.value;
    o := Respond(200, QueryResponse(true, if |books| > 0 then FoundMessage else EmptyMessage, BookList(books), NoDetail));
  }

  /** getBooksById: 400 for a missing or malformed id before any lookup, then 404 or 200. */
  method GetBooksById(store: BookStore, id: string, validId: string -> bool, fault: Option<Thrown>)
    returns (o: Outcome)
    requires store.Valid()
    ensures id == "" ==> o == Respond(400, IdRequired)
    ensures id != "" && !validId(id) ==> o == Respond(400, BadIdFormat)
    ensures id != "" && validId(id) && fault.Some? ==> o == Forward(fault.value)
    ensures id != "" && validId(id) && fault.None? && id !in store.books ==> o == Respond(404, BookNotFound)
    ensures id != "" && validId(id) && fault.None? && id in store.books ==>
      o == Respond(200, QueryResponse(true, "Book found", OneBook(store.books[id]), NoDetail))
  {
    var rejected := CheckId(id, validId);
    if rejected.Some? {
      return rejected.value;
    }
    var found := store.FindById(id, fault);
    if found.Err? {
      return Forward(found.error);
    }
    if found.value.None? {
      return Respond(404, BookNotFound);
    }
    o := Respond(200, QueryResponse(true, "Book found", OneBook(found.value.value), NoDetail));
  }

  /**
   * addBook: an invalid body is refused with its issues and nothing is inserted; a valid one is
   * saved; any failure carrying code 11000 becomes a 409, any other is forwarded unchanged.
   */
  method AddBook(store: BookStore, body: Value, newId: string, fault: Option<Thrown>) returns (o: Outcome)
    requires store.Valid()
    modifies store
    ensures store.Valid()
    ensures ParseCreate(body).Err? ==>
      o == Respond(400, InvalidInput(ParseCreate(body).error)) && store.books == old(store.books)
    ensures ParseCreate(body).Ok? && fault.Some? ==>
      && store.books == old(store.books)
      && o == if fault.value.code == Some(DuplicateKeyCode) then Respond(409, TitleExists) else Forward(fault.value)
    ensures ParseCreate(body).Ok? && fault.None? ==>
      var doc := NewDocument(newId, ParseCreate(body).value);
      && (newId in old(store.books) || TitleInUse(old(store.books), doc.title, newId) ==>
            o == Respond(409, TitleExists) && store.books == old(store.books))
      && (newId !in old(store.books) && !TitleInUse(old(store.books), doc.title, newId) ==>
            o == Respond(201, QueryResponse(true, "Book successfully created.", OneBook(doc), NoDetail))
            && store.books == old(store.books)[newId := doc])
    ensures o.Forward? ==> fault.Some? && fault.value.code != Some(DuplicateKeyCode)
    ensures o.Respond? && o.status == 201 ==>
      body.Obj? && o.body.data.OneBook? && ("available" !in body.fields ==> o.body.data.book.available)
  {
    var parsed := ParseCreate(body);
    if parsed.Err? {
      return Respond(400, InvalidInput(parsed.error));
    }
    NewDocumentWellFormed(newId, body);
    var saved := store.Save(newId, parsed.value, fault);
    if saved.Err? {
      if saved.error.code == Some(DuplicateKeyCode) {
        return Respond(409, TitleExists);
      }
      return Forward(saved.error);
    }
    o := Respond(201, QueryResponse(true, "Book successfully created.", OneBook(saved.value), NoDetail));
  }

  /**
   * updateBook: both id checks come before the body is looked at; a valid patch goes to the
   * store, an absent id gives 404, and every store failure, a title clash included, is
   * forwarded: this handler never answers 409.
   */
  method UpdateBook(store: BookStore, id: string, body: Value, validId: string -> bool, fault: Option<Thrown>)
    returns (o: Outcome)
    requires store.Valid()
    modifies store
    ensures store.Valid()
    ensures o.Respond? ==> o.status != 409
    ensures id == "" ==> o == Respond(400, IdRequired) && store.books == old(store.books)
    ensures id != "" && !validId(id) ==> o == Respond(400, BadIdFormat) && store.books == old(store.books)
    ensures id != "" && validId(id) && ParseUpdate(body).Err? ==>
      o == Respond(400, InvalidInput(ParseUpdate(body).error)) && store.books == old(store.books)
    ensures id != "" && validId(id) && ParseUpdate(body).Ok? && fault.Some? ==>
      o == Forward(fault.value) && store.books == old(store.books)
    ensures id != "" && validId(id) && ParseUpdate(body).Ok? && fault.None? && id !in old(store.books) ==>
      o == Respond(404, NoBookWithId(id)) && store.books == old(store.books)
    ensures id != "" && validId(id) && ParseUpdate(body).Ok? && fault.None? && id in old(store.books) ==>
      var updated := Patched(old(store.books)[id], ParseUpdate(body).value);
      && (TitleInUse(old(store.books), updated.title, id) ==>
            o == Forward(DuplicateKey(TitleIndex)) && store.books == old(store.books))
      && (!TitleInUse(old(store.books), updated.title, id) ==>
            o == Respond(200, QueryResponse(true, "Book successfully updated", OneBook(updated), NoDetail))
            && store.books == old(store.books)[id := updated])
  {
    var rejected := CheckId(id, validId);
    if rejected.Some? {
      return rejected.value;
    }
    var parsed := ParseUpdate(body);
    if parsed.Err? {
      return Respond(400, InvalidInput(parsed.error));
    }
    ValidatedPatchKeepsRequired(body);
    var updated := store.FindByIdAndUpdate(id, parsed.value, fault);
    if updated.Err? {
      return Forward(updated.error);
    }
    if updated.value.None? {
      return Respond(404, NoBookWithId(id));
    }
    o := Respond(200, QueryResponse(true, "Book successfully updated", OneBook(updated.value.value), NoDetail));
  }

  /** deleteBook: the same id checks; an existing id is removed and its document returned, an absent one gives 404. */
  method DeleteBook(store: BookStore, id: string, validId: string -> bool, fault: Option<Thrown>)
    returns (o: Outcome)
    requires store.Valid()
    modifies store
    ensures store.Valid()
    ensures id == "" ==> o == Respond(400, IdRequired) && store.books == old(store.books)
    ensures id != "" && !validId(id) ==> o == Respond(400, BadIdFormat) && store.books == old(store.books)
    ensures id != "" && validId(id) && fault.Some? ==> o == Forward(fault.value) && store.books == old(store.books)
    ensures id != "" && validId(id) && fault.None? && id !in old(store.books) ==>
      o == Respond(404, NoBookWithId(id)) && store.books == old(store.books)
    ensures id != "" && validId(id) && fault.None? && id in old(store.books) ==>
      o == Respond(200, QueryResponse(true, DeletedMessage, OneBook(old(store.books)[id]), NoDetail))
      && store.books == old(store.books) - {id} && id !in store.books
  {
    var rejected := CheckId(id, validId);
    if rejected.Some? {
      return rejected.value;
    }
    var deleted := store.FindByIdAndDelete(id, fault);
    if deleted.Err? {
      return Forward(deleted.error);
    }
    if deleted.value.None? {
      return Respond(404, NoBookWithId(id));
    }
    o := Respond(200, QueryResponse(true, DeletedMessage, OneBook(deleted.value.value), NoDetail));
  }
}
