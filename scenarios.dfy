/**
 * End-to-end request sequences against one collection, each proved from the handler and
 * schema contracts: create twice with one title, patch an absent id, delete then read back,
 * and rename a book onto another one's title.
 */
module Scenarios {
  import opened Wrappers
  import opened JsString
  import opened BookSchema
  import opened Errors
  import opened BookModel
  import opened HandleErrors
  import opened BooksController

  /** Trim does nothing to a string without edge whitespace, so a literal body needs no normalising. */
  lemma LiteralIsTrimmed(s: string)
    requires NoEdgeWhitespace(s)
    ensures Trim(s) == s
    ensures s != [] ==> !Blank(s)
  {
    TrimmedIff(s);
    TrimEmptyIffBlank(s);
  }

  function DuneBody(): Value {
    Obj(map["title" := Str("Dune"), "author" := Str("Herbert")])
  }

  /** The body {title: "Dune", author: "Herbert"} passes the create shape as it is, with available defaulted to true. */
  lemma DuneParses()
    ensures ParseCreate(DuneBody()) == Ok(NewBook("Dune", "Herbert", None, None, true))
  {
    var body := DuneBody();
    LiteralIsTrimmed("Dune");
    LiteralIsTrimmed("Herbert");
    CreateAcceptsExactly(body);
    CreateOutputNormalised(body);
  }

  /**
   * POST {title: "Dune", author: "Herbert"} twice on an empty collection: 201 with
   * available true and the title as given, then 409 with the duplicate-key marker, and
   * exactly one document stored.
   */
  method CreateTwice(store: BookStore, firstId: string, secondId: string) returns (first: Outcome, second: Outcome)
    requires store.Valid() && store.books == map[]
    modifies store
    ensures first.Respond? && first.status == 201 && first.body.data.OneBook?
    ensures first.body.data.book.title == "Dune" && first.body.data.book.available
    ensures second == Respond(409, TitleExists)
    ensures store.books.Keys == {firstId}
  {
    var body := DuneBody();
    DuneParses();
    var doc := NewDocument(firstId, ParseCreate(body).value);
    assert doc.title == "Dune" && doc.available;
    first := AddBook(store, body, firstId, None);
    assert store.books == map[firstId := doc];
    second := AddBook(store, body, secondId, None);
    if secondId != firstId {
      assert TitleInUse(store.books, "Dune", secondId) by {
        assert store.books[firstId].title == "Dune";
      }
    }
  }

  /** PATCH /books/<well-formed id with no document> with {genre: "SciFi"}: 404 and nothing changes. */
  method PatchMissing(store: BookStore, id: string, validId: string -> bool) returns (o: Outcome)
    requires store.Valid() && id != "" && validId(id) && id !in store.books
    modifies store
    ensures o == Respond(404, NoBookWithId(id))
    ensures store.books == old(store.books)
  {
    var body := Obj(map["genre" := Str("SciFi")]);
    UpdateAcceptsExactly(body);
    o := UpdateBook(store, id, body, validId, None);
  }

  /** DELETE /books/<existing id> answers 200 with the removed document; a GET of that id then answers 404. */
  method DeleteThenGet(store: BookStore, id: string, validId: string -> bool) returns (deleted: Outcome, read: Outcome)
    requires store.Valid() && id != "" && validId(id) && id in store.books
    modifies store
    ensures deleted == Respond(200, QueryResponse(true, DeletedMessage, OneBook(old(store.books)[id]), NoDetail))
    ensures read == Respond(404, BookNotFound)
  {
    deleted := DeleteBook(store, id, validId, None);
    read := GetBooksById(store, id, validId, None);
  }

  /**
   * PATCH a book with another book's title: the store's unique index refuses it, the handler
   * forwards the failure, and the client gets a 500 whose errorCode is 11000, never a 409.
   */
  method RenameOntoTakenTitle(store: BookStore, id: string, other: string, validId: string -> bool)
    returns (o: Outcome, reply: Reply)
    requires store.Valid() && id != "" && validId(id) && id in store.books
    requires other in store.books && other != id
    modifies store
    ensures o == Forward(DuplicateKey(TitleIndex))
    ensures reply.Handled? && reply.reply.status == 500 && reply.reply.body.errorCode == DuplicateKeyCode
    ensures store.books == old(store.books)
  {
    var title := store.books[other].title;
    var patch := Patch(Some(title), None, None, None, None);
    PatchReparses(patch);
    var body := PatchBody(patch);
    assert Patched(store.books[id], patch).title == title;
    assert TitleInUse(store.books, title, id);
    o := UpdateBook(store, id, body, validId, None);
    reply := Deliver(o);
  }
}
