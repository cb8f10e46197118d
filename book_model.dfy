/**
 * The Book document of src/models/bookModel.ts and the collection that holds it.
 * The schema's field options become a per-document well-formedness predicate and a
 * collection invariant (ids are keys, titles are unique); the five store calls the
 * handlers make become methods of BookStore, each tied to a pure description of its
 * outcome on the old contents.
 */
module BookModel {
  import opened Wrappers
  import opened JsString
  import opened BookSchema
  import opened Errors

  /** A stored document; `id` is the store-assigned `_id`. */
  datatype Book = Book(
    id: string,
    title: string,
    author: string,
    publishedYear: Option<int>,
    genre: Option<string>,
    available: bool)

  /** `required: true` and `trim: true` on title and author, `trim: true` on genre. */
  predicate WellFormed(b: Book) {
    Normalised(b.title, b.author, b.genre)
  }

  /** `unique: true` on title: no two documents share one. */
  predicate TitlesUnique(m: map<string, Book>) {
    forall i, j | i in m && j in m && m[i].title == m[j].title :: i == j
  }

  /** Every document is stored under its own id. */
  predicate KeyedById(m: map<string, Book>) {
    forall k | k in m :: m[k].id == k
  }

  /** The collection invariant. */
  predicate Consistent(m: map<string, Book>) {
    && KeyedById(m)
    && (forall k | k in m :: WellFormed(m[k]))
    && TitlesUnique(m)
  }

  /** Some document other than `except` already carries `title`. */
  predicate TitleInUse(m: map<string, Book>, title: string, except: string) {
    exists k | k in m :: k != except && m[k].title == title
  }

  /** The ids of a listing. */
  function IdsOf(s: seq<Book>): set<string> {
    set i | 0 <= i < |s| :: s[i].id
  }

  lemma IdsOfAppend(s: seq<Book>, b: Book)
    ensures IdsOf(s + [b]) == IdsOf(s) + {b.id}
  {
    var t := s + [b];
    forall x | x in IdsOf(s) ensures x in IdsOf(t) {
      var i :| 0 <= i < |s| && s[i].id == x;
      assert t[i].id == x;
    }
    assert t[|s|].id == b.id;
  }

  /** `s` lists every document of `m` exactly once, in some order. */
  predicate IsListing(s: seq<Book>, m: map<string, Book>) {
    && IdsOf(s) == m.Keys
    && (forall i | 0 <= i < |s| :: s[i].id in m && m[s[i].id] == s[i])
    && (forall i, j | 0 <= i < j < |s| :: s[i].id != s[j].id)
  }

  // ---------------------------------------------------------------------------
  // Casting and the errors the store raises

  function TrimOption(o: Option<string>): Option<string> {
    if o.Some? then Some(Trim(o.value)) else None
  }

  /** `new Book(data)`: the schema's trim setters applied to validated create data. */
  function NewDocument(id: string, d: NewBook): Book {
    Book(id, Trim(d.title), Trim(d.author), d.publishedYear, TrimOption(d.genre), d.available)
  }

  /** A findByIdAndUpdate with `new: true`: present fields replace old ones, through the same setters. */
  function Patched(b: Book, p: Patch): (r: Book)
    ensures r.id == b.id
    ensures p == NoChanges ==> r == b
  {
    Book(
      b.id,
      if p.title.Some? then Trim(p.title.value) else b.title,
      if p.author.Some? then Trim(p.author.value) else b.author,
      if p.publishedYear.Some? then p.publishedYear else b.publishedYear,
      if p.genre.Some? then TrimOption(p.genre) else b.genre,
      if p.available.Some? then p.available.value else b.available)
  }

  const TitleIndex := "title_1"
  const IdIndex := "_id_"

  /** The server error a unique-index violation raises; only its code is relied on. */
  function DuplicateKey(index: string): Thrown {
    Thrown(Some("E11000 duplicate key error collection: books index: " + index), Some(DuplicateKeyCode))
  }

  /** The error a failed `required` validator raises on save; it has no code. */
  function RequiredMissing(doc: Book): Thrown {
    var titleMsg := if doc.title == [] then ["title: Path `title` is required."] else [];
    var authorMsg := if doc.author == [] then ["author: Path `author` is required."] else [];
    Thrown(Some("Book validation failed: " + Join(titleMsg + authorMsg)), None)
  }

  function Join(parts: seq<string>): string {
    if parts == [] then "" else if |parts| == 1 then parts[0] else parts[0] + ", " + Join(parts[1..])
  }

  // ---------------------------------------------------------------------------
  // What each write does to a collection holding m

  /** save(): validators first, then the unique indexes on _id and title. */
  function SaveOutcome(m: map<string, Book>, doc: Book): (r: Result<Book, Thrown>)
    ensures r.Ok? <==> doc.title != [] && doc.author != [] && doc.id !in m && !TitleInUse(m, doc.title, doc.id)
    ensures r.Ok? ==> r.value == doc
    ensures r.Err? ==> (r.error.code == Some(DuplicateKeyCode) <==> doc.title != [] && doc.author != [])
    ensures r.Err? ==> (r.error.code.None? <==> doc.title == [] || doc.author == [])
  {
    if doc.title == [] || doc.author == [] then Err(RequiredMissing(doc))
    else if doc.id in m then Err(DuplicateKey(IdIndex))
    else if TitleInUse(m, doc.title, doc.id) then Err(DuplicateKey(TitleIndex))
    else Ok(doc)
  }

  /** findByIdAndUpdate(id, p, {new: true}): null for an absent id; update validators do not run. */
  function UpdateOutcome(m: map<string, Book>, id: string, p: Patch): (r: Result<Option<Book>, Thrown>)
    ensures r.Ok? && r.value.None? <==> id !in m
    ensures r.Err? <==> id in m && TitleInUse(m, Patched(m[id], p).title, id)
    ensures r.Err? ==> r.error.code == Some(DuplicateKeyCode)
    ensures r.Ok? && r.value.Some? ==> r.value.value == Patched(m[id], p)
  {
    if id !in m then Ok(None)
    else
      var b := Patched(m[id], p);
      if TitleInUse(m, b.title, id) then Err(DuplicateKey(TitleIndex)) else Ok(Some(b))
  }

  // ---------------------------------------------------------------------------
  // Properties

  /** A successful save keeps the collection invariant: the new document is trimmed and its title fresh. */
  lemma SaveKeepsConsistent(m: map<string, Book>, doc: Book)
    requires Consistent(m)
    requires IsTrimmed(doc.title) && IsTrimmed(doc.author)
    requires doc.genre.Some? ==> IsTrimmed(doc.genre.value)
    requires SaveOutcome(m, doc).Ok?
    ensures Consistent(m[doc.id := doc])
  {
    var m' := m[doc.id := doc];
    forall i, j | i in m' && j in m' && m'[i].title == m'[j].title
      ensures i == j
    {
    }
  }

  /** Every document built from validated create data is well-formed, and the setters change nothing. */
  lemma NewDocumentWellFormed(id: string, body: Value)
    requires ParseCreate(body).Ok?
    ensures var d, doc := ParseCreate(body).value, NewDocument(id, ParseCreate(body).value);
      && WellFormed(doc)
      && doc == Book(id, d.title, d.author, d.publishedYear, d.genre, d.available)
      && (body.Obj? && "available" !in body.fields ==> doc.available)
  {
    CreateOutputNormalised(body);
  }

  /** An update that keeps required fields non-empty, and succeeds, keeps the collection invariant. */
  lemma UpdateKeepsConsistent(m: map<string, Book>, id: string, p: Patch)
    requires Consistent(m) && KeepsRequired(p)
    requires UpdateOutcome(m, id, p).Ok? && UpdateOutcome(m, id, p).value.Some?
    ensures Consistent(m[id := UpdateOutcome(m, id, p).value.value])
  {
    var b := UpdateOutcome(m, id, p).value.value;
    TrimIdempotent(m[id].title);
    if p.title.Some? { TrimIdempotent(p.title.value); }
    if p.author.Some? { TrimIdempotent(p.author.value); }
    if p.genre.Some? { TrimIdempotent(p.genre.value); }
    assert WellFormed(b);
    var m' := m[id := b];
    forall i, j | i in m' && j in m' && m'[i].title == m'[j].title
      ensures i == j
    {
    }
  }

  /** Every patch the update schema produces keeps required fields non-empty. */
  lemma ValidatedPatchKeepsRequired(body: Value)
    requires ParseUpdate(body).Ok?
    ensures KeepsRequired(ParseUpdate(body).value)
  {
    UpdateOutputNormalised(body);
  }

  /**
   * A validated update changes exactly the fields its body carries: each absent key leaves its
   * field as it was, each present key sets its field to the normalised input; the id never changes.
   */
  lemma PatchChangesOnlyGivenFields(b: Book, body: Value)
    requires ParseUpdate(body).Ok?
    ensures var f, n := body.fields, Patched(b, ParseUpdate(body).value);
      && n.id == b.id
      && n.title == (if "title" in f then Trim(f["title"].s) else b.title)
      && n.author == (if "author" in f then Trim(f["author"].s) else b.author)
      && n.publishedYear == (if "publishedYear" in f then Some(f["publishedYear"].x.Floor) else b.publishedYear)
      && n.genre == (if "genre" in f then Some(Trim(f["genre"].s)) else b.genre)
      && n.available == (if "available" in f then f["available"].b else b.available)
  {
    UpdateOutputNormalised(body);
  }

  // ---------------------------------------------------------------------------
  // The collection

  class BookStore {
    var books: map<string, Book>

    ghost predicate Valid()
      reads this
    {
      Consistent(books)
    }

    constructor ()
      ensures Valid() && books == map[]
    {
      books := map[];
    }

    /** Book.find(): every document, or the failure the backend raised (`fault`). */
    method Find(fault: Option<Thrown>) returns (r: Result<seq<Book>, Thrown>)
      requires Valid()
      ensures fault.Some? ==> r == Err(fault.value)
      ensures fault.None? ==> r.Ok? && IsListing(r.value, books)
      ensures fault.None? ==> (r.value == [] <==> books == map[])
    {
      if fault.Some? {
        return Err(fault.value);
      }
      var rest := books.Keys;
      var out: seq<Book> := [];
      while rest != {}
        invariant rest <= books.Keys
        invariant IdsOf(out) !! rest && IdsOf(out) + rest == books.Keys
        invariant forall i | 0 <= i < |out| :: out[i].id in books && books[out[i].id] == out[i]
        invariant forall i, j | 0 <= i < j < |out| :: out[i].id != out[j].id
        decreases rest
      {
        var k :| k in rest;
        IdsOfAppend(out, books[k]);
        out := out + [books[k]];
        rest := rest - {k};
      }
      if out == [] {
        assert books.Keys == {};
      } else {
        assert out[0].id in books;
      }
      return Ok(out);
    }

    /** Book.findById(id): the document, null when there is none, or the backend failure. */
    method FindById(id: string, fault: Option<Thrown>) returns (r: Result<Option<Book>, Thrown>)
      ensures fault.Some? ==> r == Err(fault.value)
      ensures fault.None? ==> r.Ok? && (r.value.Some? <==> id in books)
      ensures fault.None? && id in books ==> r.value.value == books[id]
    {
      if fault.Some? {
        return Err(fault.value);
      }
      r := Ok(if id in books then Some(books[id]) else None);
    }

    /** new Book(d).save() with the store-generated id `id`. */
    method Save(id: string, d: NewBook, fault: Option<Thrown>) returns (r: Result<Book, Thrown>)
      requires Valid()
      modifies this
      ensures Valid()
      ensures fault.Some? ==> r == Err(fault.value)
      ensures fault.None? ==> r == SaveOutcome(old(books), NewDocument(id, d))
      ensures books == if r.Ok? then old(books)[id := r.value] else old(books)
    {
      if fault.Some? {
        return Err(fault.value);
      }
      var doc := NewDocument(id, d);
      r := SaveOutcome(books, doc);
      if r.Ok? {
        TrimIdempotent(d.title);
        TrimIdempotent(d.author);
        if d.genre.Some? { TrimIdempotent(d.genre.value); }
        SaveKeepsConsistent(books, doc);
        books := books[id := doc];
      }
    }

    /** Book.findByIdAndUpdate(id, p, {new: true}). */
    method FindByIdAndUpdate(id: string, p: Patch, fault: Option<Thrown>) returns (r: Result<Option<Book>, Thrown>)
      requires Valid()
      modifies this
      ensures KeepsRequired(p) ==> Valid()
      ensures fault.Some? ==> r == Err(fault.value)
      ensures fault.None? ==> r == UpdateOutcome(old(books), id, p)
      ensures books == if r.Ok? && r.value.Some? then old(books)[id := r.value.value] else old(books)
    {
      if fault.Some? {
        return Err(fault.value);
      }
      r := UpdateOutcome(books, id, p);
      if r.Ok? && r.value.Some? {
        if KeepsRequired(p) { UpdateKeepsConsistent(books, id, p); }
        books := books[id := r.value.value];
      }
    }

    /** Book.findByIdAndDelete(id): the removed document, or null when there was none. */
    method FindByIdAndDelete(id: string, fault: Option<Thrown>) returns (r: Result<Option<Book>, Thrown>)
      requires Valid()
      modifies this
      ensures Valid()
      ensures fault.Some? ==> r == Err(fault.value)
      ensures fault.None? ==> r == Ok(if id in old(books) then Some(old(books)[id]) else None)
      ensures books == if r.Ok? && r.value.Some? then old(books) - {id} else old(books)
    {
      if fault.Some? {
        return Err(fault.value);
      }
      if id in books {
        r := Ok(Some(books[id]));
        books := books - {id};
      } else {
        r := Ok(None);
      }
    }
  }
}
