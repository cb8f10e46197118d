/**
 * The two request-body validators of src/schemas/bookSchema.ts: a closed create shape
 * (title and author required, available defaulting to true) and a closed update shape
 * (every field optional, no default). Each maps a parsed JSON body to either the
 * normalised record or the list of issues the validator reports, in declaration order
 * followed by the unrecognised-keys issue.
 */
module BookSchema {
  import opened Wrappers
  import opened JsString

  /** A JSON value as the JSON body parser hands it over. Numbers are finite doubles, kept as reals. */
  datatype Value =
    | Str(s: string)
    | Num(x: real)
    | Bool(b: bool)
    | Null
    | Arr(items: seq<Value>)
    | Obj(fields: map<string, Value>)

  /** The type name the validator reports as "received". */
  function TypeName(v: Value): string {
    match v
    case Str(_) => "string"
    case Num(_) => "number"
    case Bool(_) => "boolean"
    case Null => "null"
    case Arr(_) => "array"
    case Obj(_) => "object"
  }

  predicate IsInteger(x: real) {
    x.Floor as real == x
  }

  /** Path from the body to the offending value: [] for the body itself, [key] for a field. */
  type Path = seq<string>

  /** One validation issue. A missing required field is an InvalidType whose received type is "undefined". */
  datatype Issue =
    | InvalidType(path: Path, expected: string, received: string)
    | TooSmall(path: Path, minimum: nat, message: string)
    | UnrecognizedKeys(keys: set<string>)

  /** The human-readable reason attached to an issue. */
  function Message(i: Issue): string {
    match i
    case InvalidType(_, expected, received) =>
      if received == "undefined" then "Required" else "Expected " + expected + ", received " + received
    case TooSmall(_, _, message) => message
    case UnrecognizedKeys(_) => "Unrecognized key(s) in object"
  }

  /** The only keys either shape admits. */
  const Keys: set<string> := {"title", "author", "publishedYear", "genre", "available"}

  const TitleRequired := "Title is required"
  const AuthorRequired := "Author is required"

  /** What the create shape produces. */
  datatype NewBook = NewBook(
    title: string,
    author: string,
    publishedYear: Option<int>,
    genre: Option<string>,
    available: bool)

  /** What the update shape produces: None is a key the body did not carry. */
  datatype Patch = Patch(
    title: Option<string>,
    author: Option<string>,
    publishedYear: Option<int>,
    genre: Option<string>,
    available: Option<bool>)

  const NoChanges := Patch(None, None, None, None, None)

  type Parsed<T> = Result<T, seq<Issue>>

  function Field(f: map<string, Value>, key: string): Option<Value> {
    if key in f then Some(f[key]) else None
  }

  function Problems<T>(r: Parsed<T>): seq<Issue> {
    if r.Err? then r.error else []
  }

  // ---------------------------------------------------------------------------
  // Field rules, one per validator chain of the schema file

  /** A JSON string that is not all whitespace: what survives trim().min(1). */
  predicate NonBlankString(v: Value) {
    v.Str? && !Blank(v.s)
  }

  /** A string, trimmed, then at least one character long. */
  function NonBlankText(key: string, v: Value, tooShort: string): (r: Parsed<string>)
    ensures r.Ok? <==> NonBlankString(v)
    ensures r.Ok? ==> r.value == Trim(v.s)
    ensures v.Str? && Blank(v.s) ==> r == Err([TooSmall([key], 1, tooShort)])
    ensures r.Err? ==> |r.error| == 1 && !r.error[0].UnrecognizedKeys? && r.error[0].path == [key]
  {
    match v
    case Str(s) =>
      var t := Trim(s);
      TrimEmptyIffBlank(s);
      if |t| < 1 then Err([TooSmall([key], 1, tooShort)]) else Ok(t)
    case _ => Err([InvalidType([key], "string", TypeName(v))])
  }

  /** The same rule on a field that must be present. */
  function RequiredNonBlankText(key: string, o: Option<Value>, tooShort: string): (r: Parsed<string>)
    ensures r.Ok? <==> o.Some? && NonBlankString(o.value)
    ensures r.Ok? ==> r.value == Trim(o.value.s)
    ensures r.Err? ==> |r.error| == 1 && !r.error[0].UnrecognizedKeys? && r.error[0].path == [key]
    ensures o.None? ==> r == Err([InvalidType([key], "string", "undefined")]) && Message(r.error[0]) == "Required"
  {
    match o
    case None => Err([InvalidType([key], "string", "undefined")])
    case Some(v) => NonBlankText(key, v, tooShort)
  }

  /** The same rule on a field that may be absent. */
  function OptionalNonBlankText(key: string, o: Option<Value>, tooShort: string): (r: Parsed<Option<string>>)
    ensures r.Ok? <==> (o.Some? ==> NonBlankString(o.value))
    ensures r.Ok? ==> r.value == if o.Some? then Some(Trim(o.value.s)) else None
    ensures r.Err? ==> |r.error| == 1 && !r.error[0].UnrecognizedKeys? && r.error[0].path == [key]
  {
    match o
    case None => Ok(None)
    case Some(v) =>
      match NonBlankText(key, v, tooShort)
      case Ok(t) => Ok(Some(t))
      case Err(e) => Err(e)
  }

  /** An optional string, trimmed, with no minimum length. */
  function OptionalText(key: string, o: Option<Value>): (r: Parsed<Option<string>>)
    ensures r.Ok? <==> (o.Some? ==> o.value.Str?)
    ensures r.Ok? ==> r.value == if o.Some? then Some(Trim(o.value.s)) else None
    ensures r.Err? ==> |r.error| == 1 && !r.error[0].UnrecognizedKeys? && r.error[0].path == [key]
  {
    match o
    case None => Ok(None)
    case Some(Str(s)) => Ok(Some(Trim(s)))
    case Some(v) => Err([InvalidType([key], "string", TypeName(v))])
  }

  /** An optional number that must be an integer. */
  function OptionalInteger(key: string, o: Option<Value>): (r: Parsed<Option<int>>)
    ensures r.Ok? <==> (o.Some? ==> o.value.Num? && IsInteger(o.value.x))
    ensures r.Ok? ==> r.value == if o.Some? then Some(o.value.x.Floor) else None
    ensures r.Err? ==> |r.error| == 1 && !r.error[0].UnrecognizedKeys? && r.error[0].path == [key]
  {
    match o
    case None => Ok(None)
    case Some(Num(x)) =>
      if IsInteger(x) then Ok(Some(x.Floor)) else Err([InvalidType([key], "integer", "float")])
    case Some(v) => Err([InvalidType([key], "number", TypeName(v))])
  }

  /** An optional boolean. */
  function OptionalBoolean(key: string, o: Option<Value>): (r: Parsed<Option<bool>>)
    ensures r.Ok? <==> (o.Some? ==> o.value.Bool?)
    ensures r.Ok? ==> r.value == if o.Some? then Some(o.value.b) else None
    ensures r.Err? ==> |r.error| == 1 && !r.error[0].UnrecognizedKeys? && r.error[0].path == [key]
  {
    match o
    case None => Ok(None)
    case Some(Bool(b)) => Ok(Some(b))
    case Some(v) => Err([InvalidType([key], "boolean", TypeName(v))])
  }

  /** An optional boolean that is `dflt` when absent. */
  function BooleanWithDefault(key: string, o: Option<Value>, dflt: bool): (r: Parsed<bool>)
    ensures r.Ok? <==> (o.Some? ==> o.value.Bool?)
    ensures r.Ok? ==> r.value == if o.Some? then o.value.b else dflt
    ensures r.Err? ==> |r.error| == 1 && !r.error[0].UnrecognizedKeys? && r.error[0].path == [key]
  {
    match OptionalBoolean(key, o)
    case Ok(None) => Ok(dflt)
    case Ok(Some(b)) => Ok(b)
    case Err(e) => Err(e)
  }

  /** The strict-object rule: one issue naming every key outside the shape. */
  function StrictProblems(f: map<string, Value>): (r: seq<Issue>)
    ensures r == [] <==> f.Keys <= Keys
    ensures forall i | i in r :: i.UnrecognizedKeys? && i.keys == f.Keys - Keys
  {
    var extra := f.Keys - Keys;
    if extra == {} then [] else [UnrecognizedKeys(extra)]
  }

  // ---------------------------------------------------------------------------
  // The two shapes

  /** The create shape, bookSchema.ts lines 4-10. */
  function ParseCreate(body: Value): (r: Parsed<NewBook>)
    ensures r.Err? ==> r.error != []
  {
    match body
    case Obj(f) =>
      var title := RequiredNonBlankText("title", Field(f, "title"), TitleRequired);
      var author := RequiredNonBlankText("author", Field(f, "author"), AuthorRequired);
      var year := OptionalInteger("publishedYear", Field(f, "publishedYear"));
      var genre := OptionalText("genre", Field(f, "genre"));
      var available := BooleanWithDefault("available", Field(f, "available"), true);
      if title.Ok? && author.Ok? && year.Ok? && genre.Ok? && available.Ok? && f.Keys <= Keys then
        Ok(NewBook(title.value, author.value, year.value, genre.value, available.value))
      else
        Err(Problems(title) + Problems(author) + Problems(year) + Problems(genre)
            + Problems(available) + StrictProblems(f))
    case _ => Err([InvalidType([], "object", TypeName(body))])
  }

  /** The update shape, bookSchema.ts lines 16-22. */
  function ParseUpdate(body: Value): (r: Parsed<Patch>)
    ensures r.Err? ==> r.error != []
    ensures body == Obj(map[]) ==> r == Ok(NoChanges)
  {
    match body
    case Obj(f) =>
      var title := OptionalNonBlankText("title", Field(f, "title"), TitleRequired);
      var author := OptionalNonBlankText("author", Field(f, "author"), AuthorRequired);
      var year := OptionalInteger("publishedYear", Field(f, "publishedYear"));
      var genre := OptionalText("genre", Field(f, "genre"));
      var available := OptionalBoolean("available", Field(f, "available"));
      if title.Ok? && author.Ok? && year.Ok? && genre.Ok? && available.Ok? && f.Keys <= Keys then
        Ok(Patch(title.value, author.value, year.value, genre.value, available.value))
      else
        Err(Problems(title) + Problems(author) + Problems(year) + Problems(genre)
            + Problems(available) + StrictProblems(f))
    case _ => Err([InvalidType([], "object", TypeName(body))])
  }

  // ---------------------------------------------------------------------------
  // Reference definitions: which bodies each shape admits, stated field by field

  /** The rule each known key's value must meet; no value is accepted for a key outside the shape. */
  predicate ValueAccepted(key: string, v: Value) {
    if key == "title" || key == "author" then NonBlankString(v)
    else if key == "publishedYear" then v.Num? && IsInteger(v.x)
    else if key == "genre" then v.Str?
    else key == "available" && v.Bool?
  }

  /** Every key present is one of the shape's and carries a value its rule accepts. */
  predicate FieldsWellTyped(f: map<string, Value>) {
    forall k | k in f :: ValueAccepted(k, f[k])
  }

  predicate AcceptedByCreate(body: Value) {
    body.Obj? && FieldsWellTyped(body.fields) && "title" in body.fields && "author" in body.fields
  }

  predicate AcceptedByUpdate(body: Value) {
    body.Obj? && FieldsWellTyped(body.fields)
  }

  /** Title and author non-empty and trimmed, genre trimmed: the shape of a validated record and of a stored document. */
  predicate Normalised(title: string, author: string, genre: Option<string>) {
    && title != [] && IsTrimmed(title)
    && author != [] && IsTrimmed(author)
    && (genre.Some? ==> IsTrimmed(genre.value))
  }

  predicate WellFormedNewBook(d: NewBook) {
    Normalised(d.title, d.author, d.genre)
  }

  /** A patch whose title and author, where given, are still non-empty once trimmed. */
  predicate KeepsRequired(p: Patch) {
    && (p.title.Some? ==> Trim(p.title.value) != [])
    && (p.author.Some? ==> Trim(p.author.value) != [])
  }

  /** The shape of every validated patch: it keeps required fields, and every string it carries is trimmed. */
  predicate WellFormedPatch(p: Patch) {
    && KeepsRequired(p)
    && (p.title.Some? ==> IsTrimmed(p.title.value))
    && (p.author.Some? ==> IsTrimmed(p.author.value))
    && (p.genre.Some? ==> IsTrimmed(p.genre.value))
  }

  /** Issue `i` names key `k`: a field issue on path [k], or the unrecognised-keys issue listing `k`. */
  predicate Blames(i: Issue, k: string) {
    if i.UnrecognizedKeys? then k in i.keys else i.path == [k]
  }

  /**
   * Issue `i` is justified by the fields `f`: an unrecognised-keys issue lists exactly the
   * keys outside the shape; a field issue names a known key whose value its rule refuses, or
   * a key in `required` that is missing, reported as "Required".
   */
  predicate Justified(f: map<string, Value>, i: Issue, required: set<string>) {
    if i.UnrecognizedKeys? then i.keys == f.Keys - Keys && i.keys != {}
    else
      |i.path| == 1 &&
      var k := i.path[0];
      if k in f then k in Keys && !ValueAccepted(k, f[k])
      else k in required && Message(i) == "Required"
  }

  /** A validated create record written back out as a JSON body, the form in which it is stored and returned. */
  function CreateBody(d: NewBook): Value {
    Obj(map["title" := Str(d.title), "author" := Str(d.author), "available" := Bool(d.available)]
        + (if d.publishedYear.Some? then map["publishedYear" := Num(d.publishedYear.value as real)] else map[])
        + (if d.genre.Some? then map["genre" := Str(d.genre.value)] else map[]))
  }

  /** A validated patch written back out as a JSON body; absent fields stay absent. */
  function PatchBody(p: Patch): Value {
    Obj((if p.title.Some? then map["title" := Str(p.title.value)] else map[])
        + (if p.author.Some? then map["author" := Str(p.author.value)] else map[])
        + (if p.publishedYear.Some? then map["publishedYear" := Num(p.publishedYear.value as real)] else map[])
        + (if p.genre.Some? then map["genre" := Str(p.genre.value)] else map[])
        + (if p.available.Some? then map["available" := Bool(p.available.value)] else map[]))
  }

  /** Every field of a create record, as an update that sets it. */
  function AsPatch(d: NewBook): Patch {
    Patch(Some(d.title), Some(d.author), d.publishedYear, d.genre, Some(d.available))
  }

  // ---------------------------------------------------------------------------
  // Properties

  /** The create shape accepts exactly the bodies of the reference definition. */
  lemma CreateAcceptsExactly(body: Value)
    ensures ParseCreate(body).Ok? <==> AcceptedByCreate(body)
  {
    if body.Obj? {
      var f := body.fields;
      var title := RequiredNonBlankText("title", Field(f, "title"), TitleRequired);
      var author := RequiredNonBlankText("author", Field(f, "author"), AuthorRequired);
      var year := OptionalInteger("publishedYear", Field(f, "publishedYear"));
      var genre := OptionalText("genre", Field(f, "genre"));
      var available := BooleanWithDefault("available", Field(f, "available"), true);
      assert ParseCreate(body).Ok? <==>
        title.Ok? && author.Ok? && year.Ok? && genre.Ok? && available.Ok? && f.Keys <= Keys;
      assert title.Ok? <==> "title" in f && NonBlankString(f["title"]);
      assert author.Ok? <==> "author" in f && NonBlankString(f["author"]);
    }
  }

  /** The update shape accepts exactly the bodies of the reference definition. */
  lemma UpdateAcceptsExactly(body: Value)
    ensures ParseUpdate(body).Ok? <==> AcceptedByUpdate(body)
  {
    if body.Obj? {
      var f := body.fields;
      var title := OptionalNonBlankText("title", Field(f, "title"), TitleRequired);
      var author := OptionalNonBlankText("author", Field(f, "author"), AuthorRequired);
      var year := OptionalInteger("publishedYear", Field(f, "publishedYear"));
      var genre := OptionalText("genre", Field(f, "genre"));
      var available := OptionalBoolean("available", Field(f, "available"));
      assert ParseUpdate(body).Ok? <==>
        title.Ok? && author.Ok? && year.Ok? && genre.Ok? && available.Ok? && f.Keys <= Keys;
      assert title.Ok? <==> ("title" in f ==> NonBlankString(f["title"]));
      assert author.Ok? <==> ("author" in f ==> NonBlankString(f["author"]));
    }
  }

  /**
   * A successful create parse keeps the trimmed title and author, the integer year and the
   * trimmed genre when given, and sets available to the given boolean or to true.
   */
  lemma CreateOutputNormalised(body: Value)
    requires ParseCreate(body).Ok?
    ensures body.Obj? && WellFormedNewBook(ParseCreate(body).value)
    ensures var f, d := body.fields, ParseCreate(body).value;
      && d.title == Trim(f["title"].s)
      && d.author == Trim(f["author"].s)
      && d.publishedYear == (if "publishedYear" in f then Some(f["publishedYear"].x.Floor) else None)
      && d.genre == (if "genre" in f then Some(Trim(f["genre"].s)) else None)
      && d.available == (if "available" in f then f["available"].b else true)
  {
    var f := body.fields;
    var title := RequiredNonBlankText("title", Field(f, "title"), TitleRequired);
    var author := RequiredNonBlankText("author", Field(f, "author"), AuthorRequired);
    var year := OptionalInteger("publishedYear", Field(f, "publishedYear"));
    var genre := OptionalText("genre", Field(f, "genre"));
    var available := BooleanWithDefault("available", Field(f, "available"), true);
    assert ParseCreate(body) == Ok(NewBook(title.value, author.value, year.value, genre.value, available.value));
    TrimIdempotent(f["title"].s);
    TrimIdempotent(f["author"].s);
    TrimEmptyIffBlank(f["title"].s);
    TrimEmptyIffBlank(f["author"].s);
    if "genre" in f { TrimIdempotent(f["genre"].s); }
  }

  /** A successful update parse keeps exactly the keys the body carried, each normalised by its rule. */
  lemma UpdateOutputNormalised(body: Value)
    requires ParseUpdate(body).Ok?
    ensures body.Obj? && WellFormedPatch(ParseUpdate(body).value)
    ensures var f, p := body.fields, ParseUpdate(body).value;
      && p.title == (if "title" in f then Some(Trim(f["title"].s)) else None)
      && p.author == (if "author" in f then Some(Trim(f["author"].s)) else None)
      && p.publishedYear == (if "publishedYear" in f then Some(f["publishedYear"].x.Floor) else None)
      && p.genre == (if "genre" in f then Some(Trim(f["genre"].s)) else None)
      && p.available == (if "available" in f then Some(f["available"].b) else None)
  {
    var f := body.fields;
    var title := OptionalNonBlankText("title", Field(f, "title"), TitleRequired);
    var author := OptionalNonBlankText("author", Field(f, "author"), AuthorRequired);
    var year := OptionalInteger("publishedYear", Field(f, "publishedYear"));
    var genre := OptionalText("genre", Field(f, "genre"));
    var available := OptionalBoolean("available", Field(f, "available"));
    assert ParseUpdate(body) == Ok(Patch(title.value, author.value, year.value, genre.value, available.value));
    if "title" in f { TrimIdempotent(f["title"].s); TrimEmptyIffBlank(f["title"].s); }
    if "author" in f { TrimIdempotent(f["author"].s); TrimEmptyIffBlank(f["author"].s); }
    if "genre" in f { TrimIdempotent(f["genre"].s); }
  }

  /** A whitespace-only title is refused by both shapes with the "Title is required" issue. */
  lemma BlankTitleRejected(body: Value)
    requires body.Obj? && "title" in body.fields && body.fields["title"].Str?
    requires Blank(body.fields["title"].s)
    ensures ParseCreate(body).Err? && TooSmall(["title"], 1, TitleRequired) in ParseCreate(body).error
    ensures ParseUpdate(body).Err? && TooSmall(["title"], 1, TitleRequired) in ParseUpdate(body).error
  {
    var f := body.fields;
    var issue := TooSmall(["title"], 1, TitleRequired);
    var created := RequiredNonBlankText("title", Field(f, "title"), TitleRequired);
    var updated := OptionalNonBlankText("title", Field(f, "title"), TitleRequired);
    assert created == Err([issue]);
    assert updated == Err([issue]);
    assert ParseCreate(body).error[0] == issue;
    assert ParseUpdate(body).error[0] == issue;
  }

  /** A whitespace-only author is refused by both shapes with the "Author is required" issue. */
  lemma BlankAuthorRejected(body: Value)
    requires body.Obj? && "author" in body.fields && body.fields["author"].Str?
    requires Blank(body.fields["author"].s)
    ensures ParseCreate(body).Err? && TooSmall(["author"], 1, AuthorRequired) in ParseCreate(body).error
    ensures ParseUpdate(body).Err? && TooSmall(["author"], 1, AuthorRequired) in ParseUpdate(body).error
  {
    var f := body.fields;
    var issue := TooSmall(["author"], 1, AuthorRequired);
    var title := RequiredNonBlankText("title", Field(f, "title"), TitleRequired);
    var created := RequiredNonBlankText("author", Field(f, "author"), AuthorRequired);
    var updatedTitle := OptionalNonBlankText("title", Field(f, "title"), TitleRequired);
    var updated := OptionalNonBlankText("author", Field(f, "author"), AuthorRequired);
    assert created == Err([issue]);
    assert updated == Err([issue]);
    assert ParseCreate(body).error[|Problems(title)|] == issue;
    assert ParseUpdate(body).error[|Problems(updatedTitle)|] == issue;
  }

  /** A whitespace-only genre is not an error: it becomes the empty string. */
  lemma BlankGenreAccepted(body: Value)
    requires body.Obj? && "genre" in body.fields && body.fields["genre"].Str?
    requires Blank(body.fields["genre"].s)
    ensures AcceptedByCreate(body) ==> ParseCreate(body).Ok? && ParseCreate(body).value.genre == Some([])
    ensures AcceptedByUpdate(body) ==> ParseUpdate(body).Ok? && ParseUpdate(body).value.genre == Some([])
  {
    TrimEmptyIffBlank(body.fields["genre"].s);
    CreateAcceptsExactly(body);
    UpdateAcceptsExactly(body);
    if AcceptedByCreate(body) { CreateOutputNormalised(body); }
    if AcceptedByUpdate(body) { UpdateOutputNormalised(body); }
  }

  /** A key outside the shape makes both shapes fail, with an issue that names it. */
  lemma UnknownKeyRejected(body: Value, key: string)
    requires body.Obj? && key in body.fields && key !in Keys
    ensures ParseCreate(body).Err? && ParseUpdate(body).Err?
    ensures UnrecognizedKeys(body.fields.Keys - Keys) in ParseCreate(body).error
    ensures UnrecognizedKeys(body.fields.Keys - Keys) in ParseUpdate(body).error
    ensures key in body.fields.Keys - Keys
  {
  }

  /**
   * The create shape's issue list explains itself: every issue names a field its rule refuses,
   * a missing title or author ("Required"), or exactly the keys outside the shape; and every
   * refused, unknown or missing field is named by some issue. A non-object body gets one issue
   * on the body itself.
   */
  lemma CreateIssuesExplained(body: Value)
    requires ParseCreate(body).Err?
    ensures !body.Obj? ==> ParseCreate(body).error == [InvalidType([], "object", TypeName(body))]
    ensures body.Obj? ==> forall i | i in ParseCreate(body).error :: Justified(body.fields, i, {"title", "author"})
    ensures body.Obj? ==> forall k | k in body.fields && !ValueAccepted(k, body.fields[k]) ::
      exists i | i in ParseCreate(body).error :: Blames(i, k)
    ensures body.Obj? && "title" !in body.fields ==> InvalidType(["title"], "string", "undefined") in ParseCreate(body).error
    ensures body.Obj? && "author" !in body.fields ==> InvalidType(["author"], "string", "undefined") in ParseCreate(body).error
  {
    if body.Obj? {
      var f := body.fields;
      var title := RequiredNonBlankText("title", Field(f, "title"), TitleRequired);
      var author := RequiredNonBlankText("author", Field(f, "author"), AuthorRequired);
      var year := OptionalInteger("publishedYear", Field(f, "publishedYear"));
      var genre := OptionalText("genre", Field(f, "genre"));
      var available := BooleanWithDefault("available", Field(f, "available"), true);
      var e := ParseCreate(body).error;
      assert e == Problems(title) + Problems(author) + Problems(year) + Problems(genre)
        + Problems(available) + StrictProblems(f);
      forall i | i in e ensures Justified(f, i, {"title", "author"}) {
        if i in Problems(title) {
          assert i == title.error[0];
        } else if i in Problems(author) {
          assert i == author.error[0];
        } else if i in Problems(year) {
          assert i == year.error[0];
        } else if i in Problems(genre) {
          assert i == genre.error[0];
        } else if i in Problems(available) {
          assert i == available.error[0];
        }
      }
      forall k | k in f && !ValueAccepted(k, f[k]) ensures exists i | i in e :: Blames(i, k) {
        if k == "title" {
          assert title.error[0] in e;
        } else if k == "author" {
          assert author.error[0] in e;
        } else if k == "publishedYear" {
          assert year.error[0] in e;
        } else if k == "genre" {
          assert genre.error[0] in e;
        } else if k == "available" {
          assert available.error[0] in e;
        } else {
          assert UnrecognizedKeys(f.Keys - Keys) in e;
        }
      }
    }
  }

  /**
   * The update shape's issue list explains itself in the same way; no field is required, so
   * every field issue names a present field its rule refuses.
   */
  lemma UpdateIssuesExplained(body: Value)
    requires ParseUpdate(body).Err?
    ensures !body.Obj? ==> ParseUpdate(body).error == [InvalidType([], "object", TypeName(body))]
    ensures body.Obj? ==> forall i | i in ParseUpdate(body).error :: Justified(body.fields, i, {})
    ensures body.Obj? ==> forall k | k in body.fields && !ValueAccepted(k, body.fields[k]) ::
      exists i | i in ParseUpdate(body).error :: Blames(i, k)
  {
    if body.Obj? {
      var f := body.fields;
      var title := OptionalNonBlankText("title", Field(f, "title"), TitleRequired);
      var author := OptionalNonBlankText("author", Field(f, "author"), AuthorRequired);
      var year := OptionalInteger("publishedYear", Field(f, "publishedYear"));
      var genre := OptionalText("genre", Field(f, "genre"));
      var available := OptionalBoolean("available", Field(f, "available"));
      var e := ParseUpdate(body).error;
      assert e == Problems(title) + Problems(author) + Problems(year) + Problems(genre)
        + Problems(available) + StrictProblems(f);
      forall i | i in e ensures Justified(f, i, {}) {
        if i in Problems(title) {
          assert i == title.error[0];
        } else if i in Problems(author) {
          assert i == author.error[0];
        } else if i in Problems(year) {
          assert i == year.error[0];
        } else if i in Problems(genre) {
          assert i == genre.error[0];
        } else if i in Problems(available) {
          assert i == available.error[0];
        }
      }
      forall k | k in f && !ValueAccepted(k, f[k]) ensures exists i | i in e :: Blames(i, k) {
        if k == "title" {
          assert title.error[0] in e;
        } else if k == "author" {
          assert author.error[0] in e;
        } else if k == "publishedYear" {
          assert year.error[0] in e;
        } else if k == "genre" {
          assert genre.error[0] in e;
        } else if k == "available" {
          assert available.error[0] in e;
        } else {
          assert UnrecognizedKeys(f.Keys - Keys) in e;
        }
      }
    }
  }

  /** A validated create record, written back out, passes the create shape unchanged and the update shape as a full patch. */
  lemma CreateOutputReparses(d: NewBook)
    requires WellFormedNewBook(d)
    ensures ParseCreate(CreateBody(d)) == Ok(d)
    ensures ParseUpdate(CreateBody(d)) == Ok(AsPatch(d))
  {
    var f := CreateBody(d).fields;
    assert Field(f, "title") == Some(Str(d.title));
    assert Field(f, "author") == Some(Str(d.author));
    assert Field(f, "available") == Some(Bool(d.available));
    assert Field(f, "publishedYear") == if d.publishedYear.Some? then Some(Num(d.publishedYear.value as real)) else None;
    assert Field(f, "genre") == if d.genre.Some? then Some(Str(d.genre.value)) else None;
    assert f.Keys <= Keys;
    TrimEmptyIffBlank(d.title);
    TrimEmptyIffBlank(d.author);
    if d.publishedYear.Some? {
      assert IsInteger(d.publishedYear.value as real);
    }
  }

  /** A validated patch, written back out, passes the update shape unchanged. */
  lemma PatchReparses(p: Patch)
    requires WellFormedPatch(p)
    ensures ParseUpdate(PatchBody(p)) == Ok(p)
  {
    var f := PatchBody(p).fields;
    assert Field(f, "title") == if p.title.Some? then Some(Str(p.title.value)) else None;
    assert Field(f, "author") == if p.author.Some? then Some(Str(p.author.value)) else None;
    assert Field(f, "publishedYear") == if p.publishedYear.Some? then Some(Num(p.publishedYear.value as real)) else None;
    assert Field(f, "genre") == if p.genre.Some? then Some(Str(p.genre.value)) else None;
    assert Field(f, "available") == if p.available.Some? then Some(Bool(p.available.value)) else None;
    assert f.Keys <= Keys;
    if p.title.Some? { TrimEmptyIffBlank(p.title.value); }
    if p.author.Some? { TrimEmptyIffBlank(p.author.value); }
    if p.publishedYear.Some? {
      assert IsInteger(p.publishedYear.value as real);
    }
  }
}
