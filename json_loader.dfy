/**
 * `JsonLoader.load`: every item of the parsed file becomes one document whose text is
 * a short header (title, category > subcategory) followed by the normalized
 * description, and whose metadata is the fixed four-field record.
 */
module JsonLoader {
  import opened Common
  import opened Text
  import opened Json
  import opened TextUtils
  import opened Documents

  /** The description as normalized text. A list or dictionary is rendered first; a
      string is normalized; a value Python treats as false (`None`, `false`, `0`)
      normalizes to the empty text; any other value has no `.replace` and fails. */
  function Body(desc: Json): Result<string, LoadError> {
    match desc
    case JArr(_) => Ok(Normalize(Rendered(desc).value))
    case JObj(_) => Ok(Normalize(Rendered(desc).value))
    case JStr(s) => Ok(Normalize(s))
    case JNull => Ok("")
    case JBool(b) => if b then Err(NotText(desc)) else Ok("")
    case JInt(i) => if i == 0 then Ok("") else Err(NotText(desc))
  }

  /** The item's value for a metadata key, as the f-string prints it. */
  function Field(item: Fields, key: string): string {
    Str(GetOr(item, key, JStr("")))
  }

  /** The page text: `"[제목] <title>\n[분류] <category>><subcategory>\n\n<body>"`. */
  function Combined(item: Fields, body: string): string {
    "[제목] " + Field(item, "title") + "\n[분류] " + Field(item, "category") + ">" +
    Field(item, "subcategory") + "\n\n" + body
  }

  /** One item as a document, or why it cannot be one. */
  function DocumentOf(item: Json): Result<Document, LoadError> {
    match item
    case JObj(fs) =>
      (match Body(GetOr(fs, "description", JStr("")))
       case Ok(body) => Ok(Document(Combined(fs, body), Metadata(fs)))
       case Err(e) => Err(e))
    case _ => Err(NotAnObject(item))
  }

  /** What `load` returns for the parsed file `data`. */
  function Loaded(data: Json): Result<seq<Document>, LoadError> {
    match Items(data)
    case Err(e) => Err(e)
    case Ok(items) => ConvertAll(DocumentOf, items)
  }

  /** `load()` on the parsed file: one document per item, appended in a loop. */
  method Load(data: Json) returns (r: Result<seq<Document>, LoadError>)
    ensures r == Loaded(data)
  {
    var items := Items(data);
    if items.Err? {
      return Err(items.error);
    }
    var xs := items.value;
    var docs: seq<Document> := [];
    var i := 0;
    while i < |xs|
      invariant 0 <= i <= |xs|
      invariant ConvertAll(DocumentOf, xs[..i]) == Ok(docs)
    {
      assert xs[..i + 1][..i] == xs[..i];
      var d := DocumentOf(xs[i]);
      if d.Err? {
        ConvertAllStops(DocumentOf, xs, i + 1);
        return Err(d.error);
      }
      docs := docs + [d.value];
      i := i + 1;
    }
    assert xs[..i] == xs;
    r := Ok(docs);
  }

  // ---------------------------------------------------------------------------
  // Properties

  /** Only a truthy number or `true` stops the load; a missing description gives an
      empty body; any body is trimmed, one line, and has only plain spaces. */
  lemma BodyProperties(desc: Json)
    ensures Body(desc).Err? <==> desc == JBool(true) || (desc.JInt? && desc.i != 0)
    ensures Body(JStr("")) == Ok("")
    ensures Body(desc).Ok? ==> Trimmed(Body(desc).value) && PlainSpaces(Body(desc).value)
    ensures Body(desc).Ok? ==> '\n' !in Body(desc).value
  {
    NormalizeEmpty();
    match desc
    case JArr(_) => NormalizeProperties(Rendered(desc).value);
    case JObj(_) => NormalizeProperties(Rendered(desc).value);
    case JStr(s) => NormalizeProperties(s);
    case _ =>
  }

  /** A document has the item's metadata record, and its text is the header followed
      by the normalized description; when the item has no description the text is the
      header alone. */
  lemma DocumentOfProperties(fs: Fields)
    ensures DocumentOf(JObj(fs)).Ok? <==> Body(GetOr(fs, "description", JStr(""))).Ok?
    ensures DocumentOf(JObj(fs)).Ok? ==>
      DocumentOf(JObj(fs)).value.metadata == Metadata(fs) &&
      DocumentOf(JObj(fs)).value.pageContent == Combined(fs, Body(GetOr(fs, "description", JStr(""))).value)
    ensures Lookup(fs, "description").None? ==> DocumentOf(JObj(fs)) == Ok(Document(Combined(fs, ""), Metadata(fs)))
  {
    NormalizeEmpty();
  }

  /** The text reads back line by line as the title line, the category line, a blank
      line and the body, provided the three metadata values print without newlines. */
  lemma CombinedLines(item: Fields, body: string)
    requires '\n' !in Field(item, "title") && '\n' !in Field(item, "category")
    requires '\n' !in Field(item, "subcategory") && '\n' !in body
    ensures Split(Combined(item, body), '\n') ==
      ["[제목] " + Field(item, "title"), "[분류] " + Field(item, "category") + ">" + Field(item, "subcategory"), "", body]
  {
    var t, c, sc := Field(item, "title"), Field(item, "category"), Field(item, "subcategory");
    var l1 := "[제목] " + t;
    var l2 := "[분류] " + c + ">" + sc;
    JoinFour(l1, l2, "", body);
    CombinedShape(t, c, sc, body);
    NotInAppend("[제목] ", t, '\n');
    NotInAppend("[분류] ", c, '\n');
    NotInAppend("[분류] " + c, ">", '\n');
    NotInAppend("[분류] " + c + ">", sc, '\n');
    SplitJoin([l1, l2, "", body], '\n');
  }

  lemma CombinedShape(t: string, c: string, sc: string, body: string)
    ensures "[제목] " + t + "\n[분류] " + c + ">" + sc + "\n\n" + body ==
      ("[제목] " + t) + "\n" + ("[분류] " + c + ">" + sc) + "\n" + "" + "\n" + body
  {
  }

  lemma JoinFour(a: string, b: string, c: string, d: string)
    ensures Join("\n", [a, b, c, d]) == a + "\n" + b + "\n" + c + "\n" + d
  {
    var parts := [a, b, c, d];
    var nl := "\n";
    assert parts[1..][1..][1..] == [d];
    assert parts[1..][1..] == [c, d];
    assert parts[1..] == [b, c, d];
    assert Join(nl, [d]) == d;
    assert Join(nl, [c, d]) == (c + nl) + d;
    assert Join(nl, [b, c, d]) == (b + nl) + ((c + nl) + d);
    assert Join(nl, parts) == (a + nl) + ((b + nl) + ((c + nl) + d));
    AppendAssoc(a + nl, b + nl, (c + nl) + d);
    AppendAssoc(a + nl, b, nl);
    var y := a + nl + b + nl;
    AppendAssoc(y, c + nl, d);
    AppendAssoc(y, c, nl);
  }

  /** A loaded file has one document per item, in order. */
  lemma LoadedEach(data: Json)
    ensures Loaded(data).Ok? ==> Items(data).Ok? && |Loaded(data).value| == |Items(data).value|
    ensures Loaded(data).Ok? ==> forall k :: 0 <= k < |Items(data).value| ==>
      DocumentOf(Items(data).value[k]) == Ok(Loaded(data).value[k])
  {
    if Items(data).Ok? {
      ConvertAllEach(DocumentOf, Items(data).value);
    }
  }
}
