/**
 * `json_to_documents` from the FAQ chatbot script: the items of an uploaded file
 * become documents without normalizing or adding a header.
 */
module Chatbot {
  import opened Common
  import opened Text
  import opened Json
  import opened TextUtils
  import opened Documents
  import JsonLoader

  // ---------------------------------------------------------------------------
  // json_to_documents

  /** The page text: a list or dictionary rendered, a string as it is; any other value
      is not a string and cannot be a document's text. */
  function Content(desc: Json): Result<string, LoadError> {
    match desc
    case JArr(_) => Ok(Rendered(desc).value)
    case JObj(_) => Ok(Rendered(desc).value)
    case JStr(s) => Ok(s)
    case _ => Err(NotText(desc))
  }

  /** One item as a document, or why it cannot be one. */
  function DocumentOf(item: Json): Result<Document, LoadError> {
    match item
    case JObj(fs) =>
      (match Content(GetOr(fs, "description", JStr("")))
       case Ok(c) => Ok(Document(c, Metadata(fs)))
       case Err(e) => Err(e))
    case _ => Err(NotAnObject(item))
  }

  /** What `json_to_documents` returns for the parsed file `data`. */
  function Converted(data: Json): Result<seq<Document>, LoadError> {
    match Items(data)
    case Err(e) => Err(e)
    case Ok(items) => ConvertAll(DocumentOf, items)
  }

  /** `json_to_documents` on the parsed file: one document per item, appended in a
      loop. */
  method JsonToDocuments(data: Json) returns (r: Result<seq<Document>, LoadError>)
    ensures r == Converted(data)
  {
    var items := Items(data);
    if items.Err? {
      return Err(items.error);
    }
    var xs := items.value;
    var documents: seq<Document> := [];
    var i := 0;
    while i < |xs|
      invariant 0 <= i <= |xs|
      invariant ConvertAll(DocumentOf, xs[..i]) == Ok(documents)
    {
      assert xs[..i + 1][..i] == xs[..i];
      var d := DocumentOf(xs[i]);
      if d.Err? {
        ConvertAllStops(DocumentOf, xs, i + 1);
        return Err(d.error);
      }
      documents := documents + [d.value];
      i := i + 1;
    }
    assert xs[..i] == xs;
    r := Ok(documents);
  }

  /** A converted file has one document per item, in order, each with the item's
      metadata record; a missing description gives an empty text. */
  lemma ConvertedEach(data: Json)
    ensures Converted(data).Ok? ==> Items(data).Ok? && |Converted(data).value| == |Items(data).value|
    ensures Converted(data).Ok? ==> forall k :: 0 <= k < |Items(data).value| ==>
      DocumentOf(Items(data).value[k]) == Ok(Converted(data).value[k])
  {
    if Items(data).Ok? {
      ConvertAllEach(DocumentOf, Items(data).value);
    }
  }

  /** The document for an object item: the item's metadata, and the text is the
      rendered description, or the string itself, or empty when it is missing. */
  lemma DocumentOfProperties(fs: Fields)
    ensures DocumentOf(JObj(fs)).Ok? ==> DocumentOf(JObj(fs)).value.metadata == Metadata(fs)
    ensures Lookup(fs, "description").None? ==> DocumentOf(JObj(fs)) == Ok(Document("", Metadata(fs)))
    ensures forall s :: Lookup(fs, "description") == Some(JStr(s)) ==> DocumentOf(JObj(fs)) == Ok(Document(s, Metadata(fs)))
    ensures DocumentOf(JObj(fs)).Err? <==>
      var d := GetOr(fs, "description", JStr("")); !(d.JArr? || d.JObj? || d.JStr?)
  {
  }

  /** The two loaders agree: whenever this one accepts an item, the indexing loader
      accepts it too, with the same metadata and with its text being the header
      followed by the normalized form of this one's text. */
  lemma LoadersAgree(item: Json)
    requires DocumentOf(item).Ok?
    ensures JsonLoader.DocumentOf(item).Ok?
    ensures JsonLoader.DocumentOf(item).value.metadata == DocumentOf(item).value.metadata
    ensures JsonLoader.DocumentOf(item).value.pageContent ==
      JsonLoader.Combined(item.fields, Normalize(DocumentOf(item).value.pageContent))
  {
  }
}
