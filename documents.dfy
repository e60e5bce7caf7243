/**
 * What the two JSON loaders share: the documents they build, iteration over the
 * parsed file, `dict.get` with a default, the fixed metadata record and the way a
 * list or dictionary description is turned into text.
 */
module Documents {
  import opened Common
  import opened Text
  import opened Json

  /** The fields of a JSON object, in document order. */
  type Fields = seq<(string, Json)>

  /** A retrieval document: its text and its metadata. */
  datatype Document = Document(pageContent: string, metadata: Fields)

  /** Why loading stops: the file's top value cannot be iterated, an item is not an
      object (it has no `.get`), or a description cannot become page text. */
  datatype LoadError = NotIterable(data: Json) | NotAnObject(item: Json) | NotText(content: Json)

  /** The values `for item in data` visits: the elements of a list, the keys of an
      object, the one-character strings of a string. */
  function Items(data: Json): Result<seq<Json>, LoadError> {
    match data
    case JArr(es) => Ok(es)
    case JObj(fs) => Ok(seq(|fs|, k requires 0 <= k < |fs| => JStr(fs[k].0)))
    case JStr(s) => Ok(seq(|s|, k requires 0 <= k < |s| => JStr([s[k]])))
    case _ => Err(NotIterable(data))
  }

  /** The value bound to `key`, if any. */
  function Lookup(fields: Fields, key: string): (r: Option<Json>)
    ensures r.Some? ==> (key, r.value) in fields
    ensures r.None? ==> forall k :: 0 <= k < |fields| ==> fields[k].0 != key
  {
    if fields == [] then None
    else if fields[0].0 == key then Some(fields[0].1)
    else Lookup(fields[1..], key)
  }

  /** `d.get(key, default)` */
  function GetOr(fields: Fields, key: string, default: Json): Json {
    match Lookup(fields, key)
    case Some(v) => v
    case None => default
  }

  /** The keys of the metadata record, in order. */
  const MetadataKeys: seq<string> := ["category", "subcategory", "title", "url"]

  /** The metadata record both loaders build: the four fields, each defaulting to
      the empty string. */
  function Metadata(item: Fields): Fields {
    seq(4, k requires 0 <= k < 4 => (MetadataKeys[k], GetOr(item, MetadataKeys[k], JStr(""))))
  }

  /** The record has exactly the four keys, in order, and each holds the item's value
      for that key or `""` when the item has none. */
  lemma MetadataFields(item: Fields)
    ensures |Metadata(item)| == 4
    ensures forall k :: 0 <= k < 4 ==> Metadata(item)[k].0 == MetadataKeys[k]
    ensures forall k :: 0 <= k < 4 ==>
      (Lookup(item, MetadataKeys[k]).Some? ==> Metadata(item)[k].1 == Lookup(item, MetadataKeys[k]).value) &&
      (Lookup(item, MetadataKeys[k]).None? ==> Metadata(item)[k].1 == JStr(""))
    ensures forall key :: Lookup(Metadata(item), key).Some? <==> key in MetadataKeys
  {
    var m := Metadata(item);
    forall key ensures Lookup(m, key).Some? <==> key in MetadataKeys {
      if key in MetadataKeys {
        var k :| 0 <= k < 4 && MetadataKeys[k] == key;
        assert m[k].0 == key;
      }
    }
  }

  /** A list element as a line: a string is itself, anything else its JSON text. */
  function ElementText(j: Json): string {
    if j.JStr? then j.s else Dumps(j)
  }

  /** A dictionary entry as a line: `f"{k}: {v}"`. */
  function EntryText(entry: (string, Json)): string {
    entry.0 + ": " + Str(entry.1)
  }

  /** The text a list or dictionary description becomes, `None` for any other kind of
      value (those are handled by each loader on its own). */
  function Rendered(desc: Json): (r: Option<string>)
    ensures r.Some? <==> desc.JArr? || desc.JObj?
  {
    match desc
    case JArr(es) => Some(Join("\n", Map(ElementText, es)))
    case JObj(fs) => Some(Join("\n", Map(EntryText, fs)))
    case _ => None
  }

  /** A list description gives one line per element: splitting the text at newlines
      gives back the elements, when no string element holds a newline itself
      (non-strings never do, their JSON text is one line). */
  lemma RenderedListLines(es: seq<Json>)
    requires es != []
    requires forall k :: 0 <= k < |es| && es[k].JStr? ==> '\n' !in es[k].s
    ensures Split(Rendered(JArr(es)).value, '\n') == Map(ElementText, es)
    ensures forall k :: 0 <= k < |es| && !es[k].JStr? ==> Split(Rendered(JArr(es)).value, '\n')[k] == Dumps(es[k])
  {
    var lines := Map(ElementText, es);
    forall k | 0 <= k < |lines| ensures '\n' !in lines[k] {
      if !es[k].JStr? {
        DumpsNoControl(es[k]);
        NoNewline(Dumps(es[k]));
      }
    }
    SplitJoin(lines, '\n');
  }

  /** A dictionary description gives one `key: value` line per entry, in key order,
      when no key and no string value holds a newline. */
  lemma RenderedDictLines(fs: Fields)
    requires fs != []
    requires forall k :: 0 <= k < |fs| ==> '\n' !in fs[k].0
    requires forall k :: 0 <= k < |fs| && fs[k].1.JStr? ==> '\n' !in fs[k].1.s
    ensures Split(Rendered(JObj(fs)).value, '\n') == Map(EntryText, fs)
  {
    var lines := Map(EntryText, fs);
    forall k | 0 <= k < |lines| ensures '\n' !in lines[k] {
      var v := Str(fs[k].1);
      if !fs[k].1.JStr? {
        ReprNoControl(fs[k].1);
        NoNewline(v);
      }
      assert lines[k] == fs[k].0 + ": " + v;
      NotInAppend(fs[k].0, ": ", '\n');
      NotInAppend(fs[k].0 + ": ", v, '\n');
    }
    SplitJoin(lines, '\n');
  }

  lemma NoNewline(s: string)
    requires NoControl(s)
    ensures '\n' !in s
  {
    forall k | 0 <= k < |s| ensures s[k] != '\n' {
      assert s[k] >= ' ';
    }
  }

  lemma NotInAppend(a: string, b: string, c: char)
    requires c !in a && c !in b
    ensures c !in a + b
  {
  }

  // ---------------------------------------------------------------------------
  // Converting every item, stopping at the first failure

  /** Applies `convert` to every item in order; the first failure ends the load. */
  function ConvertAll(convert: Json -> Result<Document, LoadError>, items: seq<Json>): Result<seq<Document>, LoadError>
  {
    if items == [] then Ok([])
    else match ConvertAll(convert, items[..|items| - 1])
      case Err(e) => Err(e)
      case Ok(docs) =>
        match convert(items[|items| - 1])
        case Err(e) => Err(e)
        case Ok(d) => Ok(docs + [d])
  }

  /** A successful load has exactly one document per item, in item order, and it
      succeeds exactly when every item converts; a failure is the failure of the first
      item that does not convert. */
  lemma {:induction false} ConvertAllEach(convert: Json -> Result<Document, LoadError>, items: seq<Json>)
    ensures ConvertAll(convert, items).Ok? <==> forall k :: 0 <= k < |items| ==> convert(items[k]).Ok?
    ensures ConvertAll(convert, items).Ok? ==> |ConvertAll(convert, items).value| == |items|
    ensures ConvertAll(convert, items).Ok? ==>
      forall k :: 0 <= k < |items| ==> convert(items[k]) == Ok(ConvertAll(convert, items).value[k])
    ensures ConvertAll(convert, items).Err? ==>
      exists k :: 0 <= k < |items| && (forall m :: 0 <= m < k ==> convert(items[m]).Ok?) &&
        convert(items[k]) == Err(ConvertAll(convert, items).error)
  {
    if items != [] {
      var n := |items| - 1;
      var front := items[..n];
      ConvertAllEach(convert, front);
      assert forall k :: 0 <= k < n ==> front[k] == items[k];
      var r := ConvertAll(convert, items);
      match ConvertAll(convert, front)
      case Err(e) =>
        var k :| 0 <= k < n && (forall m :: 0 <= m < k ==> convert(front[m]).Ok?) && convert(front[k]) == Err(e);
        assert convert(items[k]) == Err(r.error);
      case Ok(docs) =>
        match convert(items[n])
        case Err(e) =>
          assert convert(items[n]) == Err(r.error);
        case Ok(d) =>
          assert r.value == docs + [d];
    }
  }

  /** Once a prefix of the items fails, the whole load fails the same way. */
  lemma {:induction false} ConvertAllStops(convert: Json -> Result<Document, LoadError>, items: seq<Json>, n: nat)
    requires n <= |items| && ConvertAll(convert, items[..n]).Err?
    ensures ConvertAll(convert, items) == ConvertAll(convert, items[..n])
    decreases |items|
  {
    if n < |items| {
      var front := items[..|items| - 1];
      assert front[..n] == items[..n];
      ConvertAllStops(convert, front, n);
    } else {
      assert items[..n] == items;
    }
  }
}
