/**
 * The parse tree the scrapers query, standing for a BeautifulSoup document: text
 * nodes and elements with a tag name, a class list, the other attributes and the
 * children in document order. The tag/class searches (`find`, `find_all`, with and
 * without `recursive=False`) and the text getters are defined on it here; CSS
 * selection is not (the crawler takes it as a parameter).
 */
module Html {
  import opened Common
  import opened Text

  datatype Node =
    | TextNode(text: string)
    | Element(tag: string, classes: seq<string>, attrs: map<string, string>, children: seq<Node>)

  /** The `name` and `class_` filters of `find`/`find_all`; `None` matches anything. */
  datatype Query = Query(name: Option<string>, cls: Option<string>)

  /** A filter on the tag name only. */
  function ByTag(tag: string): Query {
    Query(Some(tag), None)
  }

  predicate Matches(n: Node, q: Query) {
    n.Element? &&
    (q.name.None? || n.tag == q.name.value) &&
    (q.cls.None? || q.cls.value in n.classes)
  }

  /** The direct children of a node (a text node has none). */
  function Children(n: Node): seq<Node> {
    if n.Element? then n.children else []
  }

  /** Every node below `n`, in document order (pre-order), without `n` itself. */
  function Descendants(n: Node): seq<Node>
    decreases n
  {
    match n
    case TextNode(_) => []
    case Element(_, _, _, cs) => DescendantsOf(cs)
  }

  function DescendantsOf(cs: seq<Node>): seq<Node>
    decreases cs
  {
    if cs == [] then [] else [cs[0]] + Descendants(cs[0]) + DescendantsOf(cs[1..])
  }

  /** The nodes of `ns` that match `q`, in their order. */
  function Filter(ns: seq<Node>, q: Query): (r: seq<Node>)
    ensures |r| <= |ns|
  {
    if ns == [] then []
    else (if Matches(ns[0], q) then [ns[0]] else []) + Filter(ns[1..], q)
  }

  /** The filter keeps exactly the nodes that match. */
  lemma {:induction false} FilterMembers(ns: seq<Node>, q: Query)
    ensures forall x :: x in Filter(ns, q) ==> x in ns && Matches(x, q)
    ensures forall x :: x in ns && Matches(x, q) ==> x in Filter(ns, q)
  {
    if ns != [] {
      FilterMembers(ns[1..], q);
    }
  }

  /** `n.find_all(name, class_=cls)` */
  function FindAll(n: Node, q: Query): seq<Node> {
    Filter(Descendants(n), q)
  }

  /** `n.find(name, class_=cls)` */
  function Find(n: Node, q: Query): Option<Node> {
    First(FindAll(n, q))
  }

  /** `n.find(name, class_=cls, recursive=False)`: the first matching child. */
  function FindChild(n: Node, q: Query): (r: Option<Node>)
    ensures r.Some? ==> r.value in Children(n) && Matches(r.value, q)
  {
    FilterMembers(Children(n), q);
    First(Filter(Children(n), q))
  }

  /** The text nodes below `n` (or `n` itself), in document order. */
  function Strings(n: Node): seq<string>
    decreases n
  {
    match n
    case TextNode(t) => [t]
    case Element(_, _, _, cs) => StringsOf(cs)
  }

  function StringsOf(cs: seq<Node>): seq<string>
    decreases cs
  {
    if cs == [] then [] else Strings(cs[0]) + StringsOf(cs[1..])
  }

  /** `n.get_text()`: all text below `n`, concatenated. */
  function GetText(n: Node): string {
    Join("", Strings(n))
  }

  /** The stripped strings that are not empty, in order. */
  function StrippedStrings(ss: seq<string>): seq<string> {
    if ss == [] then []
    else (if Strip(ss[0]) == "" then [] else [Strip(ss[0])]) + StrippedStrings(ss[1..])
  }

  /** `n.get_text(separator=sep, strip=True)` */
  function GetTextStripped(n: Node, sep: string): string {
    Join(sep, StrippedStrings(Strings(n)))
  }

  /** `n.get(key)` */
  function Attr(n: Node, key: string): Option<string> {
    if n.Element? && key in n.attrs then Some(n.attrs[key]) else None
  }

  /** `n.get(key, "")` */
  function AttrOr(n: Node, key: string): string {
    if n.Element? && key in n.attrs then n.attrs[key] else ""
  }
}
