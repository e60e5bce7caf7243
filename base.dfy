/**
 * The extraction primitives every scraper inherits (`BaseScraper` and `clean_text`):
 * text blocks, tables, question/answer pairs and key/value lists pulled out of a
 * region of the parse tree. Each method walks the tree's search results with the
 * loops the scrapers use and is proved against the function that states what it
 * collects.
 */
module Base {
  import opened Common
  import opened Text
  import opened Html
  import opened Dicts

  /** `clean_text(el.get_text())` */
  function NodeText(n: Node): string {
    CleanText(GetText(n))
  }

  // ---------------------------------------------------------------------------
  // extract_text

  /** The regions `extract_text` searches: every element with the parent tag and
      class, or the whole tree when the parent class is falsy. */
  function TextParents(soup: Node, parentTag: string, parentClass: Option<string>): seq<Node> {
    if Truthy(parentClass) then FindAll(soup, Query(Some(parentTag), parentClass)) else [soup]
  }

  /** The elements matching `q` below each parent, parent after parent. */
  function Matched(parents: seq<Node>, q: Query): seq<Node> {
    if parents == [] then []
    else Matched(parents[..|parents| - 1], q) + FindAll(parents[|parents| - 1], q)
  }

  /** What `extract_text` returns: the cleaned text of every matching element below
      each parent, in document order, one string per element. */
  function Texts(soup: Node, parentTag: string, parentClass: Option<string>,
                 textTag: string, textClass: Option<string>): seq<string>
  {
    Map(NodeText, Matched(TextParents(soup, parentTag, parentClass), Query(Some(textTag), textClass)))
  }

  /** The inner loop of `extract_text`: the cleaned text of each element, appended. */
  method AppendTexts(acc: seq<string>, elems: seq<Node>) returns (results: seq<string>)
    ensures results == acc + Map(NodeText, elems)
  {
    results := acc;
    var j := 0;
    while j < |elems|
      invariant 0 <= j <= |elems|
      invariant results == acc + Map(NodeText, elems[..j])
    {
      MapStep(NodeText, acc, elems, j);
      results := results + [NodeText(elems[j])];
      j := j + 1;
    }
    TakeAll(elems);
  }

  lemma MatchedStep(parents: seq<Node>, q: Query, i: nat)
    requires i < |parents|
    ensures Map(NodeText, Matched(parents[..i + 1], q)) ==
      Map(NodeText, Matched(parents[..i], q)) + Map(NodeText, FindAll(parents[i], q))
  {
    assert parents[..i + 1][..i] == parents[..i];
    MapAppend(NodeText, Matched(parents[..i], q), FindAll(parents[i], q));
  }

  /** `extract_text` */
  method ExtractText(soup: Node, parentTag: string, parentClass: Option<string>,
                     textTag: string, textClass: Option<string>)
    returns (results: seq<string>)
    ensures results == Texts(soup, parentTag, parentClass, textTag, textClass)
  {
    results := [];
    var parents := TextParents(soup, parentTag, parentClass);
    var q := Query(Some(textTag), textClass);
    var i := 0;
    while i < |parents|
      invariant 0 <= i <= |parents|
      invariant results == Map(NodeText, Matched(parents[..i], q))
    {
      MatchedStep(parents, q, i);
      results := AppendTexts(results, FindAll(parents[i], q));
      i := i + 1;
    }
    TakeAll(parents);
  }

  // ---------------------------------------------------------------------------
  // extract_table

  /** What bs4 raises on a malformed table: `find_all("thead")[0]` when the table has
      no `thead` (IndexError), `.find_all` on the `None` that `find("tbody")` gives
      when it has no `tbody` (AttributeError). */
  datatype TableError = MissingHead | MissingBody

  /** The cleaned texts of the `th` cells below a `thead`. */
  function HeaderTexts(thead: Node): seq<string> {
    Map(NodeText, FindAll(thead, ByTag("th")))
  }

  /** The cleaned texts of the `td` cells below a row. */
  function CellTexts(tr: Node): seq<string> {
    Map(NodeText, FindAll(tr, ByTag("td")))
  }

  /** Every row has exactly one cell per header. */
  predicate Fits(headers: seq<string>, rows: seq<seq<string>>) {
    forall k :: 0 <= k < |rows| ==> |rows[k]| == |headers|
  }

  /** The rows that have exactly one cell per header, in order. */
  function KeptRows(headers: seq<string>, rows: seq<seq<string>>): (r: seq<seq<string>>)
    ensures |r| <= |rows|
    ensures Fits(headers, r)
  {
    if rows == [] then []
    else
      var rest := KeptRows(headers, rows[..|rows| - 1]);
      if |rows[|rows| - 1]| == |headers| then rest + [rows[|rows| - 1]] else rest
  }

  lemma KeptRowsSnoc(headers: seq<string>, rows: seq<seq<string>>, c: seq<string>)
    ensures KeptRows(headers, rows + [c]) ==
      if |c| == |headers| then KeptRows(headers, rows) + [c] else KeptRows(headers, rows)
  {
    assert (rows + [c])[..|rows|] == rows;
  }

  /** A row is kept exactly when its cell count equals the header count. */
  lemma {:induction false} KeptRowsExact(headers: seq<string>, rows: seq<seq<string>>)
    ensures forall c :: c in KeptRows(headers, rows) <==> c in rows && |c| == |headers|
  {
    if rows != [] {
      var pre := rows[..|rows| - 1];
      KeptRowsExact(headers, pre);
      assert rows == pre + [rows[|rows| - 1]];
    }
  }

  /** `dict(zip(headers, cols))` for each kept row: every row has exactly the headers
      as keys, and a header that is not repeated maps to the cell in its column. */
  function RowsOf(headers: seq<string>, kept: seq<seq<string>>): (r: seq<Dict>)
    requires Fits(headers, kept)
    ensures |r| == |kept|
    ensures forall k :: 0 <= k < |r| ==> forall h :: h in Keys(r[k]) <==> h in headers
    ensures forall k, i :: 0 <= k < |r| && 0 <= i < |headers| && headers[i] !in headers[i + 1..] ==>
      Get(r[k], headers[i]) == Some(kept[k][i])
  {
    forall k | 0 <= k < |kept| ensures |headers| <= |kept[k]| {
      assert kept[k] in kept;
    }
    forall k | 0 <= k < |kept| {
      FromZipPositional(headers, kept[k]);
    }
    seq(|kept|, k requires 0 <= k < |kept| => FromZip(headers, kept[k]))
  }

  lemma RowsOfSnoc(headers: seq<string>, kept: seq<seq<string>>, c: seq<string>)
    requires Fits(headers, kept)
    requires |c| == |headers|
    ensures RowsOf(headers, kept + [c]) == RowsOf(headers, kept) + [FromZip(headers, c)]
  {
    var l, r := RowsOf(headers, kept + [c]), RowsOf(headers, kept) + [FromZip(headers, c)];
    forall k | 0 <= k < |l| ensures l[k] == r[k] {
      if k < |kept| {
        assert (kept + [c])[k] == kept[k];
      }
    }
  }

  /** What `extract_table` returns or raises. */
  function Table(soup: Node, parentTag: string, parentClass: Option<string>, tableTag: string)
    : Result<seq<Dict>, TableError>
  {
    match Find(soup, Query(Some(parentTag), parentClass))
    case None => Ok([])
    case Some(parent) =>
      match Find(parent, ByTag(tableTag))
      case None => Ok([])
      case Some(table) =>
        var heads := FindAll(table, ByTag("thead"));
        if heads == [] then Err(MissingHead)
        else
          var headers := HeaderTexts(heads[0]);
          match Find(table, ByTag("tbody"))
          case None => Err(MissingBody)
          case Some(body) => Ok(RowsOf(headers, KeptRows(headers, Map(CellTexts, FindAll(body, ByTag("tr"))))))
  }

  /** `extract_table`: no region or no table gives no rows; a table without `thead` or
      `tbody` raises; otherwise one dictionary per body row with one cell per header. */
  method ExtractTable(soup: Node, parentTag: string, parentClass: Option<string>, tableTag: string)
    returns (res: Result<seq<Dict>, TableError>)
    ensures res == Table(soup, parentTag, parentClass, tableTag)
  {
    var parent := Find(soup, Query(Some(parentTag), parentClass));
    if parent.None? {
      return Ok([]);
    }
    var table := Find(parent.value, ByTag(tableTag));
    if table.None? {
      return Ok([]);
    }
    var heads := FindAll(table.value, ByTag("thead"));
    if heads == [] {
      return Err(MissingHead);
    }
    var headers := HeaderTexts(heads[0]);
    var body := Find(table.value, ByTag("tbody"));
    if body.None? {
      return Err(MissingBody);
    }
    var trs := FindAll(body.value, ByTag("tr"));
    ghost var cells := Map(CellTexts, trs);
    var rows: seq<Dict> := [];
    var i := 0;
    while i < |trs|
      invariant 0 <= i <= |trs|
      invariant rows == RowsOf(headers, KeptRows(headers, cells[..i]))
    {
      var cols := CellTexts(trs[i]);
      TakeSnoc(cells, i);
      KeptRowsSnoc(headers, cells[..i], cols);
      if |cols| == |headers| {
        RowsOfSnoc(headers, KeptRows(headers, cells[..i]), cols);
        rows := rows + [FromZip(headers, cols)];
      }
      i := i + 1;
    }
    assert cells[..i] == cells;
    return Ok(rows);
  }

  // ---------------------------------------------------------------------------
  // extract_qna

  /** The string for one question/answer pair. */
  function QnaLine(q: Node, a: Node): string {
    "Q: " + NodeText(q) + " A: " + NodeText(a)
  }

  /** What `extract_qna` returns. */
  function QnaPairs(soup: Node, parentTag: string, parentClass: Option<string>,
                    questionTag: Option<string>, answerTag: Option<string>): seq<string>
  {
    match Find(soup, Query(Some(parentTag), parentClass))
    case None => []
    case Some(parent) =>
      var qs := FindAll(parent, Query(questionTag, None));
      var ans := FindAll(parent, Query(answerTag, None));
      seq(if |qs| < |ans| then |qs| else |ans|, k requires 0 <= k < |qs| && k < |ans| => QnaLine(qs[k], ans[k]))
  }

  /** `extract_qna`: nothing without the region; otherwise the i-th question paired
      with the i-th answer. */
  method ExtractQna(soup: Node, parentTag: string, parentClass: Option<string>,
                    questionTag: Option<string>, answerTag: Option<string>)
    returns (results: seq<string>)
    ensures results == QnaPairs(soup, parentTag, parentClass, questionTag, answerTag)
  {
    results := [];
    var parent := Find(soup, Query(Some(parentTag), parentClass));
    if parent.None? {
      return;
    }
    var qs := FindAll(parent.value, Query(questionTag, None));
    var ans := FindAll(parent.value, Query(answerTag, None));
    results := ZipWith(qs, ans, QnaLine);
    QnaPairsOf(soup, parentTag, parentClass, questionTag, answerTag, parent.value, results);
  }

  /** The pairs of a found region, given one by one. */
  lemma QnaPairsOf(soup: Node, parentTag: string, parentClass: Option<string>,
                   questionTag: Option<string>, answerTag: Option<string>, parent: Node, r: seq<string>)
    requires Find(soup, Query(Some(parentTag), parentClass)) == Some(parent)
    requires var qs, ans := FindAll(parent, Query(questionTag, None)), FindAll(parent, Query(answerTag, None));
      && |r| == (if |qs| < |ans| then |qs| else |ans|)
      && forall k :: 0 <= k < |r| ==> r[k] == QnaLine(qs[k], ans[k])
    ensures r == QnaPairs(soup, parentTag, parentClass, questionTag, answerTag)
  {
  }

  /** No region or no table gives no rows; a table that is found raises exactly when
      it has no `thead`, or has one but no `tbody`; rows are only ever built from a
      found table. */
  lemma TableCases(soup: Node, parentTag: string, parentClass: Option<string>, tableTag: string)
    ensures Find(soup, Query(Some(parentTag), parentClass)).None? ==> Table(soup, parentTag, parentClass, tableTag) == Ok([])
    ensures Table(soup, parentTag, parentClass, tableTag).Err? <==>
      Find(soup, Query(Some(parentTag), parentClass)).Some? &&
      var parent := Find(soup, Query(Some(parentTag), parentClass)).value;
      Find(parent, ByTag(tableTag)).Some? &&
      var table := Find(parent, ByTag(tableTag)).value;
      (FindAll(table, ByTag("thead")) == [] || Find(table, ByTag("tbody")).None?)
    ensures Table(soup, parentTag, parentClass, tableTag) == Err(MissingBody) ==>
      FindAll(Find(Find(soup, Query(Some(parentTag), parentClass)).value, ByTag(tableTag)).value, ByTag("thead")) != []
  {
  }

  // ---------------------------------------------------------------------------
  // extract_key_value

  /** The key of an item: the cleaned text of its first key element, or "" without one. */
  function ItemKey(li: Node, keyTag: string): string {
    match Find(li, ByTag(keyTag))
    case None => ""
    case Some(k) => NodeText(k)
  }

  /** The value of an item: its text with every occurrence of the key removed, cleaned. */
  function ItemValue(li: Node, key: string): string {
    if key != "" then CleanText(Replace(GetText(li), key, "")) else NodeText(li)
  }

  /** The key and the value read from one item. */
  function ItemEntry(keyTag: string, li: Node): (string, string) {
    var key := ItemKey(li, keyTag);
    (key, ItemValue(li, key))
  }

  const MiscPrefix: string := "_misc_"

  /** The synthetic key `_misc_<n>`. */
  function MiscKey(n: nat): string {
    MiscPrefix + NatToString(n)
  }

  /** The key an entry goes under when `d` holds what the earlier entries put: its own
      key, or the next synthetic key when it has none. */
  function SlotKey(d: Dict, key: string): string {
    if key != "" then key else MiscKey(|d| + 1)
  }

  /** The dictionary built from the entries, one assignment after another. */
  function KeyValues(es: seq<(string, string)>): (d: Dict)
    ensures |d| <= |es| && DistinctKeys(d)
  {
    if es == [] then []
    else
      var d := KeyValues(es[..|es| - 1]);
      var e := es[|es| - 1];
      PutProperties(d, SlotKey(d, e.0), e.1);
      Put(d, SlotKey(d, e.0), e.1)
  }

  lemma KeyValuesSnoc(es: seq<(string, string)>, e: (string, string))
    ensures KeyValues(es + [e]) == Put(KeyValues(es), SlotKey(KeyValues(es), e.0), e.1)
  {
    assert (es + [e])[..|es|] == es;
  }

  /** The entries of the items, in order. */
  function ItemEntries(items: seq<Node>, keyTag: string): (r: seq<(string, string)>)
    ensures |r| == |items|
    ensures forall k :: 0 <= k < |items| ==> r[k] == ItemEntry(keyTag, items[k])
  {
    seq(|items|, k requires 0 <= k < |items| => ItemEntry(keyTag, items[k]))
  }

  /** What `extract_key_value` returns. */
  function KeyValueSpec(soup: Node, parentTag: string, parentClass: Option<string>,
                        itemTag: string, keyTag: string): Dict
  {
    match Find(soup, Query(Some(parentTag), parentClass))
    case None => []
    case Some(parent) => KeyValues(ItemEntries(FindAll(parent, ByTag(itemTag)), keyTag))
  }

  /** One more entry, stored under its own key or the next synthetic one. */
  lemma KeyValuesStep(es: seq<(string, string)>, i: nat, d: Dict, key: string, value: string)
    requires i < |es| && d == KeyValues(es[..i]) && es[i] == (key, value)
    ensures Put(d, if key != "" then key else MiscKey(|d| + 1), value) == KeyValues(es[..i + 1])
  {
    TakeSnoc(es, i);
    KeyValuesSnoc(es[..i], (key, value));
  }

  /** The key and the value of one item. */
  method ReadItem(li: Node, keyTag: string) returns (key: string, value: string)
    ensures (key, value) == ItemEntry(keyTag, li)
  {
    key := ItemKey(li, keyTag);
    value := ItemValue(li, key);
  }

  /** The loop of `extract_key_value` over the items of the region. */
  method CollectKeyValues(items: seq<Node>, keyTag: string) returns (data: Dict)
    ensures data == KeyValues(ItemEntries(items, keyTag))
  {
    data := [];
    ghost var entries := ItemEntries(items, keyTag);
    var i := 0;
    while i < |items|
      invariant 0 <= i <= |items|
      invariant data == KeyValues(entries[..i])
    {
      var key, value := ReadItem(items[i], keyTag);
      KeyValuesStep(entries, i, data, key, value);
      data := Put(data, if key != "" then key else MiscKey(|data| + 1), value);
      i := i + 1;
    }
    TakeAll(entries);
  }

  /** `extract_key_value` */
  method ExtractKeyValue(soup: Node, parentTag: string, parentClass: Option<string>,
                         itemTag: string, keyTag: string)
    returns (data: Dict)
    ensures data == KeyValueSpec(soup, parentTag, parentClass, itemTag, keyTag)
  {
    var parent := Find(soup, Query(Some(parentTag), parentClass));
    if parent.None? {
      return [];
    }
    data := CollectKeyValues(FindAll(parent.value, ByTag(itemTag)), keyTag);
  }

  /** No region gives an empty dictionary; otherwise it has at most one pair per item,
      and no key twice. */
  lemma KeyValueSize(soup: Node, parentTag: string, parentClass: Option<string>, itemTag: string, keyTag: string)
    ensures Find(soup, Query(Some(parentTag), parentClass)).None? ==> KeyValueSpec(soup, parentTag, parentClass, itemTag, keyTag) == []
    ensures Find(soup, Query(Some(parentTag), parentClass)).Some? ==>
      |KeyValueSpec(soup, parentTag, parentClass, itemTag, keyTag)| <=
        |FindAll(Find(soup, Query(Some(parentTag), parentClass)).value, ByTag(itemTag))|
    ensures DistinctKeys(KeyValueSpec(soup, parentTag, parentClass, itemTag, keyTag))
  {
  }

  /** No real key looks like a synthetic one. */
  ghost predicate NoMiscLookalikes(es: seq<(string, string)>) {
    forall k :: 0 <= k < |es| ==> !(MiscPrefix <= es[k].0)
  }

  /** No synthetic key numbered beyond the dictionary's size is present. */
  ghost predicate MiscFree(d: Dict) {
    forall n: nat :: n > |d| ==> MiscKey(n) !in Keys(d)
  }

  /** Different numbers give different synthetic keys. */
  lemma MiscKeyInjective(m: nat, n: nat)
    requires m != n
    ensures MiscKey(m) != MiscKey(n)
  {
    if MiscKey(m) == MiscKey(n) {
      assert NatToString(m) == MiscKey(m)[|MiscPrefix|..];
      assert NatToString(n) == MiscKey(n)[|MiscPrefix|..];
      NatToStringInjective(m, n);
    }
  }

  lemma MiscKeyPrefixed(n: nat)
    ensures MiscPrefix <= MiscKey(n)
  {
  }

  lemma NoMiscLookalikesPrefix(es: seq<(string, string)>, i: nat)
    requires i <= |es| && NoMiscLookalikes(es)
    ensures NoMiscLookalikes(es[..i])
  {
    forall k | 0 <= k < i ensures !(MiscPrefix <= es[..i][k].0) {
      assert es[..i][k] == es[k];
    }
  }

  lemma {:induction false} KeyValuesMiscFree(es: seq<(string, string)>)
    requires NoMiscLookalikes(es)
    ensures MiscFree(KeyValues(es))
  {
    if es != [] {
      var pre := es[..|es| - 1];
      NoMiscLookalikesPrefix(es, |es| - 1);
      KeyValuesMiscFree(pre);
      var d := KeyValues(pre);
      var key := es[|es| - 1].0;
      var slot := SlotKey(d, key);
      var d' := KeyValues(es);
      PutProperties(d, slot, es[|es| - 1].1);
      forall n: nat | n > |d'| ensures MiscKey(n) !in Keys(d') {
        assert MiscKey(n) !in Keys(d);
        if key != "" {
          assert !(MiscPrefix <= slot);
          assert MiscKey(n) != slot;
        } else {
          assert MiscKey(|d| + 1) !in Keys(d);
          assert n != |d| + 1;
          MiscKeyInjective(n, |d| + 1);
        }
      }
    }
  }

  lemma {:induction false} KeyValuesGrow(es: seq<(string, string)>, i: nat)
    requires i <= |es|
    ensures |KeyValues(es[..i])| <= |KeyValues(es)|
  {
    if i < |es| {
      var pre := es[..|es| - 1];
      assert pre[..i] == es[..i];
      KeyValuesGrow(pre, i);
      var d := KeyValues(pre);
      PutProperties(d, SlotKey(d, es[|es| - 1].0), es[|es| - 1].1);
    } else {
      assert es[..i] == es;
    }
  }

  /** The slot of the last entry differs from the synthetic key an earlier unkeyed
      entry received. */
  lemma LaterSlotDiffers(es: seq<(string, string)>, i: nat)
    requires i < |es| - 1 && NoMiscLookalikes(es)
    requires es[i].0 == ""
    ensures SlotKey(KeyValues(es[..|es| - 1]), es[|es| - 1].0) != MiscKey(|KeyValues(es[..i])| + 1)
  {
    if es[|es| - 1].0 != "" {
      MiscKeyPrefixed(|KeyValues(es[..i])| + 1);
    } else {
      UnkeyedGrows(es, i);
      LaterSizeAtLeast(es, i);
      MiscKeyInjective(|KeyValues(es[..|es| - 1])| + 1, |KeyValues(es[..i])| + 1);
    }
  }

  lemma LaterSizeAtLeast(es: seq<(string, string)>, i: nat)
    requires i < |es| - 1
    ensures |KeyValues(es[..i + 1])| <= |KeyValues(es[..|es| - 1])|
  {
    TakeTake(es, i + 1, |es| - 1);
    KeyValuesGrow(es[..|es| - 1], i + 1);
  }

  /** An entry without a key adds a new pair. */
  lemma UnkeyedGrows(es: seq<(string, string)>, i: nat)
    requires i < |es| && NoMiscLookalikes(es)
    requires es[i].0 == ""
    ensures |KeyValues(es[..i + 1])| == |KeyValues(es[..i])| + 1
  {
    var di := KeyValues(es[..i]);
    NoMiscLookalikesPrefix(es, i);
    KeyValuesMiscFree(es[..i]);
    assert MiscKey(|di| + 1) !in Keys(di);
    assert es[..i + 1][..i] == es[..i];
    assert KeyValues(es[..i + 1]) == Put(di, MiscKey(|di| + 1), es[i].1);
    PutProperties(di, MiscKey(|di| + 1), es[i].1);
  }

  /** When no real key looks like `_misc_<n>`, every entry without a key keeps its value
      under its own synthetic key: no later entry overwrites it, so the synthetic keys
      of different entries differ and no unkeyed value is lost. */
  lemma {:induction false} UnkeyedEntryKept(es: seq<(string, string)>, i: nat)
    requires i < |es| && NoMiscLookalikes(es)
    requires es[i].0 == ""
    ensures Get(KeyValues(es), MiscKey(|KeyValues(es[..i])| + 1)) == Some(es[i].1)
  {
    if i == |es| - 1 {
      UnkeyedLastKept(es);
    } else {
      var pre := es[..|es| - 1];
      NoMiscLookalikesPrefix(es, |es| - 1);
      assert pre[..i] == es[..i] && pre[i] == es[i];
      UnkeyedEntryKept(pre, i);
      LaterSlotDiffers(es, i);
      LastPut(es);
    }
  }

  /** When no real key looks like `_misc_<n>`, the last item carrying a key leaves
      its value under that key: later assignments to other keys and synthetic keys
      do not touch it. */
  lemma {:induction false} KeyedEntryKept(es: seq<(string, string)>, i: nat)
    requires i < |es| && NoMiscLookalikes(es)
    requires es[i].0 != ""
    requires forall j :: i < j < |es| ==> es[j].0 != es[i].0
    ensures Get(KeyValues(es), es[i].0) == Some(es[i].1)
  {
    if i == |es| - 1 {
      var d := KeyValues(es[..|es| - 1]);
      PutGet(d, es[i].0, es[i].1);
    } else {
      var pre := es[..|es| - 1];
      NoMiscLookalikesPrefix(es, |es| - 1);
      assert pre[i] == es[i];
      forall j | i < j < |pre| ensures pre[j].0 != pre[i].0 {
        assert pre[j] == es[j];
      }
      KeyedEntryKept(pre, i);
      var last := es[|es| - 1].0;
      var slot := SlotKey(KeyValues(pre), last);
      if last == "" {
        MiscKeyPrefixed(|KeyValues(pre)| + 1);
        assert !(MiscPrefix <= es[i].0);
      }
      assert slot != es[i].0;
      LastPut(es);
    }
  }

  /** The key each entry went under, in order. */
  function Slots(es: seq<(string, string)>): (r: seq<string>)
    ensures |r| == |es|
    ensures forall i :: 0 <= i < |es| ==> r[i] == SlotKey(KeyValues(es[..i]), es[i].0)
  {
    seq(|es|, i requires 0 <= i < |es| => SlotKey(KeyValues(es[..i]), es[i].0))
  }

  lemma SlotsSnoc(es: seq<(string, string)>)
    requires es != []
    ensures Slots(es) == Slots(es[..|es| - 1]) + [SlotKey(KeyValues(es[..|es| - 1]), es[|es| - 1].0)]
  {
    var pre := es[..|es| - 1];
    var t := Slots(pre) + [SlotKey(KeyValues(pre), es[|es| - 1].0)];
    forall i | 0 <= i < |es| ensures Slots(es)[i] == t[i] {
      if i < |pre| {
        assert pre[..i] == es[..i] && pre[i] == es[i];
      } else {
        assert es[..i] == pre;
      }
    }
    assert |Slots(es)| == |t|;
  }

  /** The keys are exactly the slots the items went to: each item's own key, or the
      synthetic key it received when it had none. */
  lemma {:induction false} KeyValuesKeys(es: seq<(string, string)>)
    ensures forall k :: k in Keys(KeyValues(es)) <==> k in Slots(es)
  {
    if es != [] {
      var pre := es[..|es| - 1];
      var e := es[|es| - 1];
      KeyValuesKeys(pre);
      var d := KeyValues(pre);
      PutKeys(d, SlotKey(d, e.0), e.1);
      SlotsSnoc(es);
    }
  }

  /** When no real key looks like `_misc_<n>`, the keys that do not look like one
      are exactly the non-empty keys of the items. */
  lemma KeyValuesRealKeys(es: seq<(string, string)>)
    requires NoMiscLookalikes(es)
    ensures forall k :: !(MiscPrefix <= k) ==>
      (k in Keys(KeyValues(es)) <==> k != "" && exists i :: 0 <= i < |es| && es[i].0 == k)
  {
    KeyValuesKeys(es);
    forall k | !(MiscPrefix <= k)
      ensures k in Keys(KeyValues(es)) <==> k != "" && exists i :: 0 <= i < |es| && es[i].0 == k
    {
      if k in Keys(KeyValues(es)) {
        var i :| 0 <= i < |es| && Slots(es)[i] == k;
        assert es[i].0 != "";
      }
      if k != "" && exists i :: 0 <= i < |es| && es[i].0 == k {
        var i :| 0 <= i < |es| && es[i].0 == k;
        assert Slots(es)[i] == k;
      }
    }
  }

  /** The last entry, when it has no key, is stored under the next synthetic key. */
  lemma UnkeyedLastKept(es: seq<(string, string)>)
    requires es != [] && es[|es| - 1].0 == ""
    ensures Get(KeyValues(es), MiscKey(|KeyValues(es[..|es| - 1])| + 1)) == Some(es[|es| - 1].1)
  {
    var d := KeyValues(es[..|es| - 1]);
    PutGet(d, MiscKey(|d| + 1), es[|es| - 1].1);
  }

  /** The last entry changes only the value of its own slot. */
  lemma LastPut(es: seq<(string, string)>)
    requires es != []
    ensures forall k :: k != SlotKey(KeyValues(es[..|es| - 1]), es[|es| - 1].0) ==>
      Get(KeyValues(es), k) == Get(KeyValues(es[..|es| - 1]), k)
  {
    var d := KeyValues(es[..|es| - 1]);
    PutGet(d, SlotKey(d, es[|es| - 1].0), es[|es| - 1].1);
  }
}
