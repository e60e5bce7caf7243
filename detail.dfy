/**
 * The detail crawler (`DetailScraper`): starting from the menu items, it takes
 * entries from the front of a queue, skips the ones it has already visited, turns
 * each page into a record (structured description, contact list, raw html), lets
 * the first matching page type add to the description, and queues the page's
 * internal tab links at the back. Fetching, parsing and CSS selection are the
 * parameters of a `Web`; the crawl is proved against a function on the crawl state.
 */
module Detail {
  import opened Common
  import opened Text
  import opened Html
  import opened Dicts
  import opened Base

  /** A queue entry: the four strings that also make up the visited key. */
  datatype Entry = Entry(url: string, category: string, subcategory: string, title: string)

  /** One element of a description: a text or a table row. */
  datatype Desc = DescText(text: string) | DescRow(row: Dict)

  /** One crawled page. `contact` is `None` when the contact list is empty. */
  datatype Record = Record(category: string, subcategory: string, title: string, url: string,
                           description: seq<Desc>, contact: Option<Dict>, rawHtml: string)

  /** The entry a record was made from. */
  function KeyOf(r: Record): Entry {
    Entry(r.url, r.category, r.subcategory, r.title)
  }

  /** What stops the crawl: a page that cannot be fetched (`raise_for_status`, a
      network error) or a table that bs4 cannot read. */
  datatype CrawlError = FetchFailed(url: string) | BadTable(error: TableError)

  /** The outside world of the crawler: the pages that can be fetched (by url), the
      html parser, CSS selection (`select`), `decode_contents`, `urljoin` and the
      network location of a url (`urlparse(u).netloc`). */
  datatype Web = Web(pages: map<string, string>, parse: string -> Node,
                     select: (Node, string) -> seq<Node>, decodeContents: Node -> string,
                     urljoin: (string, string) -> string, netloc: string -> string)

  /** `n.select_one(sel)` */
  function SelectOne(web: Web, n: Node, sel: string): Option<Node> {
    First(web.select(n, sel))
  }

  // ---------------------------------------------------------------------------
  // Configuration (the `detail` section of the crawler configuration)

  datatype TextBlock = TextBlock(parentTag: string, parentClass: Option<string>,
                                 extractTag: string, extractClass: Option<string>)
  datatype TableBlock = TableBlock(parentTag: string, parentClass: Option<string>, tableTag: string)
  datatype QnaBlock = QnaBlock(parentTag: string, parentClass: Option<string>,
                               question: Option<string>, answer: Option<string>)

  /** The rules of a page type; a missing key is `None`. */
  datatype TableRule = TableRule(selector: Option<string>, block: TableBlock)
  datatype QnaRule = QnaRule(parentSelector: Option<string>, questionSelector: Option<string>,
                             answerSelector: Option<string>)
  datatype Rule = Rule(textSelector: Option<string>, tables: Option<TableRule>, qna: Option<QnaRule>)
  datatype PageType = PageType(detect: Option<string>, extract: seq<Rule>)

  /** `qna` is `None` when the configuration has no (or an empty) `qna` entry. */
  datatype DetailConfig = DetailConfig(textBlocks: seq<TextBlock>, tables: seq<TableBlock>,
                                       qna: Option<QnaBlock>, pageTypes: seq<PageType>,
                                       tabSelector: string)

  // ---------------------------------------------------------------------------
  // The page and its container

  function Page(web: Web, url: string): Node
    requires url in web.pages
  {
    web.parse(web.pages[url])
  }

  /** `soup.select_one("#divContents") or soup.select_one("#divContent")` */
  function Container(web: Web, soup: Node): Option<Node> {
    var first := SelectOne(web, soup, "#divContents");
    if first.Some? then first else SelectOne(web, soup, "#divContent")
  }

  /** `container or soup` */
  function Root(soup: Node, container: Option<Node>): Node {
    if container.Some? then container.value else soup
  }

  // ---------------------------------------------------------------------------
  // The initial description

  function TextDesc(s: string): Desc {
    DescText(s)
  }

  function RowDesc(d: Dict): Desc {
    DescRow(d)
  }

  /** The texts of the configured text blocks, block after block. */
  function BlockTexts(root: Node, blocks: seq<TextBlock>): seq<Desc> {
    if blocks == [] then []
    else
      var b := blocks[|blocks| - 1];
      BlockTexts(root, blocks[..|blocks| - 1]) +
      Map(TextDesc, Texts(root, b.parentTag, b.parentClass, b.extractTag, b.extractClass))
  }

  /** A table to read: the tree to search and where in it. */
  type TableJob = (Node, TableBlock)

  /** The rows of the tables, table after table; the first table bs4 cannot read
      stops everything. */
  function TablesDesc(jobs: seq<TableJob>): Result<seq<Desc>, TableError> {
    if jobs == [] then Ok([])
    else
      var j := jobs[|jobs| - 1];
      match TablesDesc(jobs[..|jobs| - 1])
      case Err(e) => Err(e)
      case Ok(d) =>
        match Table(j.0, j.1.parentTag, j.1.parentClass, j.1.tableTag)
        case Err(e) => Err(e)
        case Ok(rows) => Ok(d + Map(RowDesc, rows))
  }

  /** The first table that cannot be read decides the outcome. */
  lemma {:induction false} TablesDescStops(jobs: seq<TableJob>, n: nat)
    requires n <= |jobs| && TablesDesc(jobs[..n]).Err?
    ensures TablesDesc(jobs) == TablesDesc(jobs[..n])
    decreases |jobs| - n
  {
    if n < |jobs| {
      TakeTake(jobs, n, n + 1);
      TablesDescStops(jobs, n + 1);
    } else {
      TakeAll(jobs);
    }
  }

  /** The same search applied to each tree. */
  function Jobs(trees: seq<Node>, b: TableBlock): (r: seq<TableJob>)
    ensures |r| == |trees|
    ensures forall k :: 0 <= k < |r| ==> r[k] == (trees[k], b)
  {
    seq(|trees|, k requires 0 <= k < |trees| => (trees[k], b))
  }

  /** The configured tables, all searched in the root. */
  function RootJobs(root: Node, blocks: seq<TableBlock>): (r: seq<TableJob>)
    ensures |r| == |blocks|
    ensures forall k :: 0 <= k < |r| ==> r[k] == (root, blocks[k])
  {
    seq(|blocks|, k requires 0 <= k < |blocks| => (root, blocks[k]))
  }

  function BlockQna(root: Node, qna: Option<QnaBlock>): seq<Desc> {
    match qna
    case None => []
    case Some(q) => Map(TextDesc, QnaPairs(root, q.parentTag, q.parentClass, q.question, q.answer))
  }

  /** The description `extract_detail` builds before the page types: the text
      blocks, then the table rows, then the question/answer lines. */
  function InitialDescription(root: Node, cfg: DetailConfig): Result<seq<Desc>, TableError> {
    match TablesDesc(RootJobs(root, cfg.tables))
    case Err(e) => Err(e)
    case Ok(rows) => Ok(BlockTexts(root, cfg.textBlocks) + rows + BlockQna(root, cfg.qna))
  }

  /** `extract_key_value(root, "div", "contact2") or None` */
  function Contact(root: Node): Option<Dict> {
    var kv := KeyValueSpec(root, "div", Some("contact2"), "li", "span");
    if kv == [] then None else Some(kv)
  }

  // ---------------------------------------------------------------------------
  // Page types

  /** `clean_text(el.get_text(separator=" ", strip=True))` */
  function StrippedText(el: Node): string {
    CleanText(GetTextStripped(el, " "))
  }

  function ElementDesc(el: Node): Desc {
    DescText(StrippedText(el))
  }

  /** The texts a rule's `text_blocks` adds: one per selected element. */
  function RuleTexts(web: Web, container: Node, sel: Option<string>): seq<Desc> {
    if Truthy(sel) then Map(ElementDesc, web.select(container, sel.value)) else []
  }

  /** `BeautifulSoup(str(n), "html.parser")`: a document whose only child is `n`. */
  function SubSoup(n: Node): Node {
    Element("[document]", [], map[], [n])
  }

  /** The rows a rule's `tables` adds: one table per selected parent, each read
      from that parent alone. */
  function RuleTables(web: Web, container: Node, t: Option<TableRule>): Result<seq<Desc>, TableError> {
    match t
    case None => Ok([])
    case Some(tr) =>
      if Truthy(tr.selector) then TablesDesc(Jobs(Map(SubSoup, web.select(container, tr.selector.value)), tr.block))
      else Ok([])
  }

  function SectionLine(q: Node, a: Node): string {
    "Q: " + StrippedText(q) + " A: " + StrippedText(a)
  }

  /** The description line of one question and its answer. */
  function SectionDesc(q: Node, a: Node): Desc {
    DescText(SectionLine(q, a))
  }

  /** `zip(section.select(qs), section.select(ans))` as lines. */
  function SectionQna(web: Web, section: Node, qsel: string, asel: string): (r: seq<Desc>)
  {
    var qs := web.select(section, qsel);
    var ans := web.select(section, asel);
    seq(if |qs| < |ans| then |qs| else |ans|,
        k requires 0 <= k < |qs| && k < |ans| => SectionDesc(qs[k], ans[k]))
  }

  function SectionsQna(web: Web, sections: seq<Node>, qsel: string, asel: string): seq<Desc> {
    if sections == [] then []
    else SectionsQna(web, sections[..|sections| - 1], qsel, asel) + SectionQna(web, sections[|sections| - 1], qsel, asel)
  }

  /** The lines a rule's `qna` adds; all three selectors must be truthy. */
  function RuleQna(web: Web, container: Node, q: Option<QnaRule>): seq<Desc> {
    match q
    case None => []
    case Some(qr) =>
      if Truthy(qr.parentSelector) && Truthy(qr.questionSelector) && Truthy(qr.answerSelector) then
        SectionsQna(web, web.select(container, qr.parentSelector.value),
                    qr.questionSelector.value, qr.answerSelector.value)
      else []
  }

  /** What one rule adds: texts, then table rows, then question/answer lines. */
  function RuleDesc(web: Web, container: Node, rule: Rule): Result<seq<Desc>, TableError> {
    match RuleTables(web, container, rule.tables)
    case Err(e) => Err(e)
    case Ok(rows) => Ok(RuleTexts(web, container, rule.textSelector) + rows + RuleQna(web, container, rule.qna))
  }

  /** What `apply_page_specific_logic` adds to the last record's description. */
  function RulesDesc(web: Web, container: Node, rules: seq<Rule>): Result<seq<Desc>, TableError> {
    if rules == [] then Ok([])
    else
      match RulesDesc(web, container, rules[..|rules| - 1])
      case Err(e) => Err(e)
      case Ok(d) =>
        match RuleDesc(web, container, rules[|rules| - 1])
        case Err(e) => Err(e)
        case Ok(more) => Ok(d + more)
  }

  /** The first rule with a table that cannot be read decides the outcome. */
  lemma {:induction false} RulesDescStops(web: Web, container: Node, rules: seq<Rule>, n: nat)
    requires n <= |rules| && RulesDesc(web, container, rules[..n]).Err?
    ensures RulesDesc(web, container, rules) == RulesDesc(web, container, rules[..n])
    decreases |rules| - n
  {
    if n < |rules| {
      TakeTake(rules, n, n + 1);
      RulesDescStops(web, container, rules, n + 1);
    } else {
      TakeAll(rules);
    }
  }

  /** A page type applies when its `detect` selector is truthy and finds something
      in the container. */
  predicate Detects(web: Web, container: Node, pt: PageType) {
    Truthy(pt.detect) && SelectOne(web, container, pt.detect.value).Some?
  }

  /** The page type `extract_detail` applies: one of the page types that detects,
      and none without a container. */
  function MatchingPageType(web: Web, container: Option<Node>, pts: seq<PageType>): (r: Option<PageType>)
    ensures r.Some? ==> container.Some? && Detects(web, container.value, r.value) && r.value in pts
  {
    if pts == [] || container.None? then None
    else if Detects(web, container.value, pts[0]) then Some(pts[0])
    else MatchingPageType(web, container, pts[1..])
  }

  /** It is the first page type that detects; none applies exactly when there is no
      container or no page type detects. */
  lemma {:induction false} MatchingPageTypeFirst(web: Web, container: Option<Node>, pts: seq<PageType>)
    ensures var r := MatchingPageType(web, container, pts);
      r.Some? ==> exists k :: 0 <= k < |pts| && pts[k] == r.value &&
                              forall j :: 0 <= j < k ==> !Detects(web, container.value, pts[j])
    ensures MatchingPageType(web, container, pts).None? <==>
      container.None? || forall k :: 0 <= k < |pts| ==> !Detects(web, container.value, pts[k])
  {
    if pts != [] && container.Some? && !Detects(web, container.value, pts[0]) {
      MatchingPageTypeFirst(web, container, pts[1..]);
      var r := MatchingPageType(web, container, pts[1..]);
      if r.Some? {
        var k :| 0 <= k < |pts[1..]| && pts[1..][k] == r.value &&
                 forall j :: 0 <= j < k ==> !Detects(web, container.value, pts[1..][j]);
        assert pts[k + 1] == r.value;
        forall j | 0 <= j < k + 1 ensures !Detects(web, container.value, pts[j]) {
          if j > 0 { assert pts[j] == pts[1..][j - 1]; }
        }
      } else {
        forall k | 0 <= k < |pts| ensures !Detects(web, container.value, pts[k]) {
          if k > 0 { assert pts[k] == pts[1..][k - 1]; }
        }
      }
    }
  }

  // ---------------------------------------------------------------------------
  // Records

  /** The record `extract_detail` appends, before any page type adds to it. */
  function InitialRecord(web: Web, cfg: DetailConfig, e: Entry): (r: Result<Record, CrawlError>)
    ensures r.Ok? ==> e.url in web.pages && KeyOf(r.value) == e
    ensures e.url !in web.pages ==> r == Err(FetchFailed(e.url))
  {
    if e.url !in web.pages then Err(FetchFailed(e.url))
    else
      var html := web.pages[e.url];
      var soup := web.parse(html);
      var container := Container(web, soup);
      var root := Root(soup, container);
      var rawHtml := if container.Some? then web.decodeContents(container.value) else html;
      match InitialDescription(root, cfg)
      case Err(t) => Err(BadTable(t))
      case Ok(desc) => Ok(Record(e.category, e.subcategory, e.title, e.url, desc, Contact(root), rawHtml))
  }

  /** The record `extract_detail` leaves for an entry. */
  function DetailRecord(web: Web, cfg: DetailConfig, e: Entry): (r: Result<Record, CrawlError>)
    ensures r.Ok? ==> e.url in web.pages && KeyOf(r.value) == e
  {
    match InitialRecord(web, cfg, e)
    case Err(x) => Err(x)
    case Ok(rec) =>
      var container := Container(web, Page(web, e.url));
      match MatchingPageType(web, container, cfg.pageTypes)
      case None => Ok(rec)
      case Some(pt) =>
        match RulesDesc(web, container.value, pt.extract)
        case Err(t) => Err(BadTable(t))
        case Ok(more) => Ok(rec.(description := rec.description + more))
  }

  /** A record's contact is `None` exactly when the contact list is empty; its description
      starts with the initial description and is exactly that when no page type
      applies; without a container its raw html is the whole page. */
  lemma DetailRecordProperties(web: Web, cfg: DetailConfig, e: Entry)
    ensures DetailRecord(web, cfg, e).Ok? ==> InitialRecord(web, cfg, e).Ok?
    ensures match DetailRecord(web, cfg, e)
      case Err(_) => true
      case Ok(r) =>
        var soup := Page(web, e.url);
        var container := Container(web, soup);
        var root := Root(soup, container);
        && (r.contact.None? <==> KeyValueSpec(root, "div", Some("contact2"), "li", "span") == [])
        && InitialDescription(root, cfg).Ok?
        && InitialDescription(root, cfg).value <= r.description
        && (MatchingPageType(web, container, cfg.pageTypes).None? ==>
              r.description == InitialDescription(root, cfg).value)
        && (container.None? ==> r.rawHtml == web.pages[e.url])
  {
  }

  /** Re-reading a parent as its own document searches the parent itself and
      everything below it. */
  lemma SubSoupFindAll(n: Node, q: Query)
    ensures FindAll(SubSoup(n), q) == (if Matches(n, q) then [n] else []) + FindAll(n, q)
  {
    calc {
      Descendants(SubSoup(n));
      DescendantsOf([n]);
      [n] + Descendants(n) + DescendantsOf([]);
      { assert [n] + Descendants(n) + [] == [n] + Descendants(n); }
      [n] + Descendants(n);
    }
    assert ([n] + Descendants(n))[1..] == Descendants(n);
  }

  // ---------------------------------------------------------------------------
  // Tabs

  function TabHref(a: Node): string {
    Strip(AttrOr(a, "href"))
  }

  /** An absolute `http` link as it is, anything else resolved against the base url. */
  function ResolveUrl(web: Web, baseUrl: string, href: string): string {
    if StartsWith(href, "http") then href else web.urljoin(baseUrl, href)
  }

  /** The entry a tab link of the page of `e` adds to the queue, if any. */
  function TabEntry(web: Web, baseUrl: string, e: Entry, a: Node): Option<Entry> {
    var href := TabHref(a);
    if href == "" || StartsWith(href, "javascript") then None
    else
      var url := ResolveUrl(web, baseUrl, href);
      if web.netloc(url) != web.netloc(baseUrl) then None
      else Some(Entry(url, e.category, e.title, NodeText(a)))
  }

  /** A tab is queued exactly when its link is neither empty nor a script and stays
      on the site; it keeps the category of the page it was found on, takes that
      page's title as its subcategory and its own link text as its title. */
  lemma TabEntryProperties(web: Web, baseUrl: string, e: Entry, a: Node)
    ensures TabEntry(web, baseUrl, e, a).Some? <==>
      TabHref(a) != "" && !StartsWith(TabHref(a), "javascript") &&
      web.netloc(ResolveUrl(web, baseUrl, TabHref(a))) == web.netloc(baseUrl)
    ensures TabEntry(web, baseUrl, e, a).Some? ==>
      var t := TabEntry(web, baseUrl, e, a).value;
      t.url == ResolveUrl(web, baseUrl, TabHref(a)) && web.netloc(t.url) == web.netloc(baseUrl) &&
      t.category == e.category && t.subcategory == e.title && t.title == NodeText(a)
  {
  }

  /** The entries the tab links of a page add, in link order. */
  function TabEntries(web: Web, baseUrl: string, e: Entry, links: seq<Node>): seq<Entry> {
    if links == [] then []
    else
      var more := TabEntry(web, baseUrl, e, links[|links| - 1]);
      TabEntries(web, baseUrl, e, links[..|links| - 1]) + (if more.Some? then [more.value] else [])
  }

  /** Every queued tab comes from one of the links, and every accepted link is queued. */
  lemma {:induction false} TabEntriesFromLinks(web: Web, baseUrl: string, e: Entry, links: seq<Node>)
    ensures forall t :: t in TabEntries(web, baseUrl, e, links) ==>
      exists a :: a in links && TabEntry(web, baseUrl, e, a) == Some(t)
    ensures forall a :: a in links && TabEntry(web, baseUrl, e, a).Some? ==>
      TabEntry(web, baseUrl, e, a).value in TabEntries(web, baseUrl, e, links)
  {
    if links != [] {
      var pre := links[..|links| - 1];
      TabEntriesFromLinks(web, baseUrl, e, pre);
      assert links == pre + [links[|links| - 1]];
      forall a | a in links && TabEntry(web, baseUrl, e, a).Some?
        ensures TabEntry(web, baseUrl, e, a).value in TabEntries(web, baseUrl, e, links)
      {
        if a != links[|links| - 1] {
          assert a in pre;
        }
      }
    }
  }

  /** The tab links of a page. */
  function Links(web: Web, cfg: DetailConfig, url: string): seq<Node>
    requires url in web.pages
  {
    web.select(Page(web, url), cfg.tabSelector)
  }

  // ---------------------------------------------------------------------------
  // The crawl

  datatype CrawlState = CrawlState(queue: seq<Entry>, visited: set<Entry>, details: seq<Record>)

  /** One iteration of the `run` loop on a non-empty queue: take the front entry;
      skip it if visited; otherwise mark it visited, record its page and queue its
      tabs at the back. */
  function Next(web: Web, cfg: DetailConfig, baseUrl: string, st: CrawlState): Result<CrawlState, CrawlError>
    requires st.queue != []
  {
    var e := st.queue[0];
    if e in st.visited then Ok(st.(queue := st.queue[1..]))
    else
      match DetailRecord(web, cfg, e)
      case Err(x) => Err(x)
      case Ok(rec) =>
        Ok(CrawlState(st.queue[1..] + TabEntries(web, baseUrl, e, Links(web, cfg, e.url)),
                      st.visited + {e}, st.details + [rec]))
  }

  /** No two records share an entry, and every record's entry was visited. */
  ghost predicate Recorded(st: CrawlState) {
    && (forall i, j :: 0 <= i < j < |st.details| ==> KeyOf(st.details[i]) != KeyOf(st.details[j]))
    && (forall i :: 0 <= i < |st.details| ==> KeyOf(st.details[i]) in st.visited)
  }

  /** Recording a page for an entry not yet visited, while marking it visited,
      keeps records unique. */
  lemma RecordNew(st: CrawlState, e: Entry, rec: Record, q: seq<Entry>)
    requires Recorded(st) && e !in st.visited && KeyOf(rec) == e
    ensures Recorded(CrawlState(q, st.visited + {e}, st.details + [rec]))
  {
    var d := st.details + [rec];
    forall i, j | 0 <= i < j < |d| ensures KeyOf(d[i]) != KeyOf(d[j]) {
      if j == |st.details| {
        assert KeyOf(d[i]) in st.visited;
      } else {
        assert d[i] == st.details[i] && d[j] == st.details[j];
      }
    }
  }

  /** A step keeps every record unique and visited. */
  lemma NextRecorded(web: Web, cfg: DetailConfig, baseUrl: string, st: CrawlState)
    requires st.queue != [] && Recorded(st)
    ensures Next(web, cfg, baseUrl, st).Ok? ==> Recorded(Next(web, cfg, baseUrl, st).value)
  {
    var e := st.queue[0];
    if e !in st.visited && DetailRecord(web, cfg, e).Ok? {
      RecordNew(st, e, DetailRecord(web, cfg, e).value, Next(web, cfg, baseUrl, st).value.queue);
    }
  }

  /** A step is first-in first-out: the rest of the queue keeps its order ahead of
      what is added; the front entry is visited afterwards; nothing visited or
      recorded is lost and at most one record is added, for the front entry. */
  lemma NextFifo(web: Web, cfg: DetailConfig, baseUrl: string, st: CrawlState)
    requires st.queue != []
    ensures Next(web, cfg, baseUrl, st).Ok? ==>
      var s := Next(web, cfg, baseUrl, st).value;
      && st.queue[1..] <= s.queue
      && st.queue[0] in s.visited && st.visited <= s.visited
      && s.visited - st.visited <= {st.queue[0]}
      && st.details <= s.details && |s.details| <= |st.details| + 1
      && (|s.details| == |st.details| + 1 <==> st.queue[0] !in st.visited)
      && (forall i :: |st.details| <= i < |s.details| ==> KeyOf(s.details[i]) == st.queue[0])
  {
  }

  /** Every queued tab stays on the site and is filed under the category and the
      title of the page it was found on. */
  lemma TabEntriesFiled(web: Web, baseUrl: string, e: Entry, links: seq<Node>)
    ensures forall k :: 0 <= k < |TabEntries(web, baseUrl, e, links)| ==>
      var t := TabEntries(web, baseUrl, e, links)[k];
      web.netloc(t.url) == web.netloc(baseUrl) && t.category == e.category && t.subcategory == e.title
  {
    var tabs := TabEntries(web, baseUrl, e, links);
    TabEntriesFromLinks(web, baseUrl, e, links);
    forall k | 0 <= k < |tabs|
      ensures web.netloc(tabs[k].url) == web.netloc(baseUrl)
      ensures tabs[k].category == e.category && tabs[k].subcategory == e.title
    {
      assert tabs[k] in tabs;
      var a :| a in links && TabEntry(web, baseUrl, e, a) == Some(tabs[k]);
      TabEntryProperties(web, baseUrl, e, a);
    }
  }

  /** The entries a step adds are the page's on-site tabs, filed under the page's
      category and title. */
  lemma NextTabs(web: Web, cfg: DetailConfig, baseUrl: string, st: CrawlState)
    requires st.queue != []
    ensures Next(web, cfg, baseUrl, st).Ok? ==>
      var s := Next(web, cfg, baseUrl, st).value;
      forall i :: |st.queue| - 1 <= i < |s.queue| ==>
        && web.netloc(s.queue[i].url) == web.netloc(baseUrl)
        && s.queue[i].category == st.queue[0].category
        && s.queue[i].subcategory == st.queue[0].title
  {
    var e := st.queue[0];
    if e !in st.visited && DetailRecord(web, cfg, e).Ok? {
      var tabs := TabEntries(web, baseUrl, e, Links(web, cfg, e.url));
      TabEntriesFiled(web, baseUrl, e, Links(web, cfg, e.url));
      var q := st.queue[1..] + tabs;
      assert Next(web, cfg, baseUrl, st).value.queue == q;
      forall i | |st.queue| - 1 <= i < |q|
        ensures web.netloc(q[i].url) == web.netloc(baseUrl)
        ensures q[i].category == e.category && q[i].subcategory == e.title
      {
        AppendIndex(st.queue[1..], tabs, i);
      }
    }
  }

  // ---------------------------------------------------------------------------
  // Termination: everything the crawl can queue lies in a finite set

  ghost function LinkTexts(web: Web, cfg: DetailConfig): set<string> {
    set u, a | u in web.pages && a in Links(web, cfg, u) :: NodeText(a)
  }

  ghost function TabUrls(web: Web, cfg: DetailConfig, baseUrl: string): set<string> {
    set u, a | u in web.pages && a in Links(web, cfg, u) :: ResolveUrl(web, baseUrl, TabHref(a))
  }

  /** The entries whose fields come from the initial entries or from tab links. */
  ghost function Universe(web: Web, cfg: DetailConfig, baseUrl: string, init: seq<Entry>): set<Entry> {
    var urls := (set e | e in init :: e.url) + TabUrls(web, cfg, baseUrl);
    var cats := set e | e in init :: e.category;
    var titles := (set e | e in init :: e.title) + LinkTexts(web, cfg);
    var subs := (set e | e in init :: e.subcategory) + titles;
    set u, c, s, t | u in urls && c in cats && s in subs && t in titles :: Entry(u, c, s, t)
  }

  lemma InitInUniverse(web: Web, cfg: DetailConfig, baseUrl: string, init: seq<Entry>)
    ensures forall e :: e in init ==> e in Universe(web, cfg, baseUrl, init)
  {
    forall e | e in init ensures e in Universe(web, cfg, baseUrl, init) {
      assert e == Entry(e.url, e.category, e.subcategory, e.title);
    }
  }

  /** A tab of a page whose entry lies in the set lies in it too. */
  lemma TabInUniverse(web: Web, cfg: DetailConfig, baseUrl: string, init: seq<Entry>, e: Entry, t: Entry)
    requires e in Universe(web, cfg, baseUrl, init) && e.url in web.pages
    requires t in TabEntries(web, baseUrl, e, Links(web, cfg, e.url))
    ensures t in Universe(web, cfg, baseUrl, init)
  {
    var links := Links(web, cfg, e.url);
    TabEntriesFromLinks(web, baseUrl, e, links);
    var a :| a in links && TabEntry(web, baseUrl, e, a) == Some(t);
    TabEntryProperties(web, baseUrl, e, a);
    assert t.url in TabUrls(web, cfg, baseUrl);
    assert t.title in LinkTexts(web, cfg);
    assert e.title in (set x | x in init :: x.title) + LinkTexts(web, cfg);
    assert t == Entry(t.url, t.category, t.subcategory, t.title);
  }

  /** A step keeps the queue inside the set. */
  lemma NextInUniverse(web: Web, cfg: DetailConfig, baseUrl: string, init: seq<Entry>, st: CrawlState)
    requires st.queue != []
    requires forall x :: x in st.queue ==> x in Universe(web, cfg, baseUrl, init)
    ensures Next(web, cfg, baseUrl, st).Ok? ==>
      forall x :: x in Next(web, cfg, baseUrl, st).value.queue ==> x in Universe(web, cfg, baseUrl, init)
  {
    var e := st.queue[0];
    if e !in st.visited && DetailRecord(web, cfg, e).Ok? {
      var tabs := TabEntries(web, baseUrl, e, Links(web, cfg, e.url));
      forall x | x in st.queue[1..] + tabs ensures x in Universe(web, cfg, baseUrl, init) {
        if x in tabs {
          TabInUniverse(web, cfg, baseUrl, init, e, x);
        }
      }
    }
  }

  lemma VisitShrinks(u: set<Entry>, v: set<Entry>, e: Entry)
    requires e in u && e !in v
    ensures |u - (v + {e})| < |u - v|
  {
    assert u - (v + {e}) == (u - v) - {e};
  }

  /** A step keeps the queue inside the finite set and lowers the measure: the
      unvisited part of the set, then the queue's length. */
  lemma NextDecreases(web: Web, cfg: DetailConfig, baseUrl: string, init: seq<Entry>, st: CrawlState)
    requires st.queue != []
    requires forall x :: x in st.queue ==> x in Universe(web, cfg, baseUrl, init)
    ensures Next(web, cfg, baseUrl, st).Ok? ==>
      var s := Next(web, cfg, baseUrl, st).value;
      var u := Universe(web, cfg, baseUrl, init);
      && (forall x :: x in s.queue ==> x in u)
      && (|u - s.visited| < |u - st.visited| ||
          (|u - s.visited| == |u - st.visited| && |s.queue| < |st.queue|))
  {
    NextFifo(web, cfg, baseUrl, st);
    NextInUniverse(web, cfg, baseUrl, init, st);
    if st.queue[0] !in st.visited {
      VisitShrinks(Universe(web, cfg, baseUrl, init), st.visited, st.queue[0]);
    }
  }

  /** What the `run` loop keeps across a step, and the measure that a step
      lowers: the unvisited part of the finite set, then the queue's length. */
  lemma NextLoop(web: Web, cfg: DetailConfig, baseUrl: string, init: seq<Entry>, st: CrawlState)
    requires st.queue != [] && Recorded(st)
    requires forall x :: x in st.queue ==> x in Universe(web, cfg, baseUrl, init)
    ensures Next(web, cfg, baseUrl, st).Ok? ==>
      var s := Next(web, cfg, baseUrl, st).value;
      var u := Universe(web, cfg, baseUrl, init);
      && Recorded(s)
      && (forall x :: x in s.queue ==> x in u)
      && st.visited <= s.visited && st.details <= s.details
      && (|u - s.visited| < |u - st.visited| ||
          (|u - s.visited| == |u - st.visited| && |s.queue| < |st.queue|))
  {
    NextRecorded(web, cfg, baseUrl, st);
    NextFifo(web, cfg, baseUrl, st);
    NextDecreases(web, cfg, baseUrl, init, st);
  }

  /** What the `run` loop ends with from a state: steps are taken until the queue is
      empty, and the first page that fails stops the crawl. */
  ghost function Crawl(web: Web, cfg: DetailConfig, baseUrl: string, init: seq<Entry>, st: CrawlState): Result<CrawlState, CrawlError>
    requires forall x :: x in st.queue ==> x in Universe(web, cfg, baseUrl, init)
    decreases |Universe(web, cfg, baseUrl, init) - st.visited|, |st.queue|
  {
    if st.queue == [] then Ok(st)
    else
      NextDecreases(web, cfg, baseUrl, init, st);
      match Next(web, cfg, baseUrl, st)
      case Err(x) => Err(x)
      case Ok(s) => Crawl(web, cfg, baseUrl, init, s)
  }

  /** A crawl that ends without a failure has emptied the queue and visited every
      entry that was queued; nothing visited or recorded is lost; every entry it
      newly visits was fetched and recorded, and the on-site tabs of its page were
      visited too; records stay unique. */
  lemma {:induction false} CrawlCloses(web: Web, cfg: DetailConfig, baseUrl: string, init: seq<Entry>, st: CrawlState)
    requires forall x :: x in st.queue ==> x in Universe(web, cfg, baseUrl, init)
    ensures Crawl(web, cfg, baseUrl, init, st).Ok? ==>
      var f := Crawl(web, cfg, baseUrl, init, st).value;
      && f.queue == []
      && st.visited <= f.visited && st.details <= f.details
      && (forall x :: x in st.queue ==> x in f.visited)
      && (forall x :: x in f.visited && x !in st.visited ==>
            && x.url in web.pages
            && (exists i :: |st.details| <= i < |f.details| && KeyOf(f.details[i]) == x)
            && (forall t :: t in TabEntries(web, baseUrl, x, Links(web, cfg, x.url)) ==> t in f.visited))
      && (Recorded(st) ==> Recorded(f))
    decreases |Universe(web, cfg, baseUrl, init) - st.visited|, |st.queue|
  {
    if st.queue != [] && Crawl(web, cfg, baseUrl, init, st).Ok? {
      NextDecreases(web, cfg, baseUrl, init, st);
      var s := Next(web, cfg, baseUrl, st).value;
      CrawlCloses(web, cfg, baseUrl, init, s);
      var f := Crawl(web, cfg, baseUrl, init, s).value;
      assert Crawl(web, cfg, baseUrl, init, st) == Ok(f);
      NextFifo(web, cfg, baseUrl, st);
      if Recorded(st) {
        NextRecorded(web, cfg, baseUrl, st);
      }
      CrawlStepCloses(web, cfg, baseUrl, st, s, f);
    }
  }

  /** The facts of `CrawlCloses` carry back over the step from `st` to `s`. */
  lemma CrawlStepCloses(web: Web, cfg: DetailConfig, baseUrl: string, st: CrawlState, s: CrawlState, f: CrawlState)
    requires st.queue != [] && Next(web, cfg, baseUrl, st) == Ok(s)
    requires s.visited <= f.visited && s.details <= f.details
    requires forall x :: x in s.queue ==> x in f.visited
    requires forall x :: x in f.visited && x !in s.visited ==>
      && x.url in web.pages
      && (exists i :: |s.details| <= i < |f.details| && KeyOf(f.details[i]) == x)
      && (forall t :: t in TabEntries(web, baseUrl, x, Links(web, cfg, x.url)) ==> t in f.visited)
    ensures st.visited <= f.visited && st.details <= f.details
    ensures forall x :: x in st.queue ==> x in f.visited
    ensures forall x :: x in f.visited && x !in st.visited ==>
      && x.url in web.pages
      && (exists i :: |st.details| <= i < |f.details| && KeyOf(f.details[i]) == x)
      && (forall t :: t in TabEntries(web, baseUrl, x, Links(web, cfg, x.url)) ==> t in f.visited)
  {
    NextFifo(web, cfg, baseUrl, st);
    var e := st.queue[0];
    forall x | x in st.queue ensures x in f.visited {
      if x != e {
        var k :| 0 <= k < |st.queue| && st.queue[k] == x;
        assert st.queue[1..][k - 1] == x;
        assert s.queue[k - 1] == x;
      }
    }
    if e !in st.visited {
      var rec := DetailRecord(web, cfg, e).value;
      var tabs := TabEntries(web, baseUrl, e, Links(web, cfg, e.url));
      assert s.queue == st.queue[1..] + tabs;
      assert f.details[|st.details|] == s.details[|st.details|];
      forall t | t in tabs ensures t in f.visited {
        assert t in s.queue;
      }
    }
  }

  // ---------------------------------------------------------------------------
  // The loops

  /** The text-block loop of `extract_detail`. */
  method CollectBlockTexts(root: Node, blocks: seq<TextBlock>) returns (desc: seq<Desc>)
    ensures desc == BlockTexts(root, blocks)
  {
    desc := [];
    var i := 0;
    while i < |blocks|
      invariant 0 <= i <= |blocks|
      invariant desc == BlockTexts(root, blocks[..i])
    {
      var b := blocks[i];
      var texts := ExtractText(root, b.parentTag, b.parentClass, b.extractTag, b.extractClass);
      TakeTake(blocks, i, i + 1);
      desc := desc + Map(TextDesc, texts);
      i := i + 1;
    }
    TakeAll(blocks);
  }

  /** A table loop: read each table and append its rows. */
  method CollectTables(jobs: seq<TableJob>) returns (res: Result<seq<Desc>, TableError>)
    ensures res == TablesDesc(jobs)
  {
    var desc := [];
    var i := 0;
    while i < |jobs|
      invariant 0 <= i <= |jobs|
      invariant TablesDesc(jobs[..i]) == Ok(desc)
    {
      var j := jobs[i];
      var td := ExtractTable(j.0, j.1.parentTag, j.1.parentClass, j.1.tableTag);
      TakeTake(jobs, i, i + 1);
      if td.Err? {
        TablesDescStops(jobs, i + 1);
        return Err(td.error);
      }
      desc := desc + Map(RowDesc, td.value);
      i := i + 1;
    }
    TakeAll(jobs);
    return Ok(desc);
  }

  /** The description part of `extract_detail`. */
  method CollectInitial(root: Node, cfg: DetailConfig) returns (res: Result<seq<Desc>, TableError>)
    ensures res == InitialDescription(root, cfg)
  {
    var texts := CollectBlockTexts(root, cfg.textBlocks);
    var rows := CollectTables(RootJobs(root, cfg.tables));
    if rows.Err? {
      return Err(rows.error);
    }
    var qna: seq<Desc> := [];
    if cfg.qna.Some? {
      var q := cfg.qna.value;
      var lines := ExtractQna(root, q.parentTag, q.parentClass, q.question, q.answer);
      qna := Map(TextDesc, lines);
    }
    return Ok(texts + rows.value + qna);
  }

  /** The `text_blocks` loop of a rule. */
  method CollectRuleTexts(web: Web, container: Node, sel: Option<string>) returns (desc: seq<Desc>)
    ensures desc == RuleTexts(web, container, sel)
  {
    desc := [];
    if !Truthy(sel) {
      return;
    }
    var els := web.select(container, sel.value);
    var j := 0;
    while j < |els|
      invariant 0 <= j <= |els|
      invariant desc == Map(ElementDesc, els[..j])
    {
      MapStep(ElementDesc, [], els, j);
      desc := desc + [ElementDesc(els[j])];
      j := j + 1;
    }
    TakeAll(els);
  }

  /** The zip loop over one section's questions and answers. */
  method CollectSectionQna(web: Web, section: Node, qsel: string, asel: string) returns (desc: seq<Desc>)
    ensures desc == SectionQna(web, section, qsel, asel)
  {
    var questions := web.select(section, qsel);
    var answers := web.select(section, asel);
    desc := ZipWith(questions, answers, SectionDesc);
    SectionQnaOf(web, section, qsel, asel, desc);
  }

  /** The lines of a section, given one by one. */
  lemma SectionQnaOf(web: Web, section: Node, qsel: string, asel: string, desc: seq<Desc>)
    requires var qs, ans := web.select(section, qsel), web.select(section, asel);
      && |desc| == (if |qs| < |ans| then |qs| else |ans|)
      && forall i :: 0 <= i < |desc| ==> desc[i] == SectionDesc(qs[i], ans[i])
    ensures desc == SectionQna(web, section, qsel, asel)
  {
  }

  /** The `qna` loop of a rule over the selected sections. */
  method CollectRuleQna(web: Web, container: Node, q: Option<QnaRule>) returns (desc: seq<Desc>)
    ensures desc == RuleQna(web, container, q)
  {
    desc := [];
    if q.None? {
      return;
    }
    var qr := q.value;
    if !(Truthy(qr.parentSelector) && Truthy(qr.questionSelector) && Truthy(qr.answerSelector)) {
      return;
    }
    var qsel, asel := qr.questionSelector.value, qr.answerSelector.value;
    var sections := web.select(container, qr.parentSelector.value);
    var i := 0;
    while i < |sections|
      invariant 0 <= i <= |sections|
      invariant desc == SectionsQna(web, sections[..i], qsel, asel)
    {
      var lines := CollectSectionQna(web, sections[i], qsel, asel);
      TakeTake(sections, i, i + 1);
      desc := desc + lines;
      i := i + 1;
    }
    TakeAll(sections);
  }

  /** One rule of `apply_page_specific_logic`. */
  method CollectRule(web: Web, container: Node, rule: Rule) returns (res: Result<seq<Desc>, TableError>)
    ensures res == RuleDesc(web, container, rule)
  {
    var texts := CollectRuleTexts(web, container, rule.textSelector);
    var rows: seq<Desc> := [];
    if rule.tables.Some? && Truthy(rule.tables.value.selector) {
      var tr := rule.tables.value;
      var parents := web.select(container, tr.selector.value);
      var td := CollectTables(Jobs(Map(SubSoup, parents), tr.block));
      if td.Err? {
        return Err(td.error);
      }
      rows := td.value;
    }
    var qna := CollectRuleQna(web, container, rule.qna);
    return Ok(texts + rows + qna);
  }

  /** The rule loop of `apply_page_specific_logic`. */
  method CollectRules(web: Web, container: Node, rules: seq<Rule>) returns (res: Result<seq<Desc>, TableError>)
    ensures res == RulesDesc(web, container, rules)
  {
    var desc := [];
    var i := 0;
    while i < |rules|
      invariant 0 <= i <= |rules|
      invariant RulesDesc(web, container, rules[..i]) == Ok(desc)
    {
      var more := CollectRule(web, container, rules[i]);
      TakeTake(rules, i, i + 1);
      if more.Err? {
        RulesDescStops(web, container, rules, i + 1);
        return Err(more.error);
      }
      desc := desc + more.value;
      i := i + 1;
    }
    TakeAll(rules);
    return Ok(desc);
  }

  /** The page-type loop of `extract_detail`. */
  method FindPageType(web: Web, container: Option<Node>, pts: seq<PageType>) returns (found: Option<PageType>)
    ensures found == MatchingPageType(web, container, pts)
  {
    var i := 0;
    while i < |pts|
      invariant 0 <= i <= |pts|
      invariant MatchingPageType(web, container, pts[i..]) == MatchingPageType(web, container, pts)
    {
      var pt := pts[i];
      if pt.detect.Some? && pt.detect.value != "" && container.Some? &&
         SelectOne(web, container.value, pt.detect.value).Some? {
        return Some(pt);
      }
      assert pts[i..][1..] == pts[i + 1..];
      i := i + 1;
    }
    return None;
  }

  /** The entry one tab link adds, as the body of the tab loop computes it. */
  method ReadTab(web: Web, baseUrl: string, e: Entry, a: Node) returns (t: Option<Entry>)
    ensures t == TabEntry(web, baseUrl, e, a)
  {
    var href := Strip(AttrOr(a, "href"));
    if href == "" || StartsWith(href, "javascript") {
      return None;
    }
    var url := if StartsWith(href, "http") then href else web.urljoin(baseUrl, href);
    if web.netloc(url) != web.netloc(baseUrl) {
      return None;
    }
    return Some(Entry(url, e.category, e.title, NodeText(a)));
  }

  lemma TabEntriesStep(web: Web, baseUrl: string, e: Entry, links: seq<Node>, i: nat)
    requires i < |links|
    ensures TabEntries(web, baseUrl, e, links[..i + 1]) == TabEntries(web, baseUrl, e, links[..i]) +
      (if TabEntry(web, baseUrl, e, links[i]).Some? then [TabEntry(web, baseUrl, e, links[i]).value] else [])
  {
    TakeTake(links, i, i + 1);
  }

  /** The tab loop of `run`: append the accepted tabs to the queue. */
  method EnqueueTabs(web: Web, baseUrl: string, e: Entry, links: seq<Node>, queue: seq<Entry>)
    returns (q: seq<Entry>)
    ensures q == queue + TabEntries(web, baseUrl, e, links)
  {
    q := queue;
    var i := 0;
    while i < |links|
      invariant 0 <= i <= |links|
      invariant q == queue + TabEntries(web, baseUrl, e, links[..i])
    {
      var t := ReadTab(web, baseUrl, e, links[i]);
      TabEntriesStep(web, baseUrl, e, links, i);
      if t.Some? {
        AppendAssoc(queue, TabEntries(web, baseUrl, e, links[..i]), [t.value]);
        q := q + [t.value];
      }
      i := i + 1;
    }
    TakeAll(links);
  }

  /** The crawler: its queue of entries, the keys it has visited and the records
      it has made. */
  class DetailScraper {
    const web: Web
    const cfg: DetailConfig
    const baseUrl: string
    var queue: seq<Entry>
    var details: seq<Record>
    var visited: set<Entry>

    function State(): CrawlState
      reads this
    {
      CrawlState(queue, visited, details)
    }

    ghost predicate Valid()
      reads this
    {
      Recorded(State())
    }

    constructor(web: Web, cfg: DetailConfig, baseUrl: string, menuItems: seq<Entry>)
      ensures this.web == web && this.cfg == cfg && this.baseUrl == baseUrl
      ensures queue == menuItems && details == [] && visited == {}
      ensures Valid()
    {
      this.web := web;
      this.cfg := cfg;
      this.baseUrl := baseUrl;
      queue := menuItems;
      details := [];
      visited := {};
    }

    /** `extract_detail`: append the entry's record, then let the first matching
        page type add to it. A failure after the append leaves the initial record. */
    method ExtractDetail(e: Entry) returns (err: Option<CrawlError>)
      modifies this`details
      ensures match InitialRecord(web, cfg, e)
        case Err(x) => err == Some(x) && details == old(details)
        case Ok(first) =>
          match DetailRecord(web, cfg, e)
          case Ok(r) => err.None? && details == old(details) + [r]
          case Err(x) => err == Some(x) && details == old(details) + [first]
    {
      if e.url !in web.pages {
        return Some(FetchFailed(e.url));
      }
      var html := web.pages[e.url];
      var soup := web.parse(html);
      var container := Container(web, soup);
      var rawHtml := if container.Some? then web.decodeContents(container.value) else html;
      var root := if container.Some? then container.value else soup;
      var desc := CollectInitial(root, cfg);
      if desc.Err? {
        return Some(BadTable(desc.error));
      }
      var contact := ExtractKeyValue(root, "div", Some("contact2"), "li", "span");
      details := details + [Record(e.category, e.subcategory, e.title, e.url, desc.value,
                                   if contact == [] then None else Some(contact), rawHtml)];
      var pt := FindPageType(web, container, cfg.pageTypes);
      if pt.Some? {
        var t := ApplyPageSpecificLogic(container.value, pt.value.extract);
        if t.Some? {
          return Some(BadTable(t.value));
        }
      }
      return None;
    }

    /** `apply_page_specific_logic`: extend the last record's description with
        what the rules add; nothing else changes. */
    method ApplyPageSpecificLogic(container: Node, rules: seq<Rule>) returns (err: Option<TableError>)
      requires details != []
      modifies this`details
      ensures match RulesDesc(web, container, rules)
        case Err(t) => err == Some(t) && details == old(details)
        case Ok(more) =>
          var last := old(details)[|old(details)| - 1];
          err.None? && details == old(details)[..|old(details)| - 1] + [last.(description := last.description + more)]
    {
      var last := details[|details| - 1];
      var more := CollectRules(web, container, rules);
      if more.Err? {
        return Some(more.error);
      }
      details := details[..|details| - 1] + [last.(description := last.description + more.value)];
      return None;
    }

    /** One iteration of the `run` loop. On a failure the front entry is taken
        and visited and at most its initial record was added. */
    method Step() returns (err: Option<CrawlError>)
      requires queue != []
      modifies this
      ensures match Next(web, cfg, baseUrl, old(State()))
        case Ok(s) => err.None? && State() == s
        case Err(x) =>
          && err == Some(x)
          && queue == old(queue)[1..] && visited == old(visited) + {old(queue)[0]}
          && old(queue)[0] !in old(visited)
          && (details == old(details) ||
              (InitialRecord(web, cfg, old(queue)[0]).Ok? &&
               details == old(details) + [InitialRecord(web, cfg, old(queue)[0]).value]))
    {
      var e := queue[0];
      queue := queue[1..];
      if e in visited {
        return None;
      }
      visited := visited + {e};
      err := ExtractDetail(e);
      if err.Some? {
        return;
      }
      var links := web.select(web.parse(web.pages[e.url]), cfg.tabSelector);
      queue := EnqueueTabs(web, baseUrl, e, links, queue);
    }

    /** `run`: crawl until the queue is empty or a page fails. The outcome is the
        crawl of the initial state: its final state on success, its failure
        otherwise. Records stay unique and visited, nothing visited or recorded is
        lost, and the crawl ends. */
    method Run() returns (res: Result<(), CrawlError>)
      requires Valid()
      modifies this
      ensures Valid()
      ensures res.Ok? ==> Crawl(web, cfg, baseUrl, old(queue), old(State())) == Ok(State())
      ensures res.Err? ==> Crawl(web, cfg, baseUrl, old(queue), old(State())) == Err(res.error)
      ensures old(visited) <= visited && old(details) <= details
    {
      ghost var init := queue;
      ghost var u := Universe(web, cfg, baseUrl, init);
      InitInUniverse(web, cfg, baseUrl, init);
      while queue != []
        invariant Valid()
        invariant forall x :: x in queue ==> x in u
        invariant Crawl(web, cfg, baseUrl, init, State()) == Crawl(web, cfg, baseUrl, init, old(State()))
        invariant old(visited) <= visited && old(details) <= details
        decreases |u - visited|, |queue|
      {
        ghost var st := State();
        NextLoop(web, cfg, baseUrl, init, st);
        var err := Step();
        if err.Some? {
          if details != st.details {
            RecordNew(st, st.queue[0], InitialRecord(web, cfg, st.queue[0]).value, queue);
          }
          return Err(err.value);
        }
      }
      return Ok(());
    }
  }
}
