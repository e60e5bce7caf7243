/**
 * The menu scraper (`MenuScraper`): each section of the site menu is walked in
 * pre-order into (category, parent title, title, url) items; the items are then
 * grouped by url and, for each url, only the entries that have a subcategory are
 * kept when there are any.
 */
module Menu {
  import opened Common
  import opened Text
  import opened Html
  import opened Base

  datatype MenuItem = MenuItem(category: string, subcategory: string, title: string, url: string)

  /** What one section's walk shares: its category, the site's base url and the
      url resolution function (`urljoin`). */
  datatype Ctx = Ctx(category: string, baseUrl: string, urljoin: (string, string) -> string)

  /** The item a list entry stands for when its parent item has title `parent`: none
      when it has no direct link or the link has no (or an empty) `href`. */
  function LinkItem(c: Ctx, li: Node, parent: string): (r: Option<MenuItem>)
    ensures r.Some? ==> r.value.category == c.category && r.value.subcategory == parent
  {
    match FindChild(li, ByTag("a"))
    case None => None
    case Some(a) =>
      if AttrOr(a, "href") == "" then None
      else
        var named := Strip(AttrOr(a, "title"));
        var title := if named != "" then named else NodeText(a);
        var href := Strip(AttrOr(a, "href"));
        var url := if StartsWith(href, "http") then href else c.urljoin(c.baseUrl, href);
        Some(MenuItem(c.category, parent, title, url))
  }

  /** The items `walk(ul, parent)` appends: the entries directly under `ul`, each
      followed by the walk of its own direct sub-list. */
  function WalkList(c: Ctx, ul: Node, parent: string): seq<MenuItem>
    decreases ul, |Children(ul)| + 1
  {
    FilterMembers(Children(ul), ByTag("li"));
    WalkItems(c, ul, Filter(Children(ul), ByTag("li")), parent)
  }

  function WalkItems(c: Ctx, ul: Node, lis: seq<Node>, parent: string): seq<MenuItem>
    requires forall x :: x in lis ==> x in Children(ul)
    decreases ul, |lis|
  {
    if lis == [] then []
    else
      assert lis[|lis| - 1] in lis;
      assert lis[|lis| - 1] in Children(ul);
      assert ul.Element? && lis[|lis| - 1] in ul.children;
      WalkItems(c, ul, lis[..|lis| - 1], parent) + WalkEntry(c, lis[|lis| - 1], parent)
  }

  /** One list entry: its item, then the items of its direct sub-list under its title;
      an entry without an item is skipped with everything below it. */
  function WalkEntry(c: Ctx, li: Node, parent: string): seq<MenuItem>
    decreases li, 0
  {
    match LinkItem(c, li, parent)
    case None => []
    case Some(item) =>
      [item] + match FindChild(li, ByTag("ul")) {
        case None => []
        case Some(sub) => WalkList(c, sub, item.title)
      }
  }

  /** What `extract_menu_items(section)` returns. */
  function SectionItems(baseUrl: string, urljoin: (string, string) -> string, section: Node): seq<MenuItem> {
    match FindChild(section, ByTag("a"))
    case None => []
    case Some(top) =>
      var c := Ctx(Strip(AttrOr(top, "title")), baseUrl, urljoin);
      match FindChild(section, ByTag("ul"))
      case None => []
      case Some(ul) => WalkList(c, ul, "")
  }

  /** The items of all sections, section after section. */
  function SectionsItems(baseUrl: string, urljoin: (string, string) -> string, sections: seq<Node>): seq<MenuItem> {
    if sections == [] then []
    else SectionsItems(baseUrl, urljoin, sections[..|sections| - 1]) + SectionItems(baseUrl, urljoin, sections[|sections| - 1])
  }

  // ---------------------------------------------------------------------------
  // What the walk promises

  /** Every item carries the section's category. */
  lemma {:induction false} WalkListCategory(c: Ctx, ul: Node, parent: string)
    ensures forall k :: 0 <= k < |WalkList(c, ul, parent)| ==> WalkList(c, ul, parent)[k].category == c.category
    decreases ul, |Children(ul)| + 1
  {
    FilterMembers(Children(ul), ByTag("li"));
    WalkItemsCategory(c, ul, Filter(Children(ul), ByTag("li")), parent);
  }

  lemma {:induction false} WalkItemsCategory(c: Ctx, ul: Node, lis: seq<Node>, parent: string)
    requires forall x :: x in lis ==> x in Children(ul)
    ensures forall k :: 0 <= k < |WalkItems(c, ul, lis, parent)| ==> WalkItems(c, ul, lis, parent)[k].category == c.category
    decreases ul, |lis|
  {
    if lis != [] {
      WalkItemsCategory(c, ul, lis[..|lis| - 1], parent);
      assert lis[|lis| - 1] in lis;
      assert ul.Element? && lis[|lis| - 1] in ul.children;
      WalkEntryCategory(c, lis[|lis| - 1], parent);
    }
  }

  lemma {:induction false} WalkEntryCategory(c: Ctx, li: Node, parent: string)
    ensures forall k :: 0 <= k < |WalkEntry(c, li, parent)| ==> WalkEntry(c, li, parent)[k].category == c.category
    decreases li, 0
  {
    var item := LinkItem(c, li, parent);
    if item.Some? {
      WalkEntryOf(c, li, parent, item.value);
      var sub := FindChild(li, ByTag("ul"));
      if sub.Some? {
        WalkListCategory(c, sub.value, item.value.title);
      }
    }
  }

  /** Item `j` is the direct parent of item `k`: one level up, the nearest such item
      before `k`, and its title is `k`'s subcategory. */
  ghost predicate ParentAt(r: seq<MenuItem>, d: seq<nat>, j: int, k: int) {
    && |d| == |r| && 0 <= j < k < |r|
    && d[j] + 1 == d[k] && r[j].title == r[k].subcategory
    && forall i :: j < i < k ==> d[i] >= d[k]
  }

  ghost predicate HasParent(r: seq<MenuItem>, d: seq<nat>, k: int) {
    exists j :: ParentAt(r, d, j, k)
  }

  /** `d` gives each item's nesting level below the list. An item at level 0 is
      filed under the title the walk started with; an item at a deeper level is
      filed under its direct parent. */
  ghost predicate Parented(r: seq<MenuItem>, d: seq<nat>, parent: string) {
    && |d| == |r|
    && (forall k :: 0 <= k < |r| && d[k] == 0 ==> r[k].subcategory == parent)
    && (forall k {:trigger HasParent(r, d, k)} :: 0 <= k < |r| && d[k] > 0 ==> HasParent(r, d, k))
  }

  /** The items at level 0, in order. */
  function TopLevel(r: seq<MenuItem>, d: seq<nat>): seq<MenuItem>
    requires |d| == |r|
  {
    if r == [] then [] else (if d[0] == 0 then [r[0]] else []) + TopLevel(r[1..], d[1..])
  }

  /** The item of one list entry, if it has one. */
  function EntryItem(c: Ctx, li: Node, parent: string): seq<MenuItem> {
    match LinkItem(c, li, parent)
    case None => []
    case Some(it) => [it]
  }

  /** The items of the list entries themselves, in entry order; an entry without a
      link gives none. */
  function EntryItems(c: Ctx, lis: seq<Node>, parent: string): seq<MenuItem> {
    if lis == [] then []
    else EntryItems(c, lis[..|lis| - 1], parent) + EntryItem(c, lis[|lis| - 1], parent)
  }

  /** Every level one deeper. */
  function Deeper(d: seq<nat>): (r: seq<nat>)
    ensures |r| == |d| && forall i :: 0 <= i < |d| ==> r[i] == d[i] + 1
  {
    seq(|d|, i requires 0 <= i < |d| => d[i] + 1)
  }

  lemma ParentAtLeft(a: seq<MenuItem>, da: seq<nat>, b: seq<MenuItem>, db: seq<nat>, j: int, k: int)
    requires ParentAt(a, da, j, k) && |db| == |b|
    ensures ParentAt(a + b, da + db, j, k)
  {
    assert (a + b)[j] == a[j] && (a + b)[k] == a[k];
    assert forall i :: 0 <= i < |a| ==> (da + db)[i] == da[i];
  }

  lemma ParentAtRight(a: seq<MenuItem>, da: seq<nat>, b: seq<MenuItem>, db: seq<nat>, j: int, k: int)
    requires ParentAt(b, db, j, k) && |da| == |a|
    ensures ParentAt(a + b, da + db, j + |a|, k + |a|)
  {
    assert (a + b)[j + |a|] == b[j] && (a + b)[k + |a|] == b[k];
    assert forall i :: |a| <= i < |a| + |b| ==> (da + db)[i] == db[i - |a|];
  }

  lemma ParentedAppend(a: seq<MenuItem>, da: seq<nat>, b: seq<MenuItem>, db: seq<nat>, parent: string)
    requires Parented(a, da, parent) && Parented(b, db, parent)
    ensures Parented(a + b, da + db, parent)
  {
    var r, d := a + b, da + db;
    forall k | 0 <= k < |r| && d[k] > 0 ensures HasParent(r, d, k) {
      if k < |a| {
        assert d[k] == da[k] && HasParent(a, da, k);
        var j :| ParentAt(a, da, j, k);
        ParentAtLeft(a, da, b, db, j, k);
      } else {
        assert d[k] == db[k - |a|] && HasParent(b, db, k - |a|);
        var j :| ParentAt(b, db, j, k - |a|);
        ParentAtRight(a, da, b, db, j, k - |a|);
      }
    }
    forall k | 0 <= k < |r| && d[k] == 0 ensures r[k].subcategory == parent {
      if k < |a| {
        assert r[k] == a[k] && d[k] == da[k];
      } else {
        assert r[k] == b[k - |a|] && d[k] == db[k - |a|];
      }
    }
  }

  lemma ParentAtCons(item: MenuItem, sub: seq<MenuItem>, ds: seq<nat>, j: int, k: int)
    requires ParentAt(sub, ds, j, k)
    ensures ParentAt([item] + sub, [0] + Deeper(ds), j + 1, k + 1)
  {
    var r, d := [item] + sub, [0] + Deeper(ds);
    assert r[j + 1] == sub[j] && r[k + 1] == sub[k];
    assert forall i :: 1 <= i < |d| ==> d[i] == ds[i - 1] + 1;
  }

  lemma ParentAtHead(item: MenuItem, sub: seq<MenuItem>, ds: seq<nat>, k: int)
    requires |ds| == |sub| && 0 <= k < |sub| && ds[k] == 0 && sub[k].subcategory == item.title
    ensures ParentAt([item] + sub, [0] + Deeper(ds), 0, k + 1)
  {
    var r, d := [item] + sub, [0] + Deeper(ds);
    assert r[k + 1] == sub[k];
    assert forall i :: 1 <= i < |d| ==> d[i] == ds[i - 1] + 1;
  }

  lemma ParentedCons(item: MenuItem, sub: seq<MenuItem>, ds: seq<nat>, parent: string)
    requires item.subcategory == parent && Parented(sub, ds, item.title)
    ensures Parented([item] + sub, [0] + Deeper(ds), parent)
  {
    var r, d := [item] + sub, [0] + Deeper(ds);
    forall k | 0 <= k < |r| && d[k] > 0 ensures HasParent(r, d, k) {
      assert k > 0 && d[k] == ds[k - 1] + 1 && r[k] == sub[k - 1];
      if ds[k - 1] == 0 {
        ParentAtHead(item, sub, ds, k - 1);
      } else {
        assert HasParent(sub, ds, k - 1);
        var j :| ParentAt(sub, ds, j, k - 1);
        ParentAtCons(item, sub, ds, j, k - 1);
      }
    }
  }

  lemma {:induction false} TopLevelAppend(a: seq<MenuItem>, da: seq<nat>, b: seq<MenuItem>, db: seq<nat>)
    requires |da| == |a| && |db| == |b|
    ensures TopLevel(a + b, da + db) == TopLevel(a, da) + TopLevel(b, db)
  {
    if a == [] {
      assert a + b == b && da + db == db;
    } else {
      var h := if da[0] == 0 then [a[0]] else [];
      var ra, rb := TopLevel(a[1..], da[1..]), TopLevel(b, db);
      assert (a + b)[1..] == a[1..] + b && (da + db)[1..] == da[1..] + db;
      assert (a + b)[0] == a[0] && (da + db)[0] == da[0];
      assert TopLevel(a + b, da + db) == h + TopLevel(a[1..] + b, da[1..] + db);
      assert TopLevel(a, da) == h + ra;
      TopLevelAppend(a[1..], da[1..], b, db);
      assert h + (ra + rb) == (h + ra) + rb;
    }
  }

  lemma {:induction false} TopLevelDeeper(r: seq<MenuItem>, d: seq<nat>)
    requires |d| == |r|
    ensures TopLevel(r, Deeper(d)) == []
  {
    if r != [] {
      assert Deeper(d)[1..] == Deeper(d[1..]);
      TopLevelDeeper(r[1..], d[1..]);
    }
  }

  /** The walk of a list, with the level of each item: items are filed under their
      direct parent, and the items at level 0 are those of the entries directly
      under the list, in child order. */
  lemma {:induction false} WalkListLevels(c: Ctx, ul: Node, parent: string) returns (d: seq<nat>)
    ensures Parented(WalkList(c, ul, parent), d, parent)
    ensures TopLevel(WalkList(c, ul, parent), d) == EntryItems(c, Filter(Children(ul), ByTag("li")), parent)
    decreases ul, |Children(ul)| + 1
  {
    FilterMembers(Children(ul), ByTag("li"));
    d := WalkItemsLevels(c, ul, Filter(Children(ul), ByTag("li")), parent);
  }

  lemma {:induction false} WalkItemsLevels(c: Ctx, ul: Node, lis: seq<Node>, parent: string) returns (d: seq<nat>)
    requires forall x :: x in lis ==> x in Children(ul)
    ensures Parented(WalkItems(c, ul, lis, parent), d, parent)
    ensures TopLevel(WalkItems(c, ul, lis, parent), d) == EntryItems(c, lis, parent)
    decreases ul, |lis|
  {
    if lis == [] {
      d := [];
    } else {
      var pre := lis[..|lis| - 1];
      var last := lis[|lis| - 1];
      var dp := WalkItemsLevels(c, ul, pre, parent);
      assert last in lis;
      assert ul.Element? && last in ul.children;
      var de := WalkEntryLevels(c, last, parent);
      ParentedAppend(WalkItems(c, ul, pre, parent), dp, WalkEntry(c, last, parent), de, parent);
      TopLevelAppend(WalkItems(c, ul, pre, parent), dp, WalkEntry(c, last, parent), de);
      d := dp + de;
    }
  }

  lemma {:induction false} WalkEntryLevels(c: Ctx, li: Node, parent: string) returns (d: seq<nat>)
    ensures Parented(WalkEntry(c, li, parent), d, parent)
    ensures TopLevel(WalkEntry(c, li, parent), d) == EntryItem(c, li, parent)
    decreases li, 0
  {
    match LinkItem(c, li, parent)
    case None =>
      d := [];
    case Some(item) =>
      var sub: seq<MenuItem>, ds: seq<nat>;
      match FindChild(li, ByTag("ul")) {
        case None =>
          sub, ds := [], [];
        case Some(ul) =>
          sub := WalkList(c, ul, item.title);
          ds := WalkListLevels(c, ul, item.title);
      }
      WalkEntryOf(c, li, parent, item);
      assert WalkEntry(c, li, parent) == [item] + sub;
      ParentedCons(item, sub, ds, parent);
      TopLevelDeeper(sub, ds);
      d := [0] + Deeper(ds);
      assert ([item] + sub)[1..] == sub && d[1..] == Deeper(ds);
  }

  /** A child is a descendant, and so is everything below it. */
  lemma {:induction false} ChildDescendants(cs: seq<Node>, x: Node)
    requires x in cs
    ensures x in DescendantsOf(cs)
    ensures forall y :: y in Descendants(x) ==> y in DescendantsOf(cs)
  {
    if cs[0] != x {
      ChildDescendants(cs[1..], x);
    }
  }

  /** Every item comes from a list entry below `ul` that has a direct link with an
      `href`: nothing is made up, and entries without one contribute nothing. */
  lemma {:induction false} WalkListFromLinks(c: Ctx, ul: Node, parent: string)
    ensures forall it :: it in WalkList(c, ul, parent) ==>
      exists li :: li in Descendants(ul) && Matches(li, ByTag("li")) && LinkItem(c, li, it.subcategory) == Some(it)
    decreases ul, |Children(ul)| + 1
  {
    FilterMembers(Children(ul), ByTag("li"));
    WalkItemsFromLinks(c, ul, Filter(Children(ul), ByTag("li")), parent);
  }

  lemma {:induction false} WalkItemsFromLinks(c: Ctx, ul: Node, lis: seq<Node>, parent: string)
    requires forall x :: x in lis ==> x in Children(ul) && Matches(x, ByTag("li"))
    ensures forall it :: it in WalkItems(c, ul, lis, parent) ==>
      exists li :: li in Descendants(ul) && Matches(li, ByTag("li")) && LinkItem(c, li, it.subcategory) == Some(it)
    decreases ul, |lis|
  {
    if lis != [] {
      var last := lis[|lis| - 1];
      WalkItemsFromLinks(c, ul, lis[..|lis| - 1], parent);
      assert last in lis;
      assert ul.Element? && last in ul.children;
      WalkEntryFromLinks(c, last, parent);
      ChildDescendants(ul.children, last);
    }
  }

  lemma {:induction false} WalkEntryFromLinks(c: Ctx, li: Node, parent: string)
    requires Matches(li, ByTag("li"))
    ensures forall it :: it in WalkEntry(c, li, parent) ==>
      (li in [li] + Descendants(li)) &&
      exists x :: x in [li] + Descendants(li) && Matches(x, ByTag("li")) && LinkItem(c, x, it.subcategory) == Some(it)
    decreases li, 0
  {
    match LinkItem(c, li, parent)
    case None =>
    case Some(item) =>
      assert item.subcategory == parent;
      match FindChild(li, ByTag("ul")) {
        case None =>
        case Some(sub) =>
          WalkListFromLinks(c, sub, item.title);
          assert li.Element? && sub in li.children;
          ChildDescendants(li.children, sub);
      }
  }

  /** A section without a direct top link or a direct top list gives no items;
      otherwise every item has the top link's stripped `title` as its category, the
      items directly under the top list have an empty subcategory, and every other
      item is filed under its direct parent (levels `d`). */
  lemma SectionItemsShape(baseUrl: string, urljoin: (string, string) -> string, section: Node) returns (d: seq<nat>)
    ensures FindChild(section, ByTag("a")).None? ==> SectionItems(baseUrl, urljoin, section) == []
    ensures FindChild(section, ByTag("ul")).None? ==> SectionItems(baseUrl, urljoin, section) == []
    ensures FindChild(section, ByTag("a")).Some? ==>
      forall k :: 0 <= k < |SectionItems(baseUrl, urljoin, section)| ==>
        SectionItems(baseUrl, urljoin, section)[k].category == Strip(AttrOr(FindChild(section, ByTag("a")).value, "title"))
    ensures Parented(SectionItems(baseUrl, urljoin, section), d, "")
  {
    d := [];
    match FindChild(section, ByTag("a"))
    case None =>
    case Some(top) =>
      var c := Ctx(Strip(AttrOr(top, "title")), baseUrl, urljoin);
      match FindChild(section, ByTag("ul"))
      case None =>
      case Some(ul) =>
        WalkListCategory(c, ul, "");
        d := WalkListLevels(c, ul, "");
  }

  // ---------------------------------------------------------------------------
  // Grouping by url

  /** `grouped`: an insertion-ordered dictionary from url to the entries with it. */
  type Groups = seq<(string, seq<MenuItem>)>

  /** `grouped[item["url"]].append(item)` */
  function AddToGroup(gs: Groups, x: MenuItem): Groups {
    if gs == [] then [(x.url, [x])]
    else if gs[0].0 == x.url then [(gs[0].0, gs[0].1 + [x])] + gs[1..]
    else [gs[0]] + AddToGroup(gs[1..], x)
  }

  /** The groups after adding every item in order. */
  function GroupByUrl(items: seq<MenuItem>): Groups {
    if items == [] then [] else AddToGroup(GroupByUrl(items[..|items| - 1]), items[|items| - 1])
  }

  function GroupUrls(gs: Groups): seq<string> {
    seq(|gs|, i requires 0 <= i < |gs| => gs[i].0)
  }

  /** The urls of the items, each once, in order of first appearance. */
  function FirstUrls(items: seq<MenuItem>): (r: seq<string>)
    ensures |r| <= |items|
  {
    if items == [] then []
    else
      var pre := FirstUrls(items[..|items| - 1]);
      var u := items[|items| - 1].url;
      if u in pre then pre else pre + [u]
  }

  /** A url is listed exactly when some item has it. */
  lemma {:induction false} FirstUrlsMembers(items: seq<MenuItem>)
    ensures forall u :: u in FirstUrls(items) <==> exists i :: 0 <= i < |items| && items[i].url == u
  {
    if items != [] {
      var pre := items[..|items| - 1];
      FirstUrlsMembers(pre);
      assert forall i :: 0 <= i < |items| - 1 ==> pre[i] == items[i];
    }
  }

  function HasUrl(u: string): MenuItem -> bool {
    (x: MenuItem) => x.url == u
  }

  function HasSubcategory(x: MenuItem): bool {
    x.subcategory != ""
  }

  /** The entries of one url that survive: those with a subcategory if there are
      any, otherwise all of them. */
  function Kept(entries: seq<MenuItem>): seq<MenuItem> {
    var nonEmpty := Where(HasSubcategory, entries);
    if nonEmpty != [] then nonEmpty else entries
  }

  /** The surviving entries of every group, group after group. */
  function FilterGroups(gs: Groups): seq<MenuItem> {
    if gs == [] then [] else Kept(gs[0].1) + FilterGroups(gs[1..])
  }

  /** The filter of `run`. */
  function FilterByUrl(items: seq<MenuItem>): seq<MenuItem> {
    FilterGroups(GroupByUrl(items))
  }

  /** The groups hold, under the urls in order of first appearance, the entries of
      each url in their order. */
  ghost predicate GroupsOf(gs: Groups, items: seq<MenuItem>) {
    && GroupUrls(gs) == FirstUrls(items)
    && (forall i :: 0 <= i < |gs| ==> gs[i].1 == Where(HasUrl(gs[i].0), items))
  }

  ghost predicate DistinctUrls(gs: Groups) {
    forall i, j :: 0 <= i < j < |gs| ==> gs[i].0 != gs[j].0
  }

  /** Every entry has url `u`. */
  ghost predicate AllUrl(es: seq<MenuItem>, u: string) {
    forall k :: 0 <= k < |es| ==> es[k].url == u
  }

  lemma FirstUrlsSnoc(items: seq<MenuItem>, x: MenuItem)
    ensures FirstUrls(items + [x]) == if x.url in FirstUrls(items) then FirstUrls(items) else FirstUrls(items) + [x.url]
  {
    assert (items + [x])[..|items|] == items;
  }

  /** No url is listed twice. */
  lemma {:induction false} FirstUrlsDistinct(items: seq<MenuItem>)
    ensures forall i, j :: 0 <= i < j < |FirstUrls(items)| ==> FirstUrls(items)[i] != FirstUrls(items)[j]
  {
    if items != [] {
      FirstUrlsDistinct(items[..|items| - 1]);
    }
  }

  lemma {:induction false} AddToGroupUrls(gs: Groups, x: MenuItem)
    ensures GroupUrls(AddToGroup(gs, x)) == if x.url in GroupUrls(gs) then GroupUrls(gs) else GroupUrls(gs) + [x.url]
  {
    if gs != [] {
      assert GroupUrls(gs) == [gs[0].0] + GroupUrls(gs[1..]);
      if gs[0].0 == x.url {
        assert GroupUrls(AddToGroup(gs, x)) == [gs[0].0] + GroupUrls(gs[1..]);
      } else {
        AddToGroupUrls(gs[1..], x);
        assert GroupUrls(AddToGroup(gs, x)) == [gs[0].0] + GroupUrls(AddToGroup(gs[1..], x));
      }
    }
  }

  /** Adding an item extends its url's group in place, or opens a group at the end. */
  lemma {:induction false} AddToGroupAt(gs: Groups, x: MenuItem)
    requires DistinctUrls(gs)
    ensures |AddToGroup(gs, x)| == if x.url in GroupUrls(gs) then |gs| else |gs| + 1
    ensures forall i :: 0 <= i < |gs| ==>
      AddToGroup(gs, x)[i] == if gs[i].0 == x.url then (gs[i].0, gs[i].1 + [x]) else gs[i]
    ensures x.url !in GroupUrls(gs) ==> AddToGroup(gs, x)[|gs|] == (x.url, [x])
  {
    if gs != [] {
      assert GroupUrls(gs) == [gs[0].0] + GroupUrls(gs[1..]);
      if gs[0].0 != x.url {
        AddToGroupAt(gs[1..], x);
      }
    }
  }

  lemma WhereSingle(p: MenuItem -> bool, x: MenuItem)
    ensures Where(p, [x]) == if p(x) then [x] else []
  {
    assert [x][1..] == [];
  }

  /** An existing group gains the new item exactly when it is the item's url's. */
  lemma AddToGroupOld(gs: Groups, items: seq<MenuItem>, x: MenuItem, i: nat)
    requires GroupsOf(gs, items) && DistinctUrls(gs) && i < |gs|
    ensures i < |AddToGroup(gs, x)|
    ensures AddToGroup(gs, x)[i].1 == Where(HasUrl(AddToGroup(gs, x)[i].0), items + [x])
  {
    AddToGroupAt(gs, x);
    var u := gs[i].0;
    assert AddToGroup(gs, x)[i].0 == u;
    WhereAppend(HasUrl(u), items, [x]);
    WhereSingle(HasUrl(u), x);
  }

  /** A new group holds just the new item. */
  lemma AddToGroupNew(gs: Groups, items: seq<MenuItem>, x: MenuItem)
    requires GroupsOf(gs, items) && DistinctUrls(gs) && x.url !in GroupUrls(gs)
    ensures |AddToGroup(gs, x)| == |gs| + 1
    ensures AddToGroup(gs, x)[|gs|].1 == Where(HasUrl(AddToGroup(gs, x)[|gs|].0), items + [x])
  {
    AddToGroupAt(gs, x);
    var u := x.url;
    WhereAppend(HasUrl(u), items, [x]);
    WhereSingle(HasUrl(u), x);
    FirstUrlsMembers(items);
    forall k | 0 <= k < |items| ensures !HasUrl(u)(items[k]) {
      assert items[k].url in FirstUrls(items);
    }
    WhereNone(HasUrl(u), items);
  }

  lemma AddToGroupEntry(gs: Groups, items: seq<MenuItem>, x: MenuItem, i: nat)
    requires GroupsOf(gs, items) && DistinctUrls(gs)
    requires i < |AddToGroup(gs, x)|
    ensures AddToGroup(gs, x)[i].1 == Where(HasUrl(AddToGroup(gs, x)[i].0), items + [x])
  {
    if i < |gs| {
      AddToGroupOld(gs, items, x, i);
    } else {
      AddToGroupAt(gs, x);
      assert x.url !in GroupUrls(gs) && i == |gs|;
      AddToGroupNew(gs, items, x);
    }
  }

  lemma AddToGroupKeeps(gs: Groups, items: seq<MenuItem>, x: MenuItem)
    requires GroupsOf(gs, items)
    ensures GroupsOf(AddToGroup(gs, x), items + [x])
  {
    FirstUrlsDistinct(items);
    forall i, j | 0 <= i < j < |gs| ensures gs[i].0 != gs[j].0 {
      assert GroupUrls(gs)[i] == gs[i].0 && GroupUrls(gs)[j] == gs[j].0;
    }
    AddToGroupUrls(gs, x);
    FirstUrlsSnoc(items, x);
    forall i | 0 <= i < |AddToGroup(gs, x)|
      ensures AddToGroup(gs, x)[i].1 == Where(HasUrl(AddToGroup(gs, x)[i].0), items + [x])
    {
      AddToGroupEntry(gs, items, x, i);
    }
  }

  /** Grouping keeps every item under its url, with the urls in order of first
      appearance and each group's entries in their order. */
  lemma {:induction false} GroupByUrlGroups(items: seq<MenuItem>)
    ensures GroupsOf(GroupByUrl(items), items)
  {
    if items != [] {
      var pre := items[..|items| - 1];
      GroupByUrlGroups(pre);
      AddToGroupKeeps(GroupByUrl(pre), pre, items[|items| - 1]);
      assert pre + [items[|items| - 1]] == items;
    }
  }

  lemma KeptAllUrl(es: seq<MenuItem>, u: string)
    requires AllUrl(es, u)
    ensures AllUrl(Kept(es), u)
  {
    var kept := Kept(es);
    WhereMembers(HasSubcategory, es);
    forall k | 0 <= k < |kept| ensures kept[k].url == u {
      assert kept[k] in es;
    }
  }

  lemma {:induction false} WhereHasUrl(es: seq<MenuItem>, u: string, v: string)
    requires AllUrl(es, v)
    ensures Where(HasUrl(u), es) == if u == v then es else []
  {
    if es != [] {
      WhereHasUrl(es[1..], u, v);
    }
  }

  /** The tail of distinct, single-url groups is such groups too, none with the head's url. */
  lemma GroupsTail(gs: Groups)
    requires gs != [] && DistinctUrls(gs)
    requires forall i :: 0 <= i < |gs| ==> AllUrl(gs[i].1, gs[i].0)
    ensures DistinctUrls(gs[1..])
    ensures forall i :: 0 <= i < |gs[1..]| ==> AllUrl(gs[1..][i].1, gs[1..][i].0)
    ensures forall i :: 0 <= i < |gs[1..]| ==> gs[1..][i].0 != gs[0].0
    ensures forall i :: 1 <= i < |gs| ==> gs[i] == gs[1..][i - 1]
  {
    forall i | 0 <= i < |gs[1..]| ensures gs[1..][i].0 != gs[0].0 {
      assert gs[1..][i] == gs[i + 1];
    }
  }

  /** The entries of url `u` among the filtered groups: the head group's survivors when
      it has url `u`, then those of the other groups. */
  lemma FilterGroupsHead(gs: Groups, u: string)
    requires gs != [] && AllUrl(gs[0].1, gs[0].0)
    ensures Where(HasUrl(u), FilterGroups(gs)) ==
      (if gs[0].0 == u then Kept(gs[0].1) else []) + Where(HasUrl(u), FilterGroups(gs[1..]))
  {
    var kept := Kept(gs[0].1);
    var rest := FilterGroups(gs[1..]);
    assert FilterGroups(gs) == kept + rest;
    WhereAppend(HasUrl(u), kept, rest);
    KeptAllUrl(gs[0].1, gs[0].0);
    WhereHasUrl(kept, u, gs[0].0);
  }

  /** Among the filtered groups, the entries of url `u` are the survivors of `u`'s
      group, when the groups have distinct urls and hold only entries of their url. */
  lemma {:induction false} FilterGroupsOfUrl(gs: Groups, u: string)
    requires DistinctUrls(gs)
    requires forall i :: 0 <= i < |gs| ==> AllUrl(gs[i].1, gs[i].0)
    ensures forall i :: 0 <= i < |gs| && gs[i].0 == u ==> Where(HasUrl(u), FilterGroups(gs)) == Kept(gs[i].1)
    ensures (forall i :: 0 <= i < |gs| ==> gs[i].0 != u) ==> Where(HasUrl(u), FilterGroups(gs)) == []
  {
    if gs != [] {
      GroupsTail(gs);
      FilterGroupsHead(gs, u);
      FilterGroupsOfUrl(gs[1..], u);
      if gs[0].0 == u {
        assert Where(HasUrl(u), FilterGroups(gs)) == Kept(gs[0].1) + [];
        forall i | 0 <= i < |gs| && gs[i].0 == u ensures i == 0 {
        }
      }
    }
  }

  /** The groups have distinct urls, each holds only entries of its url, and each
      holds the entries of its url in their order. */
  lemma GroupByUrlShape(items: seq<MenuItem>)
    ensures DistinctUrls(GroupByUrl(items))
    ensures forall i :: 0 <= i < |GroupByUrl(items)| ==> AllUrl(GroupByUrl(items)[i].1, GroupByUrl(items)[i].0)
    ensures GroupsOf(GroupByUrl(items), items)
  {
    var gs := GroupByUrl(items);
    GroupByUrlGroups(items);
    FirstUrlsDistinct(items);
    forall i, j | 0 <= i < j < |gs| ensures gs[i].0 != gs[j].0 {
      assert GroupUrls(gs)[i] == gs[i].0 && GroupUrls(gs)[j] == gs[j].0;
    }
    forall i | 0 <= i < |gs| ensures AllUrl(gs[i].1, gs[i].0) {
      WhereMembers(HasUrl(gs[i].0), items);
    }
  }

  /** The filter of `run`, url by url: the entries left for a url are exactly its
      entries with a subcategory, in their order, when it has any, and otherwise all
      its entries. */
  lemma FilterByUrlPerUrl(items: seq<MenuItem>, u: string)
    ensures Where(HasUrl(u), FilterByUrl(items)) == Kept(Where(HasUrl(u), items))
  {
    var gs := GroupByUrl(items);
    GroupByUrlShape(items);
    FilterGroupsOfUrl(gs, u);
    if i :| 0 <= i < |gs| && gs[i].0 == u {
      assert gs[i].1 == Where(HasUrl(u), items);
    } else {
      FirstUrlsMembers(items);
      forall k | 0 <= k < |items| ensures !HasUrl(u)(items[k]) {
        assert items[k].url in FirstUrls(items);
        assert items[k].url in GroupUrls(gs);
      }
      WhereNone(HasUrl(u), items);
    }
  }

  /** Every url of the input is still present after the filter. */
  lemma FilterByUrlKeepsUrls(items: seq<MenuItem>, u: string)
    requires exists i :: 0 <= i < |items| && items[i].url == u
    ensures exists j :: 0 <= j < |FilterByUrl(items)| && FilterByUrl(items)[j].url == u
  {
    FilterByUrlPerUrl(items, u);
    var k :| 0 <= k < |items| && items[k].url == u;
    WhereMembers(HasUrl(u), items);
    assert items[k] in Where(HasUrl(u), items);
    var left := Where(HasUrl(u), FilterByUrl(items));
    WhereMembers(HasUrl(u), FilterByUrl(items));
    assert left != [] && left[0] in FilterByUrl(items);
  }

  /** The filter drops entries and never adds or duplicates one. */
  lemma FilterByUrlSubMultiset(items: seq<MenuItem>)
    ensures multiset(FilterByUrl(items)) <= multiset(items)
  {
    FlattenGroupByUrl(items);
    FilterGroupsSubMultiset(GroupByUrl(items));
  }

  /** All the entries of the groups, group after group. */
  function Flatten(gs: Groups): seq<MenuItem> {
    if gs == [] then [] else gs[0].1 + Flatten(gs[1..])
  }

  lemma {:induction false} FilterGroupsSubMultiset(gs: Groups)
    ensures multiset(FilterGroups(gs)) <= multiset(Flatten(gs))
  {
    if gs != [] {
      FilterGroupsSubMultiset(gs[1..]);
      WhereSubMultiset(HasSubcategory, gs[0].1);
    }
  }

  lemma {:induction false} FlattenAddToGroup(gs: Groups, x: MenuItem)
    ensures multiset(Flatten(AddToGroup(gs, x))) == multiset(Flatten(gs)) + multiset{x}
  {
    if gs != [] && gs[0].0 != x.url {
      FlattenAddToGroup(gs[1..], x);
    }
  }

  /** Grouping loses and adds no entry. */
  lemma {:induction false} FlattenGroupByUrl(items: seq<MenuItem>)
    ensures multiset(Flatten(GroupByUrl(items))) == multiset(items)
  {
    if items != [] {
      var pre, x := items[..|items| - 1], items[|items| - 1];
      FlattenGroupByUrl(pre);
      FlattenAddToGroup(GroupByUrl(pre), x);
      assert GroupByUrl(items) == AddToGroup(GroupByUrl(pre), x);
      assert items == pre + [x];
      assert multiset(items) == multiset(pre) + multiset{x};
    }
  }

  lemma FilterGroupsCons(gs: Groups, g: (string, seq<MenuItem>))
    requires gs != []
    ensures FilterGroups(gs + [g]) == Kept(gs[0].1) + FilterGroups(gs[1..] + [g])
  {
    assert (gs + [g])[1..] == gs[1..] + [g];
  }

  lemma {:induction false} FilterGroupsSnoc(gs: Groups, g: (string, seq<MenuItem>))
    ensures FilterGroups(gs + [g]) == FilterGroups(gs) + Kept(g.1)
  {
    if gs == [] {
      assert FilterGroups([g]) == Kept(g.1) + FilterGroups([]);
    } else {
      FilterGroupsCons(gs, g);
      FilterGroupsSnoc(gs[1..], g);
      AppendAssoc(Kept(gs[0].1), FilterGroups(gs[1..]), Kept(g.1));
    }
  }

  // ---------------------------------------------------------------------------
  // The scraper

  class MenuScraper {
    const baseUrl: string
    const urljoin: (string, string) -> string
    var items: seq<MenuItem>

    constructor(baseUrl: string, urljoin: (string, string) -> string)
      ensures this.baseUrl == baseUrl && this.urljoin == urljoin && items == []
    {
      this.baseUrl := baseUrl;
      this.urljoin := urljoin;
      items := [];
    }

    /** `extract_menu_items`: no items without a direct top link; otherwise the walk
        of the direct top list with an empty parent title. */
    method ExtractMenuItems(section: Node) returns (menuItems: seq<MenuItem>)
      ensures menuItems == SectionItems(baseUrl, urljoin, section)
    {
      menuItems := [];
      var top := FindChild(section, ByTag("a"));
      if top.None? {
        return;
      }
      var c := Ctx(Strip(AttrOr(top.value, "title")), baseUrl, urljoin);
      var ul := FindChild(section, ByTag("ul"));
      if ul.Some? {
        menuItems := Walk(c, ul.value, "", menuItems);
      }
    }

    /** `run` on the sections the menu selector picks: collect every section's items,
        then keep per url the entries with a subcategory, or all when none has one. */
    method Run(sections: seq<Node>)
      modifies this
      ensures items == FilterByUrl(old(items) + SectionsItems(baseUrl, urljoin, sections))
    {
      var i := 0;
      ghost var start := items;
      while i < |sections|
        invariant 0 <= i <= |sections|
        invariant items == start + SectionsItems(baseUrl, urljoin, sections[..i])
      {
        var more := ExtractMenuItems(sections[i]);
        TakeTake(sections, i, i + 1);
        AppendAssoc(start, SectionsItems(baseUrl, urljoin, sections[..i]), more);
        items := items + more;
        i := i + 1;
      }
      TakeAll(sections);
      var grouped := GroupItems(items);
      items := KeepPerUrl(grouped);
    }
  }

  /** The nested `walk(ul_tag, parent_subcat)` of `extract_menu_items`, appending to
      `acc` (the enclosing `menu_items`). */
  method Walk(c: Ctx, ul: Node, parent: string, acc: seq<MenuItem>) returns (out: seq<MenuItem>)
    ensures out == acc + WalkList(c, ul, parent)
    decreases ul, 1
  {
    var lis := Filter(Children(ul), ByTag("li"));
    FilterMembers(Children(ul), ByTag("li"));
    out := acc;
    var i := 0;
    while i < |lis|
      invariant 0 <= i <= |lis|
      invariant out == acc + WalkItems(c, ul, lis[..i], parent)
    {
      assert ul.Element? && lis[i] in ul.children;
      WalkItemsSnoc(c, ul, lis, i, parent);
      AppendAssoc(acc, WalkItems(c, ul, lis[..i], parent), WalkEntry(c, lis[i], parent));
      out := WalkOne(c, lis[i], parent, out);
      i := i + 1;
    }
    TakeAll(lis);
  }

  lemma WalkItemsSnoc(c: Ctx, ul: Node, lis: seq<Node>, i: nat, parent: string)
    requires forall x :: x in lis ==> x in Children(ul)
    requires i < |lis|
    ensures WalkItems(c, ul, lis[..i + 1], parent) == WalkItems(c, ul, lis[..i], parent) + WalkEntry(c, lis[i], parent)
  {
    TakeTake(lis, i, i + 1);
  }

  /** `WalkEntry` of an entry with a link, with or without a sub-list. */
  lemma WalkEntryOf(c: Ctx, li: Node, parent: string, item: MenuItem)
    requires LinkItem(c, li, parent) == Some(item)
    ensures FindChild(li, ByTag("ul")).None? ==> WalkEntry(c, li, parent) == [item]
    ensures FindChild(li, ByTag("ul")).Some? ==>
      WalkEntry(c, li, parent) == [item] + WalkList(c, FindChild(li, ByTag("ul")).value, item.title)
  {
  }

  /** The body of `walk`'s loop for one entry. */
  method WalkOne(c: Ctx, li: Node, parent: string, acc: seq<MenuItem>) returns (out: seq<MenuItem>)
    ensures out == acc + WalkEntry(c, li, parent)
    decreases li, 2
  {
    var item := LinkItem(c, li, parent);
    if item.None? {
      return acc;
    }
    WalkEntryOf(c, li, parent, item.value);
    var sub := FindChild(li, ByTag("ul"));
    if sub.Some? {
      assert li.Element? && sub.value in li.children;
      out := Walk(c, sub.value, item.value.title, acc + [item.value]);
      AppendAssoc(acc, [item.value], WalkList(c, sub.value, item.value.title));
    } else {
      out := acc + [item.value];
    }
  }

  /** The grouping loop of `run`. */
  method GroupItems(items: seq<MenuItem>) returns (grouped: Groups)
    ensures grouped == GroupByUrl(items)
  {
    grouped := [];
    var i := 0;
    while i < |items|
      invariant 0 <= i <= |items|
      invariant grouped == GroupByUrl(items[..i])
    {
      TakeTake(items, i, i + 1);
      grouped := AddToGroup(grouped, items[i]);
      i := i + 1;
    }
    TakeAll(items);
  }

  /** The filtering loop of `run`. */
  method KeepPerUrl(grouped: Groups) returns (filtered: seq<MenuItem>)
    ensures filtered == FilterGroups(grouped)
  {
    filtered := [];
    var i := 0;
    while i < |grouped|
      invariant 0 <= i <= |grouped|
      invariant filtered == FilterGroups(grouped[..i])
    {
      var entries := grouped[i].1;
      var nonEmpty := Where(HasSubcategory, entries);
      TakeSnoc(grouped, i);
      FilterGroupsSnoc(grouped[..i], grouped[i]);
      if nonEmpty != [] {
        filtered := filtered + nonEmpty;
      } else {
        filtered := filtered + entries;
      }
      i := i + 1;
    }
    TakeAll(grouped);
  }
}
