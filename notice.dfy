/**
 * The library notice board reader (`fetch_notices`): every row of the notice table
 * with at least five cells becomes a record of six named fields. The page is given
 * already parsed; CSS selection and `urljoin` are parameters.
 */
module Notice {
  import opened Common
  import opened Html
  import opened Dicts

  /** The site the links are resolved against. */
  const BaseUrl := "https://library.sogang.ac.kr"

  /** The notice list itself, the link of a notice without one of its own. */
  const NoticeUrl := "https://library.sogang.ac.kr/bbs/list/1"

  /** The selector of the table rows. */
  const RowSelector := "table tbody tr"

  /** The keys of a notice record, in order. */
  const NoticeKeys: seq<string> := ["No.", "제목", "링크", "작성자", "작성일", "조회수"]

  /** The fewest cells a row needs to be a notice. */
  const MinCells := 5

  /** `tr.find_all("td")` */
  function Cells(tr: Node): seq<Node> {
    FindAll(tr, ByTag("td"))
  }

  /** A row is read when it has at least five cells. */
  predicate Kept(tr: Node) {
    |Cells(tr)| >= MinCells
  }

  /** `cell.get_text(strip=True)` */
  function CellText(cell: Node): string {
    GetTextStripped(cell, "")
  }

  /** The title: the text of the cell's first link, or of the whole cell without one. */
  function Title(cell: Node): string {
    match Find(cell, ByTag("a"))
    case Some(a) => CellText(a)
    case None => CellText(cell)
  }

  /** The link: the first link's `href` resolved against the site, or the notice list
      when the cell has no link or the link no `href`. */
  function Link(cell: Node, urljoin: (string, string) -> string): string {
    match Find(cell, ByTag("a"))
    case Some(a) => if a.Element? && "href" in a.attrs then urljoin(BaseUrl, a.attrs["href"]) else NoticeUrl
    case None => NoticeUrl
  }

  /** The record of a row with cells `cols`. */
  function NoticeOf(cols: seq<Node>, urljoin: (string, string) -> string): Dict
    requires |cols| >= MinCells
  {
    [("No.", CellText(cols[0])),
     ("제목", Title(cols[1])),
     ("링크", Link(cols[1], urljoin)),
     ("작성자", CellText(cols[2])),
     ("작성일", CellText(cols[3])),
     ("조회수", CellText(cols[4]))]
  }

  /** The record of a row that is kept. */
  function RowNotice(tr: Node, urljoin: (string, string) -> string): Dict
    requires Kept(tr)
  {
    NoticeOf(Cells(tr), urljoin)
  }

  /** The records `fetch_notices` collects from the rows, in row order. */
  function Notices(rows: seq<Node>, urljoin: (string, string) -> string): seq<Dict> {
    if rows == [] then []
    else
      var last := rows[|rows| - 1];
      Notices(rows[..|rows| - 1], urljoin) + (if Kept(last) then [RowNotice(last, urljoin)] else [])
  }

  /** The row loop of `fetch_notices` on the parsed page `soup`; the records are the
      rows of the table it returns. */
  method FetchNotices(soup: Node, select: (Node, string) -> seq<Node>, urljoin: (string, string) -> string)
    returns (data: seq<Dict>)
    ensures data == Notices(select(soup, RowSelector), urljoin)
  {
    var rows := select(soup, RowSelector);
    data := [];
    var i := 0;
    while i < |rows|
      invariant 0 <= i <= |rows|
      invariant data == Notices(rows[..i], urljoin)
    {
      var tr := rows[i];
      assert rows[..i + 1][..i] == rows[..i];
      i := i + 1;
      var cols := Cells(tr);
      if |cols| < MinCells {
        continue;
      }
      var no := CellText(cols[0]);
      var titleCell := cols[1];
      var a := Find(titleCell, ByTag("a"));
      var title := if a.Some? then CellText(a.value) else CellText(titleCell);
      var href := if a.Some? && a.value.Element? && "href" in a.value.attrs
                  then urljoin(BaseUrl, a.value.attrs["href"]) else NoticeUrl;
      var author := CellText(cols[2]);
      var date := CellText(cols[3]);
      var views := CellText(cols[4]);
      data := data + [[("No.", no), ("제목", title), ("링크", href),
                       ("작성자", author), ("작성일", date), ("조회수", views)]];
    }
    assert rows[..i] == rows;
  }

  /** The records are those of the kept rows, one each and in order: short rows give
      none. */
  lemma {:induction false} NoticesOfKept(rows: seq<Node>, urljoin: (string, string) -> string)
    ensures |Notices(rows, urljoin)| == |Where(Kept, rows)|
    ensures forall k :: 0 <= k < |Where(Kept, rows)| ==>
      Kept(Where(Kept, rows)[k]) && Notices(rows, urljoin)[k] == RowNotice(Where(Kept, rows)[k], urljoin)
  {
    if rows != [] {
      var n := |rows| - 1;
      var front := rows[..n];
      NoticesOfKept(front, urljoin);
      assert rows == front + [rows[n]];
      WhereAppend(Kept, front, [rows[n]]);
      WhereMembers(Kept, Where(Kept, front));
      var kept := Where(Kept, rows);
      var keptFront := Where(Kept, front);
      forall k | 0 <= k < |kept|
        ensures Kept(kept[k]) && Notices(rows, urljoin)[k] == RowNotice(kept[k], urljoin)
      {
        if k < |keptFront| {
          assert kept[k] == keptFront[k];
        } else {
          assert kept[k] == rows[n];
        }
      }
    }
  }

  /** A table whose rows all have fewer than five cells gives no record. */
  lemma NoNoticesFromShortRows(rows: seq<Node>, urljoin: (string, string) -> string)
    requires forall k :: 0 <= k < |rows| ==> |Cells(rows[k])| < MinCells
    ensures Notices(rows, urljoin) == []
  {
    NoticesOfKept(rows, urljoin);
    WhereNone(Kept, rows);
  }

  /** Every record has the six keys, in order and each once; number, author, date and
      views are the texts of cells 0, 2, 3 and 4, the title and link come from cell 1,
      and any cell after the fifth makes no difference. */
  lemma NoticeFields(cols: seq<Node>, urljoin: (string, string) -> string)
    requires |cols| >= MinCells
    ensures Keys(NoticeOf(cols, urljoin)) == NoticeKeys && DistinctKeys(NoticeOf(cols, urljoin))
    ensures Get(NoticeOf(cols, urljoin), "No.") == Some(CellText(cols[0]))
    ensures Get(NoticeOf(cols, urljoin), "작성자") == Some(CellText(cols[2]))
    ensures Get(NoticeOf(cols, urljoin), "작성일") == Some(CellText(cols[3]))
    ensures Get(NoticeOf(cols, urljoin), "조회수") == Some(CellText(cols[4]))
    ensures Get(NoticeOf(cols, urljoin), "제목") == Some(Title(cols[1]))
    ensures Get(NoticeOf(cols, urljoin), "링크") == Some(Link(cols[1], urljoin))
    ensures NoticeOf(cols, urljoin) == NoticeOf(cols[..MinCells], urljoin)
  {
    var r := NoticeOf(cols, urljoin);
    assert Keys(r) == NoticeKeys;
    assert DistinctKeys(r);
    GetAt(r, 0);
    GetAt(r, 1);
    GetAt(r, 2);
    GetAt(r, 3);
    GetAt(r, 4);
    GetAt(r, 5);
  }
}
