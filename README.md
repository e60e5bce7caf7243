# pumpkinbot crawler and text pipeline, modelled in Dafny

This project models the part of the pumpkinbot repository that turns the
library web site into retrieval documents, plus the small text transformations
that feed the chat engine:

- the extraction primitives of `BaseScraper` (`clean_text`, `extract_text`,
  `extract_table`, `extract_qna`, `extract_key_value`): `text.dfy`, `html.dfy`,
  `dicts.dfy`, `base.dfy`;
- the menu scraper's pre-order walk of the site menu and its group-by-url
  filter: `menu.dfy`, with the scraper as a class `MenuScraper`;
- the breadth-first detail crawl with its FIFO queue, visited set, record list
  and domain fence: `detail.dfy`, with the scraper as a class `DetailScraper`
  whose `Run` loop ends on every input;
- `normalize`: `text_utils.dfy`;
- the two JSON-to-document conversions, `JsonLoader.load` and
  `json_to_documents`, including Python's `json.dumps` and `str()`/`repr()` of
  parsed JSON values: `json.dfy`, `documents.dfy`, `json_loader.dfy`,
  `chatbot.dfy`;
- `natural_sort_key`: `natural_sort.dfy`;
- the chat engine's query rewrite, context formatting, source list and history
  text: `engine.dfy`;
- the notice-table row parser of `fetch_notices`: `notice.dfy`.

The HTML is an element tree (`Html.Node`). `find`/`find_all`/`get_text` are
defined on that tree. CSS selection, `urljoin`, `urlparse(...).netloc`, the
HTML parser and `decode_contents` are function parameters that the model does
not interpret. The site is a finite map from url to page text; a url outside
it is a failed fetch. Every loop of the source is a Dafny `method` with a
`while` loop. Each is proved equal to a specification function, and the
lemmas state what that function promises. Strings are `seq<char>`; Python's
`\s`, `str.strip` and `isdigit` are explicit character predicates.

## Model

| member | source | states |
|---|---|---|
| Text.CleanTextProperties | src/app/crawler/base.py:8-11 | `clean_text` output has no whitespace at either end. Every whitespace character left is a single plain space. Every non-whitespace character of the input survives, in order. |
| Text.CleanTextWords | src/app/crawler/base.py:8-11 | `clean_text(s)` equals `" ".join(s.split())`. The words are the maximal runs without whitespace, in order, and each pair of neighbours is joined by exactly one space. |
| Text.CleanTextIdempotent | src/app/crawler/base.py:8-11 | Cleaning a cleaned text changes nothing. |
| Text.CollapseProperties | src/app/crawler/base.py:10 | `re.sub(r"\s+", " ", s)` leaves no two whitespace characters in a row and no whitespace other than spaces. It keeps every other character in order. |
| Text.CollapseWords | src/app/crawler/base.py:10 | On a text that starts without whitespace, `re.sub(r"\s+", " ", s)` gives its words joined by single spaces, plus one space when the text ends with whitespace. Every whitespace run becomes exactly one space. |
| Text.StripIsSlice | src/app/crawler/base.py:11 | `strip()` is the slice between the leading and the trailing whitespace runs, and the result is trimmed. |
| Text.ReplaceLeavesNoPair | src/core/text_utils.py:10 | After `replace("오전", "AM ")`, no 오 is immediately followed by 전 (likewise 오후). |
| Text.SplitJoin | src/data/json_loader.py:17-21 | Splitting a newline-joined text at newlines gives back the parts, when no part holds a newline. |
| Text.DecimalOfNatToString | chatbot.py:165 | `int(str(n)) == n` for every natural number. |
| Html.FilterMembers | src/app/crawler/base.py:33 | `find_all` returns exactly the matching descendants, in document order. |
| Dicts.PutProperties | src/app/crawler/base.py:80 | After `d[k] = v`, `k` maps to `v` and every other key keeps its value. The size grows by one exactly when `k` was new. Keys stay distinct. |
| Dicts.PutKeySeq | src/app/crawler/base.py:80 | `d[k] = v` keeps every key in its place and appends `k` at the end when it is new, so iteration follows first insertion. |
| Dicts.FromZipPositional | src/app/crawler/base.py:51 | `dict(zip(headers, cols))` maps each header that is not repeated later to the cell in its column. |
| Base.ExtractText | src/app/crawler/base.py:28-35 | The loop returns the cleaned text of every matching element below each region, region after region, in document order. |
| Base.ExtractTable | src/app/crawler/base.py:37-52 | The loop returns one dictionary per body row whose cell count equals the header count. It raises when `thead` or `tbody` is missing. |
| Base.TableCases | src/app/crawler/base.py:39-48 | No region or no table gives `[]`. A found table fails exactly when it lacks `thead` or `tbody`. |
| Base.KeptRowsExact | src/app/crawler/base.py:49-51 | A row is kept exactly when its cell count equals the header count. |
| Base.RowsOf | src/app/crawler/base.py:51 | Each row dictionary has exactly the headers as keys. A header that is not repeated maps to its column's cell. |
| Base.ExtractQna | src/app/crawler/base.py:54-67 | The zip loop of `extract_qna` returns the pairs specification. |
| Base.CollectKeyValues | src/app/crawler/base.py:76-80 | The item loop builds the dictionary given by the entries, one assignment after another. |
| Base.ExtractKeyValue | src/app/crawler/base.py:69-81 | `extract_key_value` returns `{}` without a region, else the dictionary built from the region's items. |
| Base.KeyValueSize | src/app/crawler/base.py:72-80 | No region gives `{}`. Otherwise the result has at most one pair per item and no key twice. |
| Base.KeyValues | src/app/crawler/base.py:80 | The built dictionary has at most one pair per entry and distinct keys. |
| Base.MiscKeyInjective | src/app/crawler/base.py:80 | Different counts give different `_misc_<n>` keys. |
| Base.KeyedEntryKept | src/app/crawler/base.py:76-80 | When no real key looks like `_misc_<n>`, an item with a non-empty key that no later item repeats maps to its own value. |
| Base.KeyValuesKeys | src/app/crawler/base.py:78-80 | The dictionary's keys are exactly the slots the items were stored under: their own key, or `_misc_<len+1>` when it is empty. |
| Base.KeyValuesRealKeys | src/app/crawler/base.py:76-80 | When no real key looks like `_misc_<n>`, a key outside the `_misc_` family is in the dictionary exactly when it is some item's non-empty key. |
| Base.UnkeyedEntryKept | src/app/crawler/base.py:78-80 | When no real key looks like `_misc_<n>`, every item without a key keeps its value under its own synthetic key. No later item overwrites it. |
| Menu.LinkItem | src/app/crawler/menu.py:34-48 | An entry without a direct link or `href` gives no item. Otherwise the item has the section's category and the parent title as subcategory. |
| Menu.WalkListCategory | src/app/crawler/menu.py:28-48 | Every item of a walk has the section's category. |
| Menu.WalkListLevels | src/app/crawler/menu.py:31-53 | There is a level for each item. Level-0 items have the starting parent as subcategory. Any other item's subcategory is the title of its direct parent: the nearest earlier item one level up, with nothing shallower in between. The level-0 items are the items of the list's direct entries, in child order. |
| Menu.WalkListFromLinks | src/app/crawler/menu.py:33-36 | Every item comes from a list entry below the list that has a direct link with an `href`. |
| Menu.SectionItemsShape | src/app/crawler/menu.py:23-58 | A section without a direct top link (or top list) gives no items. Every item has the top link's stripped `title` as category. Top-level items have an empty subcategory, and every other item is filed under the title of its direct parent. |
| Menu.Walk | src/app/crawler/menu.py:31-53 | The recursive `walk` appends exactly the items of the walk specification to the enclosing list. |
| Menu.WalkOne | src/app/crawler/menu.py:34-53 | One loop iteration appends the entry's item, then the walk of its direct sub-list under its title. |
| Menu.MenuScraper.constructor | src/app/crawler/menu.py:13-15 | A new scraper has no items. |
| Menu.MenuScraper.ExtractMenuItems | src/app/crawler/menu.py:17-60 | `extract_menu_items` returns the section's items per the walk specification. |
| Menu.MenuScraper.Run | src/app/crawler/menu.py:66-87 | `items` becomes the url filter applied to the old items followed by every section's items. |
| Menu.GroupItems | src/app/crawler/menu.py:73-75 | The grouping loop builds the ordered group-by-url dictionary. |
| Menu.KeepPerUrl | src/app/crawler/menu.py:77-85 | The filtering loop keeps, group by group, the entries with a subcategory, or all of them when none has one. |
| Menu.GroupByUrlShape | src/app/crawler/menu.py:73-75 | Groups have distinct urls and hold only their url's entries. The urls appear in first-appearance order, and each group keeps its entries in input order. |
| Menu.FirstUrlsDistinct | src/app/crawler/menu.py:73-78 | The group urls are pairwise distinct. |
| Menu.FlattenGroupByUrl | src/app/crawler/menu.py:73-75 | Grouping loses and adds no entry (same multiset). |
| Menu.FilterByUrlPerUrl | src/app/crawler/menu.py:77-85 | For each url, the surviving entries are its entries with a non-empty subcategory if it has any, otherwise all its entries, in input order. |
| Menu.FilterByUrlKeepsUrls | src/app/crawler/menu.py:77-85 | Every url of the input still appears after the filter. |
| Menu.FilterByUrlSubMultiset | src/app/crawler/menu.py:73-87 | The filter output is a sub-multiset of its input. |
| Detail.InitialRecord | src/app/crawler/detail.py:25-79 | The appended record carries the entry's url, category, subcategory and title. A url that cannot be fetched fails the crawl. |
| Detail.DetailRecordProperties | src/app/crawler/detail.py:35-87 | `contact` is `None` exactly when the contact list is empty. The description starts with the initial description: text blocks, then table rows, then Q/A lines. It is exactly that when no page type applies. Without a container, `raw_html` is the page. |
| Detail.MatchingPageType | src/app/crawler/detail.py:82-87 | A page type applies only with a container, and only when its `detect` selector finds something. |
| Detail.MatchingPageTypeFirst | src/app/crawler/detail.py:82-87 | The applied page type is the first one that detects. None applies exactly when there is no container or none detects. |
| Detail.SubSoupFindAll | src/app/crawler/detail.py:112 | Re-parsing `str(tbl_parent)` searches the parent itself and everything below it. |
| Detail.TabEntryProperties | src/app/crawler/detail.py:158-175 | A tab is queued exactly when its href is non-empty, is not `javascript…`, and its resolved url has the base url's netloc. The entry keeps the page's category, takes the page's title as subcategory and its cleaned link text as title. |
| Detail.TabEntriesFromLinks | src/app/crawler/detail.py:158-175 | Every queued tab comes from a link, and every accepted link is queued. |
| Detail.TabEntriesFiled | src/app/crawler/detail.py:159-175 | Every queued tab is on the site and filed under the page's category and title. |
| Detail.RecordNew | src/app/crawler/detail.py:143-149 | Recording an unvisited key while marking it visited keeps records unique. |
| Detail.NextRecorded | src/app/crawler/detail.py:143-149 | A crawl step keeps the invariant: no two records share a key, and every record's key is visited. |
| Detail.NextFifo | src/app/crawler/detail.py:137-149 | A step is FIFO: the rest of the queue stays ahead of what is added. `visited` only grows, by the front key at most. Records only grow, by at most one, for the front entry, and only when it was unvisited. |
| Detail.NextTabs | src/app/crawler/detail.py:158-175 | The entries a step adds are on-site tabs filed under the front entry's category and title. |
| Detail.NextInUniverse | src/app/crawler/detail.py:170-175 | Queued entries stay in a finite set built from the seeds and the site's links. |
| Detail.NextLoop | src/app/crawler/detail.py:137-175 | A step keeps the invariants. It lowers (unvisited part of that finite set, queue length), so the crawl terminates. |
| Detail.TablesDescStops | src/app/crawler/detail.py:49-56 | The first unreadable table decides the outcome of the table loop. |
| Detail.RulesDescStops | src/app/crawler/detail.py:97-133 | The first rule with an unreadable table decides the outcome of the rule loop. |
| Detail.CollectBlockTexts | src/app/crawler/detail.py:40-48 | The text-block loop appends the texts of each block in order. |
| Detail.CollectTables | src/app/crawler/detail.py:49-56 | The table loop appends the rows of each non-empty table in order, or fails at the first unreadable one. |
| Detail.CollectInitial | src/app/crawler/detail.py:39-67 | The initial description is text blocks, then table rows, then Q/A lines. |
| Detail.CollectRuleTexts | src/app/crawler/detail.py:99-105 | A rule's `text_blocks` adds one cleaned text per selected element, and nothing for a falsy selector. |
| Detail.CollectSectionQna | src/app/crawler/detail.py:126-132 | One section adds its questions zipped with its answers. |
| Detail.CollectRuleQna | src/app/crawler/detail.py:122-132 | A rule's `qna` adds the lines of every selected section, and only when all three selectors are truthy. |
| Detail.CollectRule | src/app/crawler/detail.py:97-132 | One rule adds texts, then table rows, then Q/A lines. |
| Detail.CollectRules | src/app/crawler/detail.py:97-133 | The rule loop adds what each rule adds, in order. |
| Detail.FindPageType | src/app/crawler/detail.py:82-87 | The page-type loop picks the first page type that detects. |
| Detail.EnqueueTabs | src/app/crawler/detail.py:158-175 | The tab loop appends exactly the accepted tabs to the back of the queue, in link order. |
| Detail.DetailScraper.constructor | src/app/crawler/detail.py:16-21 | The queue holds the menu items. Records and visited start empty. |
| Detail.DetailScraper.ExtractDetail | src/app/crawler/detail.py:23-87 | `extract_detail` appends exactly one record for the entry, with the first matching page type's additions. A failure after the append leaves the initial record. |
| Detail.DetailScraper.ApplyPageSpecificLogic | src/app/crawler/detail.py:89-133 | Only the last record's description changes, extended by the rules' additions. Every other record is untouched. |
| Detail.DetailScraper.Step | src/app/crawler/detail.py:137-175 | One loop iteration is the crawl step. On a failure, the front entry is taken and visited, and at most its initial record is added. |
| Detail.DetailScraper.Run | src/app/crawler/detail.py:135-176 | The loop ends in exactly the outcome of the crawl specification `Crawl` (repeated steps from the old state). That is the final state on success, the step's error on failure. Records stay unique and visited. Nothing visited or recorded is lost. |
| Detail.CrawlCloses | src/app/crawler/detail.py:137-175 | A successful crawl empties the queue and visits every queued entry. Every newly visited entry is a fetchable page and has a new record under its key. Every on-site tab of that page is visited too. Nothing visited or recorded is lost, and records stay unique. |
| TextUtils.NormalizeEmpty | src/core/text_utils.py:4-5 | An empty text gives `""`. |
| TextUtils.NormalizeProperties | src/core/text_utils.py:3-11 | The output has no whitespace at either end and no whitespace other than plain spaces: no newline, no U+3000. No 오전 or 오후 remains. |
| TextUtils.SquashNewlinesNoop | src/core/text_utils.py:6-8 | The `\n{2,}` rewrite changes nothing after whitespace runs have been collapsed. |
| TextUtils.SquashNewlinesNoPair | src/core/text_utils.py:8 | After the `\n{2,}` rewrite, no newline follows another. |
| TextUtils.CollapseAlike | src/core/text_utils.py:6-7 | Turning U+3000 into a space before collapsing whitespace changes nothing. |
| TextUtils.NormalizeIsCleanText | src/core/text_utils.py:3-11 | On a text without 오, `normalize` equals the crawler's `clean_text`. |
| TextUtils.NormalizeFixes | src/core/text_utils.py:3-11 | A clean text without 오 is left unchanged. |
| TextUtils.NormalizeOfCollapsed | src/core/text_utils.py:7-11 | On a collapsed text, only the 오전/오후 translation and the strip act. |
| TextUtils.NormalizeLeadingAm | src/core/text_utils.py:10 | A leading 오전 becomes `AM `, and the whitespace after it is kept. |
| TextUtils.NormalizeDoubleSpace | src/core/text_utils.py:7-10 | `normalize("오전 9") == "AM  9"` (two spaces). Normalizing again differs, so `normalize` is not idempotent. |
| Json.UnescapeEscape | src/data/json_loader.py:18 | The body of a JSON string written by `json.dumps(..., ensure_ascii=False)` decodes back to the string. |
| Json.DumpsString | src/data/json_loader.py:18 | A dumped string is a quoted literal that reads back as the text. |
| Json.DumpsNoControl | src/data/json_loader.py:18 | `json.dumps` output never holds a control character, so a list element it writes is one line. |
| Json.PyUnescapeReprChars | src/data/json_loader.py:21 | The characters `repr` writes between the quotes read back as the string. |
| Json.ReprStringReads | src/data/json_loader.py:21 | `repr(s)` is a literal in the quote `repr` chooses, and it reads back as `s`. |
| Json.ReprNoControl | src/data/json_loader.py:21 | `str()` of a non-string value never holds a control character, so a dict line is one line. |
| Documents.Lookup | src/data/json_loader.py:15 | `item.get(key)` finds a binding of the key, or reports that no field has it. |
| Documents.MetadataFields | src/data/json_loader.py:23-28 | Metadata has exactly category, subcategory, title and url, in that order. Each holds the item's value or `""` when absent. |
| Documents.Rendered | src/data/json_loader.py:16-21 | Only a list or a dict description is rendered to text. |
| Documents.RenderedListLines | src/data/json_loader.py:16-19 | A list renders to one line per element: strings as themselves, anything else as its JSON text. |
| Documents.RenderedDictLines | src/data/json_loader.py:20-21 | A dict renders to one `k: v` line per entry, in key order. |
| Documents.ConvertAllEach | src/data/json_loader.py:14-30 | A load succeeds exactly when every item converts. It gives one document per item, in order. A failure is the first failing item's. |
| Documents.ConvertAllStops | src/data/json_loader.py:14-30 | Once an item fails, the rest of the file does not matter. |
| JsonLoader.Load | src/data/json_loader.py:10-31 | The item loop returns the conversion of every item, or the first failure. |
| JsonLoader.BodyProperties | src/data/json_loader.py:15-29 | Only `true` or a non-zero number as description stops the load. A missing description gives an empty body. Every body is trimmed, one line, with plain spaces only. |
| JsonLoader.DocumentOfProperties | src/data/json_loader.py:15-30 | A document has the metadata record. Its text is the header plus the normalized description, or the header alone without a description. |
| JsonLoader.CombinedLines | src/data/json_loader.py:29 | The page text reads back as the title line, the category>subcategory line, a blank line and the body. |
| JsonLoader.LoadedEach | src/data/json_loader.py:14-30 | A loaded file has one document per item, in item order. |
| Chatbot.JsonToDocuments | chatbot.py:41-72 | The item loop returns the conversion of every item, or the first failure. |
| Chatbot.ConvertedEach | chatbot.py:46-70 | One document per item, in order. |
| Chatbot.DocumentOfProperties | chatbot.py:47-69 | A missing description gives `""` and a string description is kept as is. Only a list, dict or string description is accepted. Metadata is the four-field record. |
| Chatbot.LoadersAgree | chatbot.py:47-70 | When this loader accepts an item, the indexing loader accepts it with the same metadata. Its text is the header plus `normalize` of this loader's text. |
| NaturalSort.ChunkStep | chatbot.py:165 | One step of `re.split(r'(\d+)', s)`: a digit-free text, then a maximal non-empty digit run and the split of the rest. |
| NaturalSort.ChunksJoin | chatbot.py:165 | Gluing the split pieces back together gives `s`. |
| NaturalSort.ChunksAlternate | chatbot.py:165 | The pieces alternate between a digit-free text and a non-empty digit run, starting and ending with a text. Inner texts are non-empty, so runs are maximal. |
| NaturalSort.ChunksShape | chatbot.py:165 | Odd number of pieces: digit-free texts at even positions, non-empty digit runs at odd ones. |
| NaturalSort.NaturalSortKeyShape | chatbot.py:164-165 | The key has odd length, with strings exactly at even positions and integers at odd ones. |
| NaturalSort.KeysComparable | chatbot.py:164-165 | Two keys agree in kind position by position, so comparing them never compares a string with an integer. |
| NaturalSort.NumberedKey | chatbot.py:165 | `p + str(n)` with digit-free `p` has key `[p, n, ""]`. |
| NaturalSort.NumberedOrder | chatbot.py:164-165 | Names differing only in a trailing number sort by the number's value ("p2" before "p10"). |
| Engine.Rewrite | src/rag/engine.py:37-46 | The reverse scan with `break` returns the rewrite specification. |
| Engine.LastUserIsLast | src/rag/engine.py:41-45 | The scan picks the content of the last user message, or `""` when there is none. |
| Engine.RewrittenCases | src/rag/engine.py:39-46 | The question is returned unchanged when there is no user message or its content is empty. Otherwise the result is `"<last user> 관련: <question>"`. The question always ends the result. |
| Engine.FormatContext | src/rag/engine.py:18-25 | The loop builds blocks numbered from 1 and joins them with a blank line. |
| Engine.SnippetProperties | src/rag/engine.py:23 | The snippet is the first ≤500 characters with each newline turned into a space, so it holds no newline. |
| Engine.BlockLines | src/rag/engine.py:24 | Each block is two lines, `[i] <title> \| <url>` then the snippet, when title and url hold no newline. |
| Engine.ContextSnoc | src/rag/engine.py:19-25 | One more document adds its block, numbered one past the others, after a blank line. |
| Engine.DocsToSources | src/rag/engine.py:27-35 | One source per document, in order. |
| Engine.SourceSnippet | src/rag/engine.py:30-34 | A source keeps the document's title and url. Its snippet is the first ≤200 characters of the text. With newlines made spaces, it is a prefix of the context snippet. |
| Engine.HistoryTextLines | src/rag/engine.py:55 | Only the last 8 messages (all when fewer) are used, in order, one `role: content` line each. |
| Notice.FetchNotices | notice_crawler.py:19-41 | The row loop with `continue` returns the notice specification of the selected rows. |
| Notice.NoticesOfKept | notice_crawler.py:19-41 | One record per row with at least 5 cells, in table order. |
| Notice.NoNoticesFromShortRows | notice_crawler.py:22-24 | Rows with fewer than 5 cells give no record. |
| Notice.NoticeFields | notice_crawler.py:25-41 | A record has exactly the six keys, each once. No./author/date/views come from cells 0, 2, 3, 4. Title and link come from cell 1 (link text or cell text; joined href or `NOTICE_URL`). Cells after the fifth do not matter. |

## Left out

- HTTP fetching (`requests.get`, `raise_for_status`) and the HTML parser: a page is a string in a finite map, parsing is a parameter, and a url outside the map is a failed fetch.
- CSS selection (`select`, `select_one`), `urljoin`, `urlparse(...).netloc` and `decode_contents` are uninterpreted parameters; URL resolution itself is not modelled.
- File persistence (`DataManager.save`/`load`), YAML configuration (passed in as an immutable value), Streamlit, pandas, the scheduler, debug printing.
- Embeddings, FAISS, BM25, the reranker and the language model call in `ChatEngine.ask`: only the history text and the helpers `ask` calls are modelled.
- Detail.DetailScraper.ApplyPageSpecificLogic: on a table error the source may already have appended part of the description before raising. The model leaves the description unchanged, because the crawl then aborts without saving.
- Detail.DetailScraper.Run: a queue entry is a four-field record, so the tuple-unpacking branch for non-dict entries (detail.py:139-141) is one case.
- Engine.Rewrite: a message is a record with `role` and `content`, so the `KeyError` of a message missing either key is not modelled.
- Documents.Lookup: a JSON object with a repeated key is a list of pairs and the first binding is used; Python's parser keeps the last.
- Json.ReprNoControl: `repr` escapes exactly the ASCII controls, DEL, the C1 controls, U+00A0, U+00AD and the Unicode space and line separators; other non-printable code points (unassigned, format characters) are kept as they are. Floats are not modelled (JSON numbers are integers).
- NaturalSort.NaturalSortKeyShape: digits are ASCII `0`-`9`; other Unicode decimal digits, and characters that `isdigit` accepts but `\d` does not, are not modelled.
- Text.CleanTextProperties: `\s` is a fixed character predicate (ASCII controls 9-13 and 28-31, space, NEL, no-break space, Unicode space separators, line and paragraph separators).
