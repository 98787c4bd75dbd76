# Word map (Söz Xəritəsi): link construction, selection and display rules

This project models the two pieces of the Azerbaijani word map that carry
logic, and proves what they do.

- **The `/data` endpoint** (`app.py`). It reads the rows of the "newbrand"
  worksheet and renames twelve sheet columns into twelve fixed node keys. A
  missing column becomes "". It answers `{"nodes": [...]}`, or one of two
  404 replies or a 500 reply, depending on the exception raised while
  fetching.
- **The front end** (`script.js`). `createLinks` turns the comma-separated
  relation fields of every node (`azerbaijani_synonyms`,
  `azerbaijani_antonyms`, `azerbaijani_variants`, `kok`) into typed links
  to the first node with the named id. The page state is the globals
  `nodes`, `links` and `currentWord`, plus what is drawn for them. The
  click handlers and the search-box handler change the selection. Then
  `updateLineColors`, `updateBubbles` and `displayWordInfo` restyle the
  lines, refill the circles and rebuild the information panel.

Modules:

| file | module | models |
|---|---|---|
| `wrappers.dfy` | `Wrappers` | `Option`, for `undefined`/`null` and for `find` results |
| `js_string.dfy` | `JsString` | `split` on one character, `trim`, `toLowerCase` |
| `sheet.dfy` | `Sheet` | `get_data`: row→record mapping, success body, exception classification |
| `word_graph.dfy` | `WordGraph` | node objects, `createLinks` as a specification and as the loop it is |
| `view.dfy` | `View` | category colours, `getBubbleColor`, bubble fills, line styles, pills and panel |
| `word_map.dfy` | `WordMap` | the page globals as class `WordMap.WordMap`: load, click, search |

JavaScript compares nodes by object identity. A link therefore names its
endpoints by their index in `nodes`, and `currentWord` is an `Option` of
an index. `Array.prototype.find` becomes "the least index that
matches". The specification of `createLinks` is `WordGraph.Links`:

- per node, the links of its synonyms, antonyms, variants and roots fields,
  in that order;
- per field, one link per comma piece whose trimmed text is some node's id;
- an empty field adds none.

`WordGraph.CreateLinks` is the nested loop itself, and it is proved equal
to that specification.

## Model

| member | source | states |
|---|---|---|
| `JsString.Split` | script.js:83 | `split(',')` gives at least one piece, and no piece contains the separator |
| `JsString.JoinSplit` | script.js:83 | joining the pieces with the separator gives back the original string |
| `JsString.SplitJoin` | script.js:83 | splitting joined separator-free pieces gives back those pieces |
| `JsString.SplitCount` | script.js:241 | there is exactly one more piece than there are separators |
| `JsString.Trim` | script.js:84 | the result is no longer than the input and neither end is whitespace |
| `JsString.TrimSlice` | script.js:84 | the trimmed string is a slice of the input with only whitespace before and after it |
| `JsString.TrimPadded` | script.js:244 | whitespace around an already trimmed string is exactly what `trim` removes |
| `JsString.TrimIdempotent` | script.js:244 | trimming twice is trimming once |
| `JsString.ToLower` | script.js:291 | the lower case is empty exactly when the input is, and it is never shorter |
| `JsString.ToLowerHasNoCapitals` | script.js:293 | no capital letter survives lower-casing |
| `JsString.ToLowerIdempotent` | script.js:291-293 | lower-casing twice is lower-casing once |
| `JsString.ToLowerEnds` | script.js:291-293 | lower-casing neither adds nor removes whitespace at either end of a string |
| `Sheet.NodeRecord` | app.py:45-58 | a record has exactly the twelve output keys, each the row's cell under its fixed source column, "" when absent |
| `Sheet.TwelveOutputKeys` | app.py:46-57 | the twelve output keys are distinct |
| `Sheet.RecordDependsOnColumnsOnly` | app.py:46-57 | rows that agree on the twelve source columns give the same record |
| `Sheet.AbsentColumnIsEmpty` | app.py:46-57 | a missing column gives "" under its key, never a missing key |
| `Sheet.MapRows` | app.py:43-58 | one record per row, the same count, record i built from row i |
| `Sheet.SuccessBody` | app.py:60 | `jsonify({"nodes": nodes})` is an object whose only key is "nodes", holding an array with one object per record, in order, each with exactly its record's keys and each value the record's string |
| `Sheet.SuccessBodyShape` | app.py:60 | the success body has the single key "nodes", holding one twelve-key object per row, in row order |
| `Sheet.Classify` | app.py:61-66 | 404 exactly for the two not-found exceptions; the sheet message wins when both apply; otherwise 500 with the message prefix and the exception text; the body is always `{"error": ...}` |
| `Sheet.ErrorBody` | app.py:62-66 | an error reply's body is an object whose only key is "error", and its string is the message |
| `Sheet.ClassifyDistinguishes` | app.py:61-64 | the two 404 replies have different bodies |
| `Sheet.GetData` | app.py:36-66 | rows give status 200 with the mapped records; an exception gives its classified reply |
| `WordGraph.FromRecord` | app.py:45-58 | the node object parsed from a record has, under each of the twelve keys, the property of that name holding the record's value |
| `WordGraph.NodeOfRow` | app.py:45-58 | the node object the front end gets for a row holds, in each property, the cell of that property's column |
| `WordGraph.FindId` | script.js:84 | `nodes.find` by id returns the least index with that id, or nothing when no node has it |
| `WordGraph.PieceLinks` | script.js:83-86 | the pieces of one field add at most one link each |
| `WordGraph.FieldLinks` | script.js:82-87 | an empty field adds no link; any other field adds at most one link per comma piece, so at most its comma count plus one |
| `WordGraph.NodeLinks` | script.js:81-106 | a node adds at most as many links as the comma pieces of its four non-empty relation fields |
| `WordGraph.Links` | script.js:79-108 | what `createLinks` returns: at most as many links as there are comma pieces in the non-empty relation fields of all nodes |
| `WordGraph.PushFieldLinks` | script.js:82-87 | one field block appends exactly the field's links to the array |
| `WordGraph.PushNodeLinks` | script.js:81-106 | the per-node callback appends the node's four field blocks, in order |
| `WordGraph.CreateLinks` | script.js:79-108 | the loop returns exactly `Links(nodes)` |
| `WordGraph.LinksSound` | script.js:82-105 | every link's type field of its source names its target's id (a trimmed comma piece), and the target is the first node with that id |
| `WordGraph.LinksComplete` | script.js:82-105 | every such named, first-with-its-id target gets its link |
| `WordGraph.LinksExactly` | script.js:82-105 | a link is created if and only if the two conditions above hold |
| `WordGraph.EmptyPieceLinksBlankId` | script.js:83-85 | an empty piece such as the middle of "a,,b" links to the first node whose id is "" |
| `WordGraph.PieceLinksAppend` | script.js:83-86 | within a field, links follow the order of the pieces |
| `WordGraph.LinksOrdered` | script.js:81-106 | links are sorted by source node, then synonyms, antonyms, variants, roots, and every source is a node |
| `WordGraph.PaddedIdNeverLinked` | script.js:84 | the pieces are trimmed and the ids are not, so every link target's id is empty or has no whitespace at either end: a word whose id has such whitespace is never linked to |
| `View.TypeColor` | script.js:25-32 | the colour of a link type is one of the category colours, and is not the selected, default or dimmed colour |
| `View.TypeColorsDistinct` | script.js:25-32 | the four relation colours differ from each other and from the selected, default and dimmed colours |
| `View.GetBubbleColor` | script.js:255-258 | node objects have no `type` property, so `getBubbleColor` is always the default grey |
| `View.FirstRelated` | script.js:198-205 | `links.find` returns the least index of a link joining the selected word and the node, in either direction |
| `View.BubbleFill` | script.js:195-211 | every circle is filled with one of the category colours |
| `View.BubbleFillCases` | script.js:194-211 | blue exactly for the selected word; grey exactly when nothing is selected or no link joins the node to it; otherwise the colour of the first joining link's type |
| `View.InitialFills` | script.js:123-128 | one circle per node, each drawn in the default grey |
| `View.InitialFillsUnselected` | script.js:128 | the circles as first drawn are the fills of "nothing selected" |
| `View.LineStyleOf` | script.js:181-191 | a line's stroke is a category colour or the dimmed colour; a line is dashed exactly when it is wide, and dimmed exactly when it is thin |
| `View.LineStyleCases` | script.js:180-192 | a line is wide, dashed and in its type colour exactly when it touches the selected word, otherwise thin, solid and dimmed |
| `View.InitialLineStyles` | script.js:117-121 | one line per link, drawn in its type's colour, which is not how a page with nothing selected restyles it (dimmed) |
| `View.Pills` | script.js:241-246 | an empty list shows no pill; any other list shows one pill per comma piece, one more than its commas |
| `View.UpdateWordInfo` | script.js:239-247 | the container ends up with one pill per comma piece, in order, or none for an empty list |
| `View.PillsShape` | script.js:241-246 | an empty list has no pill; otherwise the pill count is the comma count plus one, each pill has class "pill" plus the pill class, and each text is its piece, trimmed |
| `View.WordInfo` | script.js:216-222 | the panel shows the word's id, and the container of each relation type shows the pills of that type's field with that type's pill class |
| `View.PanelShowsLinks` | script.js:216-222 | every link leaving a word appears as a pill with the target's id in that word's panel |
| `WordMap.FindLowerId` | script.js:293 | the least index whose lower-cased id is the term, or nothing |
| `WordMap.SearchTerm` | script.js:291 | the search term is empty exactly when the typed value is all whitespace, and it never starts or ends with whitespace |
| `WordMap.SearchTarget` | script.js:290-293 | a key press asks for a node only when the key is Enter and the term is non-empty, and what it asks for is a node |
| `WordMap.SearchTargetExactly` | script.js:289-296 | a key press selects node j exactly when it is Enter, the trimmed lower-cased term is non-empty, node j's lower-cased id equals it, and no earlier node's does |
| `WordMap.SearchReachesEveryWord` | script.js:291-294 | typing anything that trims and lower-cases to the lower-cased id of a word with a non-empty id finds that word, or an earlier word spelled the same up to case |
| `WordMap.PaddedIdNeverFound` | script.js:291-293 | the typed term is trimmed and the ids are not, so a word whose id starts or ends with whitespace is never found, whatever is typed |
| `WordMap.StaleFills` | script.js:301-303 | the fills of an unselected page are never the fills a selection needs |
| `WordMap.WordMap.constructor` | script.js:12-14 | the page starts with no nodes, no links and no selection |
| `WordMap.WordMap.Load` | script.js:38-40 | `nodes` is the reply's node list, `links` is `createLinks(nodes)`, nothing is selected, lines have type colours, and circles are already the unselected fills |
| `WordMap.WordMap.UpdateLineColors` | script.js:180-192 | every line gets the style for the current selection; nothing else changes |
| `WordMap.WordMap.UpdateBubbles` | script.js:194-211 | every circle gets the fill for the current selection; nothing else changes |
| `WordMap.WordMap.ShowWord` | script.js:296-300 | the selection and the panel show d; nodes, links, circles and lines are unchanged |
| `WordMap.WordMap.Select` | script.js:131-135 | after selecting d, circles, lines and panel all show d |
| `WordMap.WordMap.Click` | script.js:129-137 | clicking the selected word changes nothing; clicking another selects it and redraws everything for it |
| `WordMap.WordMap.Search` | script.js:289-306 | the search handler as intended: nothing changes without a new target, otherwise the same effect as clicking the target |
| `WordMap.WordMap.SearchAsWritten` | script.js:289-306 | the search handler as written: the selection and panel change, it throws, and lines and circles keep their old look |

## Left out

- Flask setup, CORS, routing and the `PORT` handling are framework plumbing.
- Loading the credentials and authorising the spreadsheet client are I/O and foreign library calls.
- The spreadsheet client is a parameter of `Sheet.GetData`: a `Fetch` is either the rows it returned or the exception it raised.
- Rows are maps from header to text. Cells that the spreadsheet API returns as numbers are not modelled.
- An exception is modelled by whether it is a `SpreadsheetNotFound` and whether it is a `WorksheetNotFound`, plus its text. Exceptions outside `Exception` (such as `KeyboardInterrupt`) are not modelled.
- The JSON encoding done by `jsonify`, and the parsing of the reply by `response.json()`, are not modelled. `WordGraph.FromRecord` maps a record to the node object the front end receives.
- `WordMap.WordMap.Load` receives the parsed node objects directly. Error replies (the 404 and 500 bodies of `Sheet.Classify`) are never passed to it. On such a reply the page sets `nodes` to `undefined`, `createLinks` throws, and `links` stays empty; that path is not modelled.
- `fetch`, the loading screen and its timers and interval are network I/O and asynchronous timing. The fetch callback writes to a `loadingText` that is not in its scope; that happens after `drawBubbles` and does not touch the modelled state.
- The d3 force simulation, zoom, drag, `updatePositions` and `moveToCenter` are rendering and floating-point coordinates. A selection's zoom is not part of the state.
- `getBubbleRadius` (random) and the label font scaling (text measurement) are not modelled.
- The sentence container of `displayWordInfo` is left out: its regular-expression branch of `updateWordInfo` is not modelled. `View.Panel` holds only the selected word and the four comma-list containers.
- DOM elements are values: each circle's `fill`, each line's three stroke attributes, and the panel's pills. Element identity and the rest of the DOM are not modelled.
- `JsString.ToLower`: lower-casing covers ASCII, Latin-1 and the Azerbaijani capitals Ə, Ğ, Ş and İ, with İ becoming "i" followed by U+0307 as JavaScript does. Other Unicode case mappings are not modelled.
- Strings are sequences of Unicode scalar values, not UTF-16 code units. Surrogate pairs are not modelled.
- JavaScript's `in` also finds inherited properties such as "toString". `View.GetBubbleColor` looks only at the key it is given, which is always "undefined", so this makes no difference.

## Findings

| source | as written | input that shows it | evidently intended | confidence | as-written member | corrected member |
|---|---|---|---|---|---|---|
| script.js:289-306 | the search handler calls `updateLineColors()` and `updateBubbles()`. Both are declared inside `drawBubbles` and are not in scope at top level, so the call throws a ReferenceError after `currentWord` and the panel have changed | load any data, type an existing id and press Enter: the word is selected and shown in the panel, but its circle stays grey and no line is highlighted; clicking it then does nothing, because it is already `currentWord` | a search has the same effect as clicking the word it finds | high, by reading the scopes; not executed | `WordMap.WordMap.SearchAsWritten`, `WordMap.StaleFills` | `WordMap.WordMap.Search` |
