# Cooking chart, listening history and diary: a Dafny model

This project models the logic at the core of a personal "lab" web application. It has three parts.

- **Cooking chart editor**, with its recipe store (`lab/cooking_chart/static/app.js`, `lab/cooking_chart/lab_app.py`).
  - A board holds recipe nodes, the edges between them, arrows that point at edges, horizontal step lines and free text items.
  - The editor keeps an undo history of at most 120 snapshots.
  - It copies and pastes selections and selects with a marquee.
  - It moves and snaps groups to a 20-pixel grid and finds a free spot for a connected child node.
  - It loads saved or legacy JSON content and reorders the recipe list by drag and drop.
  - The server keeps one row per recipe name. Each row has an id, content, an update time and an optional sort order. Saving, deleting and reordering are guarded by an editor key.
- **Listening-history dashboard** (`lab/spotify_history_viz/app.js`).
  - It parses a CSV export of plays and ranks artists by minutes, by plays of 10 seconds or more, and by distinct tracks.
  - It pages each ranking ten entries at a time.
  - A month range is picked with two clicks, and the top-ten artist set is kept in sync with the artist selection.
- **Diary fold** (`notion_fetcher.py`). A sequence of page blocks is folded into dated diary entries. Headings open a day, paragraphs add trimmed non-empty lines, and each day is rendered as HTML paragraphs.

## Module layout

- **Shared helpers**
  - `Wrappers`: `Option`.
  - `Strings`: trimming, splitting, joining, decimal printing, lower-casing and replacing.
  - `Seqs`: de-duplication, filter, map and update by id.
  - `JsValue`: JavaScript values and the `Number()` / `String()` / truthiness coercions the loader relies on.
- **Cooking chart editor**
  - `Geometry`: board constants, `Clamp` and `Snap`.
  - `Document`: the board's entities, edge keys, edge upsert, clamping, tag and memo normalisation, and cascading deletes.
  - `Placement`: overlap tests and the free-position search.
  - `Moves`: group drag and snap.
  - `Marquee`: rectangle selection.
  - `Clipboard`: copy and paste as functions.
  - `Loader`: the JSON content loader, current and legacy formats.
  - `SavedContent`: the save/load round trip.
  - `RecipeList`: the drop reorder and save-name de-duplication.
  - `Editor`: the `Editor` class holding state, history and clipboard.
- **Recipe store**
  - `RecipeStore`: the server's table as a `Store` class over a sequence of rows.
- **Dashboard**
  - `Csv`: line splitting and row parsing.
  - `Months`: month keys and the month sequence.
  - `Ranks`: the artist tallies and rankings.
  - `Html`: `escapeHtml`.
  - `Paging`: the `Pager` class.
  - `Dashboard`: the dashboard's filter state as a class.
- **Diary**
  - `Diary`: the diary fold.

## Model

Source paths below are relative to the repository root. The four source files are:

- `lab/cooking_chart/static/app.js`
- `lab/cooking_chart/lab_app.py`
- `lab/spotify_history_viz/app.js`
- `notion_fetcher.py`

| member | source | states |
|---|---|---|
| Geometry.Clamp | lab/cooking_chart/static/app.js:495-498 | `max(lo, min(hi, v))` lies in `[lo, hi]` when the range is non-empty, keeps values already inside and sends outside values to the nearer bound |
| Geometry.Snap | lab/cooking_chart/static/app.js:500-502 | rounding to the grid gives a multiple of 20 within half a cell, `v - 10 < r <= v + 10` |
| Geometry.SnapUnique | lab/cooking_chart/static/app.js:500-502 | that grid point is the only multiple of 20 in the half-open window, so `Snap` is rounding to the nearest cell with ties upward |
| Geometry.SnapIdempotent | lab/cooking_chart/static/app.js:500-502 | snapping twice is snapping once |
| Geometry.SnapMonotone | lab/cooking_chart/static/app.js:500-502 | snapping preserves order |
| Document.Opposite | lab/cooking_chart/static/app.js:336-341 | the opposite side differs from the side and swaps top/bottom and left/right |
| Document.EdgeKeyInjective | lab/cooking_chart/static/app.js:268-270 | `"from:to"` edge keys identify the endpoint pair |
| Document.ClampNode | lab/cooking_chart/static/app.js:495-498 | only x and y change; the node ends inside the board and is left where it was when already inside |
| Document.ClampNodeIdempotent | lab/cooking_chart/static/app.js:495-498 | clamping a clamped node changes nothing |
| Document.ClampText | lab/cooking_chart/static/app.js:517-522 | a text item is clamped by its own width and height, with the same keep-if-inside property |
| Document.FindEdge | lab/cooking_chart/static/app.js:529 | `findIndex` returns the first edge with those endpoints, or -1 when there is none |
| Document.UpsertSpec | lab/cooking_chart/static/app.js:528-533 | upsert keeps endpoint pairs unique, contains the new edge, keeps every other edge and adds nothing else |
| Document.UpsertBasics | lab/cooking_chart/static/app.js:524-533 | after an upsert the edge exists, every edge came from the old list or is the new one, and existing connections remain |
| Document.DeleteSelectionConsistent | lab/cooking_chart/static/app.js:2896-2918 | deleting the selection drops the edges touching deleted nodes and the arrows on deleted edges, so no dangling reference remains |
| Document.DeleteSelectionKeepsKeys | lab/cooking_chart/static/app.js:2896-2918 | deleting keeps node, line and text ids unique |
| Document.DeleteNode | lab/cooking_chart/static/app.js:1605-1617 | exactly the node with that id and the edges and arrows touching it are removed |
| Document.DeleteNodeConsistent | lab/cooking_chart/static/app.js:1605-1617 | the single-node delete leaves no edge or arrow referring to a missing node or edge |
| Document.NormalizeTags | lab/cooking_chart/static/app.js:312-315 | normalised tags are trimmed and non-empty |
| Document.NormalizeMemos | lab/cooking_chart/static/app.js:317-320 | at most one trimmed, non-empty memo survives |
| Document.NormalizeTagsIdempotent | lab/cooking_chart/static/app.js:312-315 | normalising tags twice equals normalising once |
| Document.NormalizeMemosIdempotent | lab/cooking_chart/static/app.js:317-320 | normalising memos twice equals normalising once |
| Seqs.Dedup | lab/cooking_chart/static/app.js:232-234 | `Array.from(new Set(..))` has the same members, no duplicates and is no longer than the input |
| Seqs.DedupFirstOccurrenceOrder | lab/cooking_chart/static/app.js:232-234 | de-duplicated ids keep the order of their first occurrence |
| Seqs.DedupOfNoDup | lab/cooking_chart/static/app.js:232-234 | a list without duplicates comes back unchanged |
| Seqs.UpdateAllByIdSpec | lab/cooking_chart/static/app.js:1132-1145 | applying an update to the elements with the given ids changes exactly those elements |
| Placement.IntersectsIffOverlap | lab/cooking_chart/static/app.js:535-544 | the negated separation test is the open overlap of the two boxes widened by the 18-pixel margin, and it is symmetric |
| Placement.CanPlaceMeaning | lab/cooking_chart/static/app.js:546-549 | a spot is free exactly when it intersects no node on the board |
| Placement.ClampedPoint | lab/cooking_chart/static/app.js:551-557 | a clamped snapped point is on the board and on the grid horizontally, and vertically on the grid when the height is |
| Placement.SearchVerticalFound | lab/cooking_chart/static/app.js:567-571 | a hit of the vertical walk lies on the right side of the origin, is free and on the board |
| Placement.SearchRing | lab/cooking_chart/static/app.js:577-587 | a hit of the ring search is likewise acceptable and on the board |
| Placement.FindSpec | lab/cooking_chart/static/app.js:559-589 | any point the search returns is free, on the board and on the requested side |
| Placement.FindSpecNone | lab/cooking_chart/static/app.js:559-589 | `null` means the base point, all twelve vertical candidates and every ring candidate were rejected |
| Placement.RingOneCoversAll | lab/cooking_chart/static/app.js:573-587 | the rings together with the column order visit every offset of the 21 by 21 neighbourhood except the centre |
| Placement.FindNearbyFreePosition | lab/cooking_chart/static/app.js:559-589 | the loop implementation returns exactly the specified search result |
| Placement.WalkVertically | lab/cooking_chart/static/app.js:567-571 | the vertical loop returns the first acceptable point of the walk |
| Placement.ColumnOrder | lab/cooking_chart/static/app.js:573-576 | `dxOrder` is `0, 1, -1, 2, -2, .., 10, -10` |
| Placement.SearchRings | lab/cooking_chart/static/app.js:577-588 | the nested ring loops return exactly the specified ring search result |
| Moves.MovedNode | lab/cooking_chart/static/app.js:1132-1145 | a dragged node moves from its drag-start position and is clamped to the board; only x and y change |
| Moves.MovedLine | lab/cooking_chart/static/app.js:1132-1145 | a dragged step line moves vertically from its start and stays on the board |
| Moves.MovedText | lab/cooking_chart/static/app.js:1147-1157 | a dragged text item moves from its start within the board; text without a recorded start is untouched |
| Moves.MoveFromStart | lab/cooking_chart/static/app.js:1132-1145 | a drag is measured from the start position, so only the last delta of a drag counts |
| Moves.GroupMoveSpec | lab/cooking_chart/static/app.js:1132-1145 | a group move changes exactly the selected nodes |
| Moves.LineGroupMoveSpec | lab/cooking_chart/static/app.js:1132-1145 | a group move changes exactly the selected step lines |
| Moves.TextGroupMoveSpec | lab/cooking_chart/static/app.js:1147-1157 | a text group move changes exactly the selected text items |
| Moves.SnappedNode | lab/cooking_chart/static/app.js:1159-1173 | a snapped node is on the grid horizontally and inside the board |
| Moves.SnappedLine | lab/cooking_chart/static/app.js:1159-1173 | a snapped step line is on a grid row inside the board |
| Moves.SnappedText | lab/cooking_chart/static/app.js:1175-1184 | a snapped text item is on the grid unless pushed against the right edge |
| Moves.SnapGroupOnGrid | lab/cooking_chart/static/app.js:1159-1173 | after a group snap every selected node and line is on the grid and the others are unchanged |
| Marquee.RectOf | lab/cooking_chart/static/app.js:1002-1005 | the rectangle is normalised and contains both drag corners |
| Marquee.RectOfSymmetric | lab/cooking_chart/static/app.js:1002-1005 | the rectangle does not depend on the drag direction |
| Marquee.HitMonotone | lab/cooking_chart/static/app.js:1007-1019 | enlarging the rectangle never loses a hit |
| Marquee.InsideIsHit | lab/cooking_chart/static/app.js:1007-1009 | a node entirely inside the rectangle is hit |
| Marquee.HitNodeIds | lab/cooking_chart/static/app.js:1007-1009 | the hit ids are exactly the ids of nodes overlapping the rectangle |
| Marquee.HitLineIds | lab/cooking_chart/static/app.js:1010-1012 | the hit ids are exactly the ids of step lines crossing the rectangle |
| Marquee.HitTextIds | lab/cooking_chart/static/app.js:1013-1019 | the hit ids are exactly the ids of text items overlapping the rectangle |
| Marquee.MarqueeNodes | lab/cooking_chart/static/app.js:1045-1055 | the new node selection is duplicate-free, is the union of the hits and, when additive, the previous selection, and keeps the previous selection first |
| Marquee.MarqueeLines | lab/cooking_chart/static/app.js:1045-1055 | the same union property for step lines |
| Marquee.MarqueeTexts | lab/cooking_chart/static/app.js:1045-1055 | the same union property for text items |
| Marquee.MarqueeKeys | lab/cooking_chart/static/app.js:1045-1055 | the same union property for edge keys |
| Clipboard.NodesIn | lab/cooking_chart/static/app.js:120-122 | the copied nodes are exactly the selected nodes, in document order |
| Clipboard.EdgesWithin | lab/cooking_chart/static/app.js:133-134 | the copied edges are exactly those with both ends selected |
| Clipboard.TextsIn | lab/cooking_chart/static/app.js:141-143 | the copied texts are exactly the selected text items |
| Clipboard.CopiedFieldsNormal | lab/cooking_chart/static/app.js:123-132 | copied node fields are already normalised |
| Clipboard.CopyOf | lab/cooking_chart/static/app.js:118-162 | copying fails on an empty result, otherwise records the selection ids, the selected nodes, texts and internal edges |
| Clipboard.CopyHoldsSelected | lab/cooking_chart/static/app.js:118-162 | every selected node is in the clipboard |
| Clipboard.CopySourceIds | lab/cooking_chart/static/app.js:118-162 | the clipboard remembers exactly the ids of the copied nodes |
| Clipboard.CopyEdgesClosed | lab/cooking_chart/static/app.js:133-140 | every copied edge joins two copied nodes |
| Clipboard.PastedNode | lab/cooking_chart/static/app.js:182-194 | a pasted node gets the next fresh id, keeps title and height, becomes a material node and is clamped to the board |
| Clipboard.PastedText | lab/cooking_chart/static/app.js:210-219 | a pasted text item gets a fresh id and keeps text and boldness |
| Clipboard.FreshRange | lab/cooking_chart/static/app.js:180-181 | the fresh ids are consecutive from the counter and distinct |
| Clipboard.PasteIdMapKeys | lab/cooking_chart/static/app.js:197 | the id map is defined on exactly the copied source ids |
| Clipboard.PasteIdMapPairs | lab/cooking_chart/static/app.js:178-198 | each copied node's source id maps to that copy's fresh id |
| Clipboard.PasteEdgesSpec | lab/cooking_chart/static/app.js:200-205 | pasted edges are the old edges plus each copied edge rewired through the id map; edges with an unmapped end are skipped |
| Clipboard.PasteConnectsCopies | lab/cooking_chart/static/app.js:200-205 | every copied edge reappears between the copies of its own endpoints |
| Clipboard.PasteAsWrittenReversesEdge | lab/cooking_chart/static/app.js:177-197 | with the id map built from the selection order, the example's pasted edge runs between the wrong copies (see Findings) |
| Clipboard.ExampleMaps | lab/cooking_chart/static/app.js:177-197 | on the example, the as-written map and the intended map differ |
| Editor.Push | lab/cooking_chart/static/app.js:415-418 | pushing keeps the history within the 120-entry limit and ends with the pushed snapshot |
| Editor.PushEvictsOldest | lab/cooking_chart/static/app.js:415-418 | below the limit a push appends; at the limit it also drops the oldest entry |
| Editor.Pop | lab/cooking_chart/static/app.js:420-423 | undo removes the newest snapshot |
| Editor.Restore | lab/cooking_chart/static/app.js:399-413 | restoring copies the board and id counters and replaces missing line and text counters by 1; selections are de-duplicated |
| Editor.RestoreOfNormal | lab/cooking_chart/static/app.js:382-413 | restoring a cloned state gives back that state |
| Editor.FailedCreateAsWrittenBelowLimit | lab/cooking_chart/static/app.js:603-606 | below the limit, the push-then-pop on a failed create leaves the history unchanged |
| Editor.FailedCreateAsWrittenLosesOldest | lab/cooking_chart/static/app.js:603-606 | at the limit, the push-then-pop on a failed create loses the oldest snapshot (see Findings) |
| Editor.OrOne | lab/cooking_chart/static/app.js:406-407 | `x \|\| 1` is never 0 and keeps non-zero values |
| Editor.ConnectedChild | lab/cooking_chart/static/app.js:591-598 | a child node gets the next id and the default height |
| Editor.ConnectedChildPlaced | lab/cooking_chart/static/app.js:591-615 | the child is on the board, free, on the chosen side of an existing parent |
| Editor.ChosenRowUnique | lab/cooking_chart/static/app.js:1934-1956 | the row chosen for a new step line is determined by the taken rows |
| Editor.FreeStepRow | lab/cooking_chart/static/app.js:1934-1956 | the search returns the nearest free grid row, preferring downward, or the snapped row when all rows are taken |
| Editor.RootNode | lab/cooking_chart/static/app.js:1899-1909 | a new root node gets the next id, the default height and a grid position on the board |
| Editor.RootText | lab/cooking_chart/static/app.js:1911-1932 | a new text item is empty, not bold, default-sized and on the board |
| Editor.FreshIdsAddNode | lab/cooking_chart/static/app.js:1899-1909 | adding a node with the counter id and bumping the counter keeps ids unique and below the counter |
| Editor.FreshIdsAddText | lab/cooking_chart/static/app.js:1911-1932 | the same for text items |
| Editor.FreshIdsAddLine | lab/cooking_chart/static/app.js:1934-1956 | the same for step lines |
| Editor.PasteState | lab/cooking_chart/static/app.js:164-230 | paste appends the copies after the old content, advances the counters by the copy counts and selects exactly the copies |
| Editor.PasteKeepsFreshIds | lab/cooking_chart/static/app.js:164-230 | pasting keeps every id unique and below its counter |
| Editor.PasteSelectsCopies | lab/cooking_chart/static/app.js:224-227 | after a paste the selection is exactly the pasted copies |
| Editor.BoldToggled | lab/cooking_chart/static/app.js:2880-2894 | exactly the selected text items flip boldness; nothing else changes |
| Editor.BoldToggledTwice | lab/cooking_chart/static/app.js:2880-2894 | toggling twice restores the texts |
| Editor.ToggleEach | lab/cooking_chart/static/app.js:2880-2894 | the loop computes the specified toggle |
| Editor.PasteCardLoop | lab/cooking_chart/static/app.js:178-198 | the node loop appends the pasted nodes, advances the id counter and builds the id map |
| Editor.PasteEdgeLoop | lab/cooking_chart/static/app.js:200-205 | the edge loop computes the specified edge list |
| Editor.PasteTextLoop | lab/cooking_chart/static/app.js:207-222 | the text loop appends the pasted text items and advances the text counter |
| Editor.PasteInto | lab/cooking_chart/static/app.js:164-230 | the three loops together compute the specified paste state |
| Editor.LoadedFresh | lab/cooking_chart/static/app.js:2192-2206 | loaded content with unique ids below its counters gives an editor state that keeps both properties |
| Editor.Editor.constructor | lab/cooking_chart/static/app.js:12-28 | an editor starts empty with all counters at 1 and no history |
| Editor.Editor.PushHistory | lab/cooking_chart/static/app.js:415-418 | the history becomes the specified push |
| Editor.Editor.Undo | lab/cooking_chart/static/app.js:420-423 | undo with no history does nothing; otherwise it pops and restores the newest snapshot |
| Editor.Editor.UpsertEdge | lab/cooking_chart/static/app.js:528-533 | only the edge list changes, by the specified upsert |
| Editor.Editor.SetSelection | lab/cooking_chart/static/app.js:236-242 | nodes and lines are selected de-duplicated; text and edge selections are cleared |
| Editor.Editor.SetEdgeSelection | lab/cooking_chart/static/app.js:276-284 | edge keys are de-duplicated without empties; other selections are cleared unless kept |
| Editor.Editor.CreateConnectedNode | lab/cooking_chart/static/app.js:600-615 | when no spot exists nothing changes, history included; otherwise the child is added, connected to its parent on the opposite side, and selected |
| Editor.Editor.AddNode | lab/cooking_chart/static/app.js:1890-1909 | one history entry; the new root node is appended at the next root position and selected |
| Editor.Editor.AddText | lab/cooking_chart/static/app.js:1911-1932 | one history entry; the new text item is appended and selected |
| Editor.Editor.AddStepLineAt | lab/cooking_chart/static/app.js:1934-1956 | one history entry; a step line with the next id is appended on the chosen free row |
| Editor.Editor.DeleteNode | lab/cooking_chart/static/app.js:1605-1617 | one history entry; the state becomes the specified cascading delete |
| Editor.Editor.DeleteSelection | lab/cooking_chart/static/app.js:2896-2918 | nothing happens with an empty selection; otherwise one history entry and the specified cascading delete |
| Editor.Editor.ToggleBold | lab/cooking_chart/static/app.js:2880-2894 | nothing happens without selected text; otherwise one history entry and the selected texts flip boldness |
| Editor.Editor.Copy | lab/cooking_chart/static/app.js:118-162 | copy succeeds exactly when the copy is non-empty, then stores it and resets the paste count |
| Editor.Editor.Paste | lab/cooking_chart/static/app.js:164-230 | paste succeeds exactly when the clipboard holds nodes or texts, then pushes history and performs the specified paste |
| Editor.Editor.ApplyGroupMove | lab/cooking_chart/static/app.js:1132-1145 | only the selected nodes and lines move, by the specified move |
| Editor.Editor.ApplyTextGroupMove | lab/cooking_chart/static/app.js:1147-1157 | only the selected texts move |
| Editor.Editor.SnapGroup | lab/cooking_chart/static/app.js:1159-1173 | only the selected nodes and lines are snapped |
| Editor.Editor.SnapTextGroup | lab/cooking_chart/static/app.js:1175-1184 | only the selected texts are snapped |
| Editor.Editor.ApplyMarqueeSelection | lab/cooking_chart/static/app.js:1001-1056 | the four selections become the marquee unions and nothing else changes |
| Editor.Editor.LoadContent | lab/cooking_chart/static/app.js:2192-2206 | loading replaces the board and counters, clears node/line/text selections and the history |
| Editor.Editor.ApplyJsonEditorText | lab/cooking_chart/static/app.js:2208-2225 | JSON text is applied exactly when it parses to an object or array that converts; otherwise nothing changes |
| Editor.Editor.LoadRecipe | lab/cooking_chart/static/app.js:2339-2356 | missing content loads as `{}`; a content that fails to convert leaves the editor unchanged |
| Editor.Editor.ClearToEmpty | lab/cooking_chart/static/app.js:2358-2379 | clearing empties the board, resets counters to 1 and the history, keeping only the edge-key selection |
| JsValue.ParseDecimal | lab/cooking_chart/static/app.js:2236-2246 | a decimal parse succeeds only on non-empty text |
| JsValue.StrToNumberOfInt | lab/cooking_chart/static/app.js:2236-2246 | `Number(String(n)) == n` for every integer |
| JsValue.IntStrIsParsed | lab/cooking_chart/static/app.js:2236-2246 | `Number(s)` on trimmed non-empty text is its decimal value |
| JsValue.StrToNumberNonDigit | lab/cooking_chart/static/app.js:2236-2246 | text with a non-digit character (other than a leading sign) is not a number |
| JsValue.ToNumberOfPrimitive | lab/cooking_chart/static/app.js:2236-2246 | a primitive fails `Number()` only when undefined or non-numeric text |
| JsValue.OrEmptyString | lab/cooking_chart/static/app.js:2295 | `x \|\| ""` is `""` for falsy values and the string itself for strings |
| Loader.Collect | lab/cooking_chart/static/app.js:2291-2297 | a mapped-and-filtered list holds exactly the converted entries in order |
| Loader.MaxOf | lab/cooking_chart/static/app.js:2263 | `Math.max(0, ...ids)` bounds every id and is 0 or one of them |
| Loader.EdgeOf | lab/cooking_chart/static/app.js:2236-2246 | an edge is kept exactly when both endpoints convert to numbers |
| Loader.NormalizeEdges | lab/cooking_chart/static/app.js:2236-2246 | normalising throws exactly on a null or undefined entry, otherwise keeps the convertible edges |
| Loader.TagsOf | lab/cooking_chart/static/app.js:2259 | loaded tags are trimmed and non-empty |
| Loader.MemosOf | lab/cooking_chart/static/app.js:2260 | at most one trimmed, non-empty memo is loaded |
| Loader.CurrentNode | lab/cooking_chart/static/app.js:2250-2262 | a current-format node falls back to the index-based id and the default height, and is clamped onto the board |
| Loader.CurrentLine | lab/cooking_chart/static/app.js:2266-2270 | a step line falls back to the index-based id and is snapped |
| Loader.CurrentText | lab/cooking_chart/static/app.js:2273-2288 | a text item falls back to the index-based id and default size and is clamped |
| Loader.ArrowOf | lab/cooking_chart/static/app.js:2290-2297 | an arrow is kept exactly when its source is a number and its target edge key exists |
| Loader.ConvertCurrent | lab/cooking_chart/static/app.js:2249-2310 | current-format content converts every node, line and text and keeps the valid arrows; it throws exactly where the source throws |
| Loader.LegacyNode | lab/cooking_chart/static/app.js:2313-2325 | a legacy card takes its position from x/y, else from the column and row grid |
| Loader.ConvertLegacy | lab/cooking_chart/static/app.js:2312-2336 | legacy content converts cards and edges, has no arrows, lines or texts, and throws on a null entry |
| Loader.Convert | lab/cooking_chart/static/app.js:2248-2337 | null or undefined content is a type error |
| Loader.ConvertCountersFresh | lab/cooking_chart/static/app.js:2306-2308 | counters computed from the content lie above every id |
| Loader.ConvertLinesOnGrid | lab/cooking_chart/static/app.js:2264-2272 | loaded step lines are on grid rows inside the board |
| Loader.ConvertArrowsAndSides | lab/cooking_chart/static/app.js:2240-2297 | loaded arrows point at loaded edges, and every edge side is normalised to top or bottom |
| Loader.ConvertNodesOnBoard | lab/cooking_chart/static/app.js:2250-2325 | loaded nodes lie on the board with at most one memo |
| SavedContent.NodeKept | lab/cooking_chart/static/app.js:2250-2262 | a normalised node saved as JSON loads back unchanged |
| SavedContent.LineKept | lab/cooking_chart/static/app.js:2266-2270 | a normalised step line loads back unchanged |
| SavedContent.TextKept | lab/cooking_chart/static/app.js:2273-2288 | a normalised text item loads back unchanged |
| SavedContent.NodesKept | lab/cooking_chart/static/app.js:2250-2262 | a saved node list loads back unchanged |
| SavedContent.LinesKept | lab/cooking_chart/static/app.js:2264-2272 | a saved step-line list loads back unchanged |
| SavedContent.TextsKept | lab/cooking_chart/static/app.js:2273-2288 | a saved text list loads back unchanged |
| SavedContent.EdgeKept | lab/cooking_chart/static/app.js:2236-2246 | a saved edge loads back unchanged |
| SavedContent.ArrowKept | lab/cooking_chart/static/app.js:2290-2297 | a saved arrow on an existing edge loads back unchanged |
| SavedContent.LinksKept | lab/cooking_chart/static/app.js:2290-2302 | saved edges and arrows load back unchanged |
| SavedContent.EncodedReads | lab/cooking_chart/static/app.js:2249-2310 | saved content is read in the current format and does not throw |
| SavedContent.LoadSaved | lab/cooking_chart/static/app.js:2248-2337 | loading what the editor saves gives back the same content |
| RecipeList.DisplayKeys | lab/cooking_chart/static/app.js:2800-2806 | the displayed keys are the recipe names, plus the draft key when a draft exists |
| RecipeList.DropIndex | lab/cooking_chart/static/app.js:2808-2822 | the drop index lies within the list |
| RecipeList.MoveSpec | lab/cooking_chart/static/app.js:2824-2825 | the splice move puts the dragged key at the target and keeps the same keys |
| RecipeList.MoveInPlace | lab/cooking_chart/static/app.js:2824-2825 | dropping an entry on its own position changes nothing |
| RecipeList.DropIgnoredIff | lab/cooking_chart/static/app.js:2792-2839 | a drop is ignored exactly when nothing is dragged, the drop is cancelled or the dragged key is not listed |
| RecipeList.DropPermutes | lab/cooking_chart/static/app.js:2824-2830 | the saved order is a permutation of the recipe names |
| RecipeList.DropRemembersDraft | lab/cooking_chart/static/app.js:2827-2828 | with a draft, its new index is remembered |
| RecipeList.DropIndexOnEntry | lab/cooking_chart/static/app.js:2808-2822 | dropping on the top or bottom half of an entry gives the index just before or after it |
| RecipeList.MoveNextTo | lab/cooking_chart/static/app.js:2808-2825 | the dragged key lands directly before or after the target |
| RecipeList.DropNextToTarget | lab/cooking_chart/static/app.js:2792-2839 | end to end, a drop on an entry places the dragged recipe next to it |
| RecipeList.Desired | lab/cooking_chart/static/app.js:1217-1220 | the desired name is never empty (it defaults to the untitled name) |
| RecipeList.NumberedInjective | lab/cooking_chart/static/app.js:1221-1230 | numbered names `base (n)` differ for different n |
| RecipeList.FirstFreeUnique | lab/cooking_chart/static/app.js:1221-1230 | the first free number is unique |
| RecipeList.FirstFreeNumber | lab/cooking_chart/static/app.js:1221-1230 | the counting loop finds the first free number |
| RecipeList.SaveName | lab/cooking_chart/static/app.js:1217-1232 | a loaded recipe keeps its name; a new one gets the desired name, or its first free numbered variant when taken |
| RecipeStore.NoTokenNoEditing | lab/cooking_chart/lab_app.py:133-136 | without a configured token every key is refused |
| RecipeStore.PaddedKeyAccepted | lab/cooking_chart/lab_app.py:133-136 | keys are compared after trimming |
| RecipeStore.SaveCheckOk | lab/cooking_chart/lab_app.py:176-185 | a save is accepted exactly with a valid key, an object body, a non-empty name and object content |
| RecipeStore.NormalizedAccepted | lab/cooking_chart/lab_app.py:250 | an accepted reorder keeps the submitted names one for one and in order, each stripped and none blank |
| RecipeStore.EmptyOrderAccepted | lab/cooking_chart/lab_app.py:243-250 | an empty names list is accepted |
| RecipeStore.MaxOrder | lab/cooking_chart/lab_app.py:206-212 | `MAX(sort_order)` is absent exactly when no row has one, and otherwise is the largest |
| RecipeStore.NextOrder | lab/cooking_chart/lab_app.py:206-212 | the next sort order lies above every existing one |
| RecipeStore.SortSorted | lab/cooking_chart/lab_app.py:275-296 | ordering rows by sort order, then id, gives a sorted permutation that keeps keys unique |
| RecipeStore.LastIndex | lab/cooking_chart/lab_app.py:262-273 | for a repeated name the last position wins |
| RecipeStore.NumberFrom | lab/cooking_chart/lab_app.py:262-296 | the numbering loop gives the specified renumbering |
| RecipeStore.ReorderRows | lab/cooking_chart/lab_app.py:243-300 | the reorder loops give the specified reorder |
| RecipeStore.BackFillRows | lab/cooking_chart/lab_app.py:100-111 | the back-fill loop gives the specified back-fill |
| RecipeStore.Store.constructor | lab/cooking_chart/lab_app.py:58-114 | a store starts from a table with unique names and ids and a trimmed token |
| RecipeStore.Store.InitDb | lab/cooking_chart/lab_app.py:100-111 | start-up back-fills missing sort orders |
| RecipeStore.Store.SaveRecipe | lab/cooking_chart/lab_app.py:176-224 | the status follows validation; an accepted save performs the specified upsert |
| RecipeStore.Store.DeleteRecipe | lab/cooking_chart/lab_app.py:228-239 | without a valid key nothing changes and the answer is 403; otherwise the named row is removed, answering 404 when there was none |
| RecipeStore.Store.UpdateRecipeOrder | lab/cooking_chart/lab_app.py:243-300 | the status follows validation; an accepted request performs the specified reorder |
| RecipeStore.RenumberKeepsRows | lab/cooking_chart/lab_app.py:262-296 | renumbering changes only sort orders |
| RecipeStore.BackFillKeepsRows | lab/cooking_chart/lab_app.py:100-111 | back-filling changes only sort orders and keeps names and ids unique |
| RecipeStore.ReorderKeepsRows | lab/cooking_chart/lab_app.py:243-300 | reordering changes only sort orders and keeps names and ids unique |
| RecipeStore.UpsertKeepsUnique | lab/cooking_chart/lab_app.py:206-220 | saving keeps names and ids unique |
| RecipeStore.UpsertExisting | lab/cooking_chart/lab_app.py:215-220 | saving an existing name replaces content and time in place, keeping id and order |
| RecipeStore.UpsertNew | lab/cooking_chart/lab_app.py:206-214 | saving a new name appends one row ordered after all others |
| RecipeStore.FirstSaveAtOne | lab/cooking_chart/lab_app.py:206-214 | the first recipe gets sort order 1 |
| RecipeStore.DeleteSpec | lab/cooking_chart/lab_app.py:228-239 | deletion removes exactly the named row |
| RecipeStore.BackFillAbove | lab/cooking_chart/lab_app.py:100-111 | after back-fill every row has an order; existing orders are kept and filled ones are above them |
| RecipeStore.BackFillIdOrder | lab/cooking_chart/lab_app.py:100-111 | filled rows are numbered in id order |
| RecipeStore.TailNames | lab/cooking_chart/lab_app.py:275-285 | the tail holds exactly the stored names missing from the request |
| RecipeStore.ReorderListed | lab/cooking_chart/lab_app.py:262-273 | a listed recipe gets one plus its last position in the request |
| RecipeStore.ReorderUnlisted | lab/cooking_chart/lab_app.py:275-296 | an unlisted recipe is numbered after all listed ones |
| RecipeStore.ReorderKeepsTailOrder | lab/cooking_chart/lab_app.py:275-296 | unlisted recipes keep their previous relative order |
| Csv.SplitCsvLine | lab/spotify_history_viz/app.js:85-107 | the character loop computes the specified field split |
| Csv.FieldCount | lab/spotify_history_viz/app.js:85-107 | the field count is one more than the commas outside quotes |
| Csv.PlainLine | lab/spotify_history_viz/app.js:85-107 | a line without quotes splits at every comma |
| Csv.SplitEncoded | lab/spotify_history_viz/app.js:85-107 | splitting a line of quoted fields gives back the fields, doubled quotes included |
| Csv.SplitLines | lab/spotify_history_viz/app.js:52 | one line per newline-separated piece |
| Csv.LinesOfJoin | lab/spotify_history_viz/app.js:52 | splitting joined non-empty lines on `\r?\n` and dropping empties gives them back |
| Csv.ReplaceFirstSpace | lab/spotify_history_viz/app.js:70 | the timestamp normalisation keeps the length |
| Csv.KindOf | lab/spotify_history_viz/app.js:74-76 | the content type is music for "music", podcast for "podcast" or "episode", else skipped |
| Csv.PlayOf | lab/spotify_history_viz/app.js:77-80 | a play has trimmed artist and track and a lower-cased trimmed reason |
| Csv.Row | lab/spotify_history_viz/app.js:66-81 | a row is kept exactly when it has a timestamp that parses and a known content type |
| Csv.ReadRows | lab/spotify_history_viz/app.js:65-82 | the row loop computes the specified rows |
| Csv.ParseCsv | lab/spotify_history_viz/app.js:51-83 | the parse computes the specified plays |
| Csv.RowsFromLines | lab/spotify_history_viz/app.js:65-82 | every play comes from some line and there are at most as many plays as lines |
| Csv.EpisodeIsPodcast | lab/spotify_history_viz/app.js:75 | episodes are counted as podcasts |
| Csv.RowTrimmed | lab/spotify_history_viz/app.js:77-79 | plays have trimmed artist and track |
| Csv.NoHeaderNoPlays | lab/spotify_history_viz/app.js:53-63 | without data lines or a complete header there are no plays |
| Months.FromIndex | lab/spotify_history_viz/app.js:125-134 | months are numbered consecutively |
| Months.IndexInjective | lab/spotify_history_viz/app.js:125-134 | different months have different numbers |
| Months.Next | lab/spotify_history_viz/app.js:131 | the next month is one further, wrapping into the next year |
| Months.Pad2 | lab/spotify_history_viz/app.js:121 | `padStart(2, "0")` gives two characters below 100 |
| Months.Pad2Injective | lab/spotify_history_viz/app.js:121 | padded months differ for different months |
| Months.MonthKeyInjective | lab/spotify_history_viz/app.js:119-123 | `YYYY-MM` keys identify the month |
| Months.MonthSequence | lab/spotify_history_viz/app.js:125-134 | the loop lists the key of every month from start to end, one per month |
| Months.SequenceDistinct | lab/spotify_history_viz/app.js:125-134 | the listed keys are distinct |
| Months.SequenceSteps | lab/spotify_history_viz/app.js:131 | each listed month follows the previous one |
| Ranks.Put | lab/spotify_history_viz/app.js:268-272 | `Map.set` makes the key map to the value |
| Ranks.PutOther | lab/spotify_history_viz/app.js:268-272 | `Map.set` leaves other keys unchanged |
| Ranks.PutShape | lab/spotify_history_viz/app.js:268-272 | a new key is appended at the end (insertion order); an existing key keeps its place |
| Ranks.PutKeyed | lab/spotify_history_viz/app.js:268-272 | a map has each key once |
| Ranks.PlaysCount | lab/spotify_history_viz/app.js:269-270 | an artist's play count is the number of selected plays of 10 s or more |
| Ranks.TracksMeaning | lab/spotify_history_viz/app.js:271-272 | an artist's unique tracks are the non-empty track names of those plays |
| Ranks.SameArtists | lab/spotify_history_viz/app.js:269-272 | the plays and tracks maps list the same artists in the same order |
| Ranks.TalliesKeyed | lab/spotify_history_viz/app.js:257-274 | each tally lists each artist once |
| Ranks.MinutesSum | lab/spotify_history_viz/app.js:268 | with all durations present, an artist's total is the sum over their selected plays |
| Ranks.TimedMeaning | lab/spotify_history_viz/app.js:268 | the sum condition means every selected play of the artist has a duration |
| Ranks.NaNRestartsTotal | lab/spotify_history_viz/app.js:268 | a NaN total is falsy, so the next play restarts the total from 0 |
| Ranks.InsertDesc | lab/spotify_history_viz/app.js:276-289 | inserting into the ranking adds one entry |
| Ranks.SortDesc | lab/spotify_history_viz/app.js:276-289 | sorting keeps the length |
| Ranks.SortContents | lab/spotify_history_viz/app.js:276-289 | sorting is a permutation |
| Ranks.SortDescending | lab/spotify_history_viz/app.js:276-289 | the result is in descending order and keeps keys unique |
| Ranks.RankShape | lab/spotify_history_viz/app.js:276-289 | a ranking has at most the limit entries, all from the tally, in descending order |
| Ranks.RankWhole | lab/spotify_history_viz/app.js:276-289 | under the limit a ranking keeps every entry |
| Ranks.RankOmitted | lab/spotify_history_viz/app.js:276-289 | every omitted entry ranks no higher than every kept one |
| Ranks.ComputeArtistRanks | lab/spotify_history_viz/app.js:256-292 | the loop and sorts compute the specified rankings |
| Ranks.PlaysRanking | lab/spotify_history_viz/app.js:281-284 | the plays ranking holds at most 100 artists, descending, each with their true play count |
| Ranks.UniqueRanking | lab/spotify_history_viz/app.js:286-289 | the unique ranking holds each artist's true distinct-track count |
| Ranks.MinutesRanking | lab/spotify_history_viz/app.js:276-279 | the minutes ranking holds the top 100 totals in descending order |
| Ranks.TopArtistsByMinutes | lab/spotify_history_viz/app.js:478-491 | the loop computes the specified top artist names |
| Ranks.TopArtistsSpec | lab/spotify_history_viz/app.js:478-491 | at most the limit distinct names, each an artist of a music play in the range |
| Ranks.MinutesPresent | lab/spotify_history_viz/app.js:263-268 | an artist is tallied only when one of their plays is selected |
| Html.EscapeHtmlPerChar | lab/spotify_history_viz/app.js:609-616 | the chain of replacements is a per-character escape |
| Html.EscapeOneChar | lab/spotify_history_viz/app.js:609-616 | each special character becomes its entity |
| Html.EscapedHasNoMarkup | lab/spotify_history_viz/app.js:609-616 | escaped text contains no `<`, `>`, `"` or `'` |
| Html.AmpersandsBeginEntities | lab/spotify_history_viz/app.js:609-616 | every ampersand in escaped text starts one of the five entities |
| Html.UnescapeEscape | lab/spotify_history_viz/app.js:609-616 | unescaping escaped text gives back the text |
| Html.EscapeInjective | lab/spotify_history_viz/app.js:609-616 | different names escape differently |
| Paging.TotalPages | lab/spotify_history_viz/app.js:308 | at least one page, and just enough pages of ten for the items |
| Paging.PageItems | lab/spotify_history_viz/app.js:305-306 | a page shows at most ten items, the ones at its offset |
| Paging.NextPageInRange | lab/spotify_history_viz/app.js:814 | the pager stays within 1 and the page count |
| Paging.DisabledExactlyWhenStill | lab/spotify_history_viz/app.js:814-815 | a click leaves the page unchanged exactly when its button is disabled |
| Paging.PageOfEntry | lab/spotify_history_viz/app.js:305-308 | every ranked entry appears on some page |
| Paging.PageOfEntryUnique | lab/spotify_history_viz/app.js:305-306 | and on only one page |
| Paging.Pager.constructor | lab/spotify_history_viz/app.js:36-40 | a pager starts on page 1 of 1, empty |
| Paging.Pager.Shown | lab/spotify_history_viz/app.js:305-306 | a non-empty list shows a non-empty page |
| Paging.Pager.SetItems | lab/spotify_history_viz/app.js:632-640 | new items recompute the page count and clamp the page |
| Paging.Pager.Click | lab/spotify_history_viz/app.js:808-816 | a click moves within range and reports whether the page changed |
| Dashboard.ClickOrders | lab/spotify_history_viz/app.js:709-718 | month clicks always leave start before end |
| Dashboard.ClickEnds | lab/spotify_history_viz/app.js:709-718 | a click starts a new range when none or a full one is selected, and otherwise completes it with the two months |
| Dashboard.TopSetSpec | lab/spotify_history_viz/app.js:493-497 | the top set has at most ten artists, each with a music play in range |
| Dashboard.SameSizeSubset | lab/spotify_history_viz/app.js:505-513 | same size and containment means equal sets |
| Dashboard.Dashboard.constructor | lab/spotify_history_viz/app.js:30-43 | the dashboard starts on music with the reason filter and nothing selected |
| Dashboard.Dashboard.SyncTopToggleState | lab/spotify_history_viz/app.js:499-515 | the toggle is checked exactly when the top set is non-empty and equals the selection |
| Dashboard.Dashboard.UpdateTopArtistSet | lab/spotify_history_viz/app.js:493-497 | the top set becomes the top ten by minutes |
| Dashboard.Dashboard.SetRankings | lab/spotify_history_viz/app.js:632-640 | all three pagers take the new rankings with clamped pages |
| Dashboard.Dashboard.ApplyFilter | lab/spotify_history_viz/app.js:618-657 | without a start month nothing changes; otherwise top set, selection, rankings and toggle are recomputed |
| Dashboard.Dashboard.Refresh | lab/spotify_history_viz/app.js:624-656 | the filter step for a given range |
| Dashboard.Dashboard.HandleMonthClick | lab/spotify_history_viz/app.js:709-723 | the range follows the click rule and stays ordered; type and reason filter are kept; the filter is applied with pages clamped |
| Dashboard.Dashboard.SetType | lab/spotify_history_viz/app.js:659-664 | only the content type and the filtered state change; with a range the filter is applied with pages clamped, without one the selection is kept |
| Dashboard.Dashboard.SetReasonFilter | lab/spotify_history_viz/app.js:666-671 | only the reason filter and the filtered state change; with a range the filter is applied with pages clamped, without one the selection is kept |
| Dashboard.Dashboard.ArtistChecked | lab/spotify_history_viz/app.js:848-861 | range and filters are kept; checking adds the artist, unchecking removes it and clears the top toggle, then the filter is applied (pages clamped); a checked artist outside the top set is dropped while the toggle is on |
| Dashboard.Dashboard.LegendRemove | lab/spotify_history_viz/app.js:863-875 | range and filters are kept; the artist is removed and the top toggle cleared, with or without a range; with one the filter is applied with pages clamped |
| Dashboard.Dashboard.ToggleTop | lab/spotify_history_viz/app.js:877-891 | without a range only the toggle changes; unchecking clears the selection; checking selects exactly the recomputed top set and the filter is applied with pages clamped |
| Diary.DateOf | notion_fetcher.py:32-37 | a parsable heading becomes `m/d`; any other heading is kept verbatim |
| Diary.Kept | notion_fetcher.py:43-46 | keeping lines never adds any |
| Diary.KeptGood | notion_fetcher.py:43-46 | the kept lines are stripped, non-empty and free of newlines |
| Diary.FetchDiaryEntries | notion_fetcher.py:16-57 | the block loop and the final flush compute the specified diary |
| Diary.AddParagraph | notion_fetcher.py:39-46 | a paragraph's text is joined, split on newlines and its kept lines appended |
| Diary.AddLines | notion_fetcher.py:44-46 | the line loop appends exactly the kept lines |
| Diary.FailsIffEmptyHeading | notion_fetcher.py:32 | the fold fails exactly when some heading has no rich text |
| Diary.RunFailureStays | notion_fetcher.py:32 | once failed, the fold stays failed |
| Diary.RunAppend | notion_fetcher.py:21-51 | the fold is left to right: equal results on prefixes stay equal |
| Diary.OtherIgnored | notion_fetcher.py:25-46 | blocks other than headings and paragraphs change nothing |
| Diary.GroupsGood | notion_fetcher.py:26-55 | every emitted day has a non-empty date and at least one line |
| Diary.HtmlLines | notion_fetcher.py:28 | a day's HTML splits back into one paragraph per line |
| Diary.WrapInjective | notion_fetcher.py:28 | different lines give different paragraphs |
| Diary.EntriesReadBack | notion_fetcher.py:26-55 | each entry's HTML gives back exactly that day's lines |
| Diary.RunKeepsLines | notion_fetcher.py:21-51 | no kept line is lost or reordered by the fold |
| Diary.LinesReturned | notion_fetcher.py:53-57 | lines are returned in entries unless they belong to no date |
| Diary.Preamble | notion_fetcher.py:17-46 | lines before the first heading are collected without a date |
| Diary.UndatedLinesCarryOver | notion_fetcher.py:26-37 | undated lines are carried into the first dated day |
| Diary.EmptyDayDropped | notion_fetcher.py:27 | a day without lines produces no entry |
| Diary.AtMostOneEntryPerHeading | notion_fetcher.py:26-55 | there are at most as many entries as headings |
| Strings.TrimEmptyIffBlank | notion_fetcher.py:45 | a stripped line is empty exactly when it is all whitespace |
| Strings.SplitJoin | notion_fetcher.py:42-43 | splitting on newlines loses nothing: joining gives back the text |
| Strings.JoinSplit | notion_fetcher.py:43 | joining lines without the separator and splitting gives back the lines |

## Left out

- The DOM, SVG and canvas rendering, CSS classes, alerts, confirm dialogs, timers, zoom and the `/edit` route are left out. Only the state these handlers change is modelled.
- The network is left out: `fetch`, the Flask routes' HTTP layer, and the SQL engines (SQLite and Postgres).
  - The recipe table is a sequence of rows.
  - DDL and migrations, `list_recipes` and `get_recipe` are not modelled. Neither are AUTOINCREMENT gaps or where Postgres places NULLs in an `ORDER BY` (rows are ordered by sort order, then id).
- Floating point is not modelled. Coordinates, sizes, durations in milliseconds and minute values are integers, so `ms / 60000` and fractional positions are not modelled.
- Strings are sequences of characters. Whitespace for trimming and case folding are ASCII only.
- Dates are opaque.
  - `new Date`, `strptime` and `monthToDateStart` / `monthToDateEnd` are function parameters.
  - The day-of-month validation of `strptime`, the `getRange` scan and the default range `init` chooses are not modelled.
  - The NaN-date guard in `applyFilter` is folded into those parameters.
- In `aggregateByMonth`, `aggregateArtistTrends`, `renderScatter`, `niceStep`, `formatNumber` and the chart renderers, only the rankings that feed them are modelled.
- Artist search (`buildArtistList`, `renderArtistResults`, the Enter-key shortcut) is not modelled.
- The `artistTopToggle` missing-element guard is not modelled, because the element always exists in the model.
- Notion pagination (`has_more` / `next_cursor`) is not modelled. The fold runs over one sequence of blocks, which is the concatenation of the pages.
- The select-all shortcut (app.js 2855-2866) is not modelled, nor are keyboard dispatch and focus handling.
- Nodes are updated in place in the source. Here they are values replaced inside the state's sequences, so aliasing between a dragged element and the state is not modelled.
- The hit test for Bezier edges under the marquee is not modelled. The hit edge keys are a parameter of `ApplyMarqueeSelection`.
- `JSON.parse` is a parameter of `ApplyJsonEditorText`. JavaScript numbers are integers, and number text is decimal only: no exponent, hex or `Infinity`.
- Loader.CurrentNode, Loader.LegacyNode: a title is read as a string. A truthy title that is not a string (a number, say) is converted to its text, while `n.title || ""` (app.js 2255 and 2318) keeps the value itself.
- The Editor class models the edit page only (`isEditable`, app.js 67). On the view page the editing handlers return early or are not wired up (for example app.js 1900, 1912, 1935, 2741-2792 and 2856-2927), and that page is not modelled.
- Ranks.MinutesKey: the sort position of an artist whose total became NaN is taken as 0. JavaScript's comparator returns NaN there, so the sort order of such an entry is unspecified.

## Findings

| source | as written | input that shows it | evidently intended | confidence | as-written member | corrected member |
|---|---|---|---|---|---|---|
| lab/cooking_chart/static/app.js:600-615 | `createConnectedNode` pushes a history snapshot and, when no free spot exists, pops it again; at the 120-entry limit the push already evicted the oldest snapshot, so the pop leaves one fewer | a history of 120 snapshots and a node whose side is fully occupied: afterwards the history holds 119 and the oldest undo step is gone | a failed create leaves the history unchanged | not executed | Editor.FailedCreateAsWrittenLosesOldest | Editor.Editor.CreateConnectedNode |
| lab/cooking_chart/static/app.js:177-197 | paste pairs `sourceIds[idx]`, the selection order, with `nodes[idx]`, the document order | nodes 3 and 5 with an edge 3→5, selected as [5, 3], copied and pasted as ids 6 and 7: copy 6 is of node 3 but the map sends 5 to 6, so the pasted edge runs 7→6 | each copy keeps its own source id, so the pasted edge runs 6→7 | not executed | Clipboard.PasteAsWrittenReversesEdge | Clipboard.PasteConnectsCopies |
