# HAR viewer: classification, row table, preview and history, in Dafny

This project models the deterministic logic under the UI of a desktop viewer for
HTTP Archive (HAR) files: how each captured request is named, classified and
emphasised in the request table; which rows a category filter shows; how the
Preview and Response tabs decide what to render from the MIME type; how the
sidebar's history list is appended to, selected from, cleared and sorted; and
which dropped files are taken as `.har` files.

Layout, one module per source file plus five helpers:

- `patterns.dfy` (`Patterns`): the regular-expression shapes the viewer uses
  (`/^p.+/`, `/^p.*/`, `/p$/i`, and the `i` variants; the case-sensitive exact
  tests `/^p$/` are plain `==` in `RequestTable.MimeToType` and `RequestTable.Is0`).
  `.` refuses the four JavaScript line terminators. Every pattern the viewer uses is
  all ASCII, and under `i` a pattern letter then matches only its two ASCII cases.
- `segments.dfy` (`Segments`): `String.prototype.split` on one character, with
  `Join` as its inverse and the characterisation of the last piece.
- `decimal.dfy` (`Decimal`): `Number.prototype.toString` on integers, with the
  digits read back (`Value`) as its inverse.
- `har.dfy` (`Har`): the archive fields the viewer reads.
- `wrappers.dfy` (`Wrappers`): the `Option` type standing for `null` and `undefined`.
- `request_table.dfy` (`RequestTable`, src/components/Content/Request.tsx):
  pure naming, classification, emphasis, row projection and filtering, plus
  class `Table` for the component state `rows`, `selectedKey`, `entry`.
- `preview_pane.dfy` (`PreviewPane`, src/components/Detail/Preview.tsx):
  the six flags, the rendered panel, and class `Preview` holding the flags.
- `response_pane.dfy` (`ResponsePane`, src/components/Detail/Response.tsx):
  the `^text` flag, the body-or-message choice, and class `Response`.
- `sidebar.dfy` (`Sidebar`, src/components/Sidebar/Sidebar.tsx):
  `pathToName`, the stable newest-first sort, and class `HistoryList`.
- `app.dfy` (`App`, src/App.tsx): the `.har` filter and class `Window`
  holding `showDrop`, `dropPaths` and `path`.

React state hooks are modelled as class fields. Each handler or effect is a
method whose `ensures` gives the whole new state. A `null` or `undefined` value
is `Option.None`. The inputs that come from outside are parameters:
`uuid.v4()`, `Date.now()`, the open dialog's `filePaths` and the size formatter
`prettyBytes`. The path a sidebar handler passes to `onPath` is that method's
result.

Where the code behaves differently from what a reader might expect, the model
follows the code:

- The HTML preview test is the exact, anchored `/^text\/html$/i`, not a prefix
  test. So `text/html; charset=utf-8` shows raw text
  (`HtmlWithParameterShowsRawText`).
- Red and grey emphasis test the leading character of the status's decimal
  string, not numeric ranges. Status 40 and status 4000 are red, status 1 is not
  grey (`EmphasisIsByLeadingDigit`). For three-digit statuses this agrees with
  the ranges 400–599 and 100–199 (`EmphasisOfHttpStatus`).
- The JavaScript and CSS preview tests need at least one character after the
  type. So the bare `text/javascript` and `text/css`, which the table calls
  `JS` and `CSS`, are shown raw.
- `urlToName("")` gives `undefined/`, because JavaScript reads the missing
  second-to-last piece as `undefined` (`UrlToNameCases`).

## Model

| member | source | states |
|---|---|---|
| `Segments.Split` | src/components/Content/Request.tsx:158 | `split('/')` yields at least one piece and no piece holds the separator |
| `Segments.JoinSplit` | src/components/Content/Request.tsx:158 | joining the pieces of a split gives the string back |
| `Segments.SplitJoin` | src/components/Sidebar/Sidebar.tsx:91 | splitting a join of separator-free pieces gives the pieces back |
| `Segments.SplitSnoc` | src/components/Content/Request.tsx:158-160 | a trailing `/` adds exactly one empty last piece |
| `Segments.JoinLast` | src/components/Sidebar/Sidebar.tsx:91-92 | the last piece follows the last separator in the joined string |
| `Segments.LastIsFinalSegment` | src/components/Sidebar/Sidebar.tsx:91-92 | the last piece is a suffix with no `/`, and is the whole string or is preceded by `/` |
| `Segments.LastEmpty` | src/components/Content/Request.tsx:159-160 | the last piece is empty exactly when the string is empty or ends in `/` |
| `Segments.LastAfterFinalSeparator` | src/components/Sidebar/Sidebar.tsx:90-93 | the last piece is exactly the text after the final separator, or the whole string if it has none |
| `Decimal.Digits` | src/components/Content/Request.tsx:248-251 | `toString` of a non-negative integer is a non-empty string of decimal digits |
| `Decimal.Lead` | src/components/Content/Request.tsx:249-251 | the leading digit is a single digit, non-zero for positive numbers |
| `Decimal.ValueDigits` | src/components/Content/Request.tsx:228 | reading the digits back gives the number, so the time and status strings lose nothing |
| `Decimal.DigitsLength` | src/components/Content/Request.tsx:249-251 | the string has two or more characters exactly when the number is at least 10 |
| `Decimal.DigitsFirst` | src/components/Content/Request.tsx:249-251 | the first character of the string is the leading digit |
| `Decimal.LeadOfThreeDigits` | src/components/Content/Request.tsx:249-251 | a three-digit status leads with its hundreds digit |
| `Decimal.DecimalStringZero` | src/components/Content/Request.tsx:248 | the string is `"0"` exactly for zero |
| `Decimal.DecimalStringLeading` | src/components/Content/Request.tsx:249-251 | the string has two or more characters and starts with digit d exactly when n ≥ 10 and leads with d; negatives start with `-` |
| `RequestTable.UrlToName` | src/components/Content/Request.tsx:157-161 | a non-empty last `/`-piece of the URL is the name |
| `RequestTable.UrlToNameCases` | src/components/Content/Request.tsx:157-161 | for a URL ending in `/`, the name is the piece before that `/`, plus `/`; for the empty URL it is `undefined/`; otherwise it is the non-empty last piece |
| `RequestTable.UrlToNameOfFile` | src/components/Content/Request.tsx:157-161 | `…/assets/app.js` is named `app.js`: the text after the last `/` |
| `RequestTable.UrlToNameOfDirectory` | src/components/Content/Request.tsx:157-161 | `…/assets/` is named `assets/` |
| `RequestTable.MimeToType` | src/components/Content/Request.tsx:163-181 | first match, case-sensitive and anchored: XHR iff exactly `application/json`, JS iff exactly `text/javascript`, CSS iff exactly `text/css`, Img iff `^image/.+`, Doc iff `^text/.+` and not one of the two exact types, otherwise Other; by type never `All` |
| `RequestTable.MimeToTypeExamples` | src/components/Content/Request.tsx:164-177 | `application/json`, `text/javascript`, `text/css`, `image/png`, `text/plain` give XHR, JS, CSS, Img, Doc |
| `RequestTable.MimeToTypeIsAnchored` | src/components/Content/Request.tsx:167-180 | `text/javascript; charset=utf-8` is Doc; `Text/CSS`, a bare `image/` and `application/octet-stream` are Other |
| `RequestTable.LeadingDigitTest` | src/components/Content/Request.tsx:249-251 | `/^d.+/` on the status string holds iff the status is at least 10 and leads with d |
| `RequestTable.StatusTests` | src/components/Content/Request.tsx:248-251 | `is0` iff status 0; `is100`, `is400`, `is500` iff at least two digits and leading digit 1, 4 or 5 |
| `RequestTable.EmphasisOfHttpStatus` | src/components/Content/Request.tsx:283-290 | for statuses 100–999, red iff 400–599 and grey iff `OPTIONS` or below 200; status 0 is grey and not red |
| `RequestTable.EmphasisIsByLeadingDigit` | src/components/Content/Request.tsx:248-251 | 40 and 4000 are `is400`, 4 is not; 50 is `is500`; 1 is not `is100` |
| `RequestTable.ProjectRowwise` | src/components/Content/Request.tsx:220-231 | one row per entry, in entry order; each row has the entry's URL, method and status, `urlToName` of the URL, `mimeToType` of the MIME type, the formatted size, the decimal floor of the time, and the entry itself |
| `RequestTable.Visible` | src/components/Content/Request.tsx:267-270 | the visible rows are no more than the rows, and every one is shown by the filter |
| `RequestTable.VisibleConcat` | src/components/Content/Request.tsx:267-270 | filtering distributes over concatenation, so row order is kept |
| `RequestTable.VisibleMembers` | src/components/Content/Request.tsx:267-270 | a row is visible iff it is a row and the filter is `All` or its category |
| `RequestTable.VisibleAll` | src/components/Content/Request.tsx:269 | filter `All` shows every row unchanged |
| `RequestTable.VisibleCountsCategory` | src/components/Content/Request.tsx:220-231 | under `Only(c)` the table shows as many rows as there are entries of category c |
| `RequestTable.Toggled` | src/components/Content/Request.tsx:238 | the new key is null iff the old key was this key, otherwise it is this key |
| `RequestTable.ToggledTwice` | src/components/Content/Request.tsx:237-240 | selecting a key twice from a state where it is not selected leaves nothing selected |
| `RequestTable.Table.constructor` | src/components/Content/Request.tsx:211-213 | the table starts with no rows, no key and no entry |
| `RequestTable.Table.OnArchive` | src/components/Content/Request.tsx:215-235 | a null HAR leaves rows, key and entry as they were; a HAR replaces the rows by its projection and clears key and entry |
| `RequestTable.Table.ShowDetail` | src/components/Content/Request.tsx:237-240 | the key is toggled, the entry is set in both cases, and the rows are unchanged; the detail pane is open and row `key` highlighted (`DetailShown`, `IsHighlighted`, the props at lines 276 and 319) exactly when `key` was not already selected |
| `RequestTable.Table.HideDetail` | src/components/Content/Request.tsx:242-245 | key and entry become null; rows unchanged; the detail pane is closed (`DetailShown`, the `show` prop at line 319) |
| `PreviewPane.FlagsFor` | src/components/Detail/Preview.tsx:47-52 | html, js and css each imply text; at most one of them holds; text, image and json are pairwise exclusive |
| `PreviewPane.JsonSource` | src/components/Detail/Preview.tsx:97 | an absent or empty body is parsed as `{}`; any other body is parsed as it is |
| `PreviewPane.ViewOf` | src/components/Detail/Preview.tsx:55-101 | a panel iff visible and content non-null; text block iff `isText`, image iff `isImage`, tree iff `isJson`; raw `content.text` shown iff text and none of html/js/css; the image source is `data:` + MIME + `;` + encoding + `,` + text |
| `PreviewPane.SettledViewIsOneMode` | src/components/Detail/Preview.tsx:47-99 | once the effect has run for a content, the panel is exactly the single rendering mode of its MIME type |
| `PreviewPane.BareSourceTypesShowRawText` | src/components/Detail/Preview.tsx:49-50 | bare `text/javascript` and `text/css` are shown as plain text, not reformatted |
| `PreviewPane.HtmlWithParameterShowsRawText` | src/components/Detail/Preview.tsx:48 | `text/html; charset=utf-8` is not HTML and is shown as plain text |
| `PreviewPane.PreviewIgnoresCase` | src/components/Detail/Preview.tsx:48-52 | `TEXT/HTML` is reformatted as HTML and `Application/JSON` shows the tree |
| `PreviewPane.ScriptTypeWithParameterIsFormatted` | src/components/Detail/Preview.tsx:49 | `text/javascript` followed by a character other than a line terminator (LF, CR, U+2028, U+2029) is reformatted as JavaScript, while the table files it under `Doc` (Request.tsx:164-180) |
| `PreviewPane.Preview.constructor` | src/components/Detail/Preview.tsx:35-40 | all six flags start false |
| `PreviewPane.Preview.OnContent` | src/components/Detail/Preview.tsx:42-53 | a null content keeps all six flags; otherwise they become the six tests of its MIME type |
| `ResponsePane.ViewOf` | src/components/Detail/Response.tsx:35-53 | the body is shown, verbatim, iff the flag holds and the response is non-null; otherwise the fixed no-data message |
| `ResponsePane.TextTestExamples` | src/components/Detail/Response.tsx:32 | `text` and `textual` qualify; `Text/plain` does not |
| `ResponsePane.TableTextCategoriesAreText` | src/components/Detail/Response.tsx:32 | every MIME type the table calls JS, CSS or Doc passes the Response tab's text test |
| `ResponsePane.Response.constructor` | src/components/Detail/Response.tsx:25 | the flag starts false |
| `ResponsePane.Response.OnResponse` | src/components/Detail/Response.tsx:27-33 | a null response keeps the flag; otherwise it becomes `^text` of the MIME type |
| `Sidebar.PathToName` | src/components/Sidebar/Sidebar.tsx:90-93 | the name is the suffix after the last `/`, holds no `/`, and is the whole path when there is no `/` |
| `Sidebar.PathToNameOfDirectory` | src/components/Sidebar/Sidebar.tsx:90-93 | a path ending in `/` has the empty name |
| `Sidebar.NewHistories` | src/components/Sidebar/Sidebar.tsx:120-124 | one history per dropped path, carrying that path, in order |
| `Sidebar.InsertByTimeElements` | src/components/Sidebar/Sidebar.tsx:221 | inserting adds exactly the one history |
| `Sidebar.InsertByTimeNewestFirst` | src/components/Sidebar/Sidebar.tsx:221 | inserting into a newest-first list keeps it newest first |
| `Sidebar.SortedByTimeIsNewestFirst` | src/components/Sidebar/Sidebar.tsx:220-221 | after the sort, times are descending |
| `Sidebar.SortedByTimeIsPermutation` | src/components/Sidebar/Sidebar.tsx:220-221 | the sort is a permutation of the list |
| `Sidebar.AtTimeCons` | src/components/Sidebar/Sidebar.tsx:221 | the histories of one time in a list with a new head |
| `Sidebar.InsertByTimeAtTime` | src/components/Sidebar/Sidebar.tsx:221 | inserting puts the new history before the others of its time |
| `Sidebar.SortedByTimeIsStable` | src/components/Sidebar/Sidebar.tsx:221 | histories with equal times keep their earlier order |
| `Sidebar.HistoryList.constructor` | src/components/Sidebar/Sidebar.tsx:105-106 | no histories, nothing selected |
| `Sidebar.HistoryList.OnDropPaths` | src/components/Sidebar/Sidebar.tsx:115-129 | an empty drop changes nothing; otherwise one history per path is appended after the existing ones, in order, the first new one is selected and its path reported |
| `Sidebar.HistoryList.OpenFile` | src/components/Sidebar/Sidebar.tsx:137-150 | an undefined or empty dialog result changes nothing; otherwise exactly one history with the first path is appended and selected, and that path reported |
| `Sidebar.HistoryList.HandleHistory` | src/components/Sidebar/Sidebar.tsx:153-159 | `undefined` changes nothing; otherwise the history is selected, drawn as selected (`IsHighlighted`, the `selected` prop at line 232) and its path reported; the list is unchanged |
| `Sidebar.HistoryList.DeleteHistory` | src/components/Sidebar/Sidebar.tsx:161-164 | the list is empty and nothing is selected |
| `Sidebar.HistoryList.Shortcut` | src/components/Sidebar/Sidebar.tsx:167-171 | shortcut N (1 to 9) selects and reports `histories[N-1]`, or changes nothing when that index is past the end; the list is unchanged |
| `Sidebar.HistoryList.SortForDisplay` | src/components/Sidebar/Sidebar.tsx:220-221 | the list is replaced by its stable newest-first order, a permutation of the old list; the selection is unchanged |
| `App.HarPaths` | src/App.tsx:60-63 | at most as many paths as files dropped |
| `App.HarPathsConcat` | src/App.tsx:60-63 | the filter works file by file, so paths keep the files' order |
| `App.HarPathsMembers` | src/App.tsx:60-63 | a path is kept iff some dropped file with a case-insensitive `.har` name has it |
| `App.HarPathsAllHar` | src/App.tsx:60-63 | when every file is a `.har` file, the paths are all the files' paths in order |
| `App.HarNameExamples` | src/App.tsx:61 | `a.har` and `B.HAR` match; `har` and `a.har.json` do not |
| `App.Window.constructor` | src/App.tsx:42-44 | no path, no drop paths, no overlay |
| `App.Window.DragEnter` | src/App.tsx:47-49 | the overlay is shown; nothing else changes |
| `App.Window.DragLeave` | src/App.tsx:50-52 | the overlay is hidden; nothing else changes |
| `App.Window.Drop` | src/App.tsx:53-64 | the overlay is always hidden; an empty drop keeps the drop paths; otherwise they become the paths of the `.har` files |
| `App.Window.OnPath` | src/App.tsx:78 | the sidebar's reported path becomes the window's path |

## Left out

- Reading and parsing the file, the async load and its error box (src/lib/to-har.ts,
  src/components/Content/Content.tsx). The model starts from a parsed `Archive`.
  Overlapping loads and their order are not modelled.
- The open dialog, Mousetrap key binding, `uuid.v4()` and `Date.now()`. These are
  inputs to the sidebar methods.
- `prettyBytes`: the size label is the result of a formatter passed in.
- The `statuses` tooltip text.
- `prettier.format`, `JSON.parse` and the JSON tree viewer. The preview records which
  parser is applied to which text, and which text is handed to `JSON.parse`. What they
  produce, and a formatter or parser that throws, are not modelled.
- Timing of React renders. `Preview.View` renders from whatever flags the last
  effect left. The first render after the content changes still uses the previous
  content's flags. `SettledViewIsOneMode` is about the render after the effect.
- The Headers tab, the Detail pane's layout and tabs, the Filter buttons and the drop
  overlay: presentation only.
- `RequestTable.ProjectRowwise`: `entry.time` is a `real`, so the model has no NaN
  (missing time) and no IEEE rounding. `Math.floor` is `.Floor`.
- `Decimal.Digits`: `toString` is modelled for integers only, and without the
  exponent form JavaScript uses from 10^21 upwards. Statuses are integers.
- `PreviewPane.FlagsFor`: strings are sequences of Unicode scalar values, not
  UTF-16 code units. The tests only look at ASCII positions and at whether the
  next character is a line terminator, so this changes no answer.
- `Sidebar.HistoryList.Shortcut`: the method reads the list as it stands. In the app a
  render runs between any change to the list and a key press, and that render sorts the
  list (`SortForDisplay`). So shortcut N picks the N-th newest history. The model does
  not sequence renders, so it does not prove that step.
- The highlighted table row is the visible position `selectedKey`
  (`Table.IsHighlighted`). Changing the filter keeps the key. So the highlight can
  move to another row while the detail pane keeps the old `entry`. The model keeps
  this behaviour but states no lemma about it.
