# 한글MD print and document core, in Dafny

This project models three pure cores of the 한글MD Markdown editor:

- **Print engine** (`src/utils/printUtils.ts`):
  - `replaceAllLiteral` does replace-all by split and join.
  - `substituteTokens` fills in `{page}` and `{pages}` in header and footer templates. It protects the escapes `\{page\}` and `\{pages\}` with sentinel strings first.
  - `buildHeaderFooterRowHtml` builds the three-cell header/footer row.
  - `splitAtPageBreaks` cuts the editor HTML at every page break (an `hr` with class `page-break-node`).
  - The page loop of `preparePrintDOM` numbers the pages and adds a header and footer to each. With "exclude first page" set, the first page gets neither.
- **Print settings** (`src/utils/types.ts`): the six header/footer cells and the exclude-first-page flag. This covers the default value, the default test, and the mapping to and from YAML front matter.
- **Document state** (`src/App.tsx`): path, saved content, dirty flag, file name and settings. The handlers that change it are editing, a settings change, save, save-as, the unsaved-changes check, new and open.

Modules:

- `Text`:
  - literal replace-all;
  - split and join;
  - a left-to-right scan as the reference definition;
  - JavaScript's `String(n)` for integers of magnitude below 2^53, where it gives plain decimal digits.
- `Tokens`: token substitution as the source writes it. The meaning of a substitution is stated over a small template grammar (`Piece`): literal text, `{page}`, `{pages}` and the two escapes. The main theorem `SubstituteTemplate` shows that the six passes turn each piece into its meaning.
- `Rows`: the header/footer row builder, which runs each cell through the six passes as the source does.
- `Scan`: the substitution the six passes are meant to compute, written as one left-to-right scan (`ScanTokens`), and a row built with it (`ScanRow`). It is the corrected half of the finding under "Findings"; the printing pipeline does not use it.
- `Pagination`:
  - the editor HTML as a sequence of top-level nodes (`Block`);
  - the splitter, written as the source's walk over the break list;
  - a reference segmentation. Any break-free segmentation that glues back to the document is the reference one.
- `Printing`: the page loop. A page records the page number and total that its header and footer are built from. `Header` and `Footer` render those rows.
- `Settings`: the `PrintSettings` record and its YAML map.
- `Document`: the state record and its handlers. Everything a handler learns from outside is a parameter:
  - the dialog reply;
  - the result of a write;
  - the path the save dialog returned;
  - the file the open dialog read.

  The front-matter library is a parameter too, as a pair of functions (`FrontMatter`). The editor is represented by the Markdown its body serialises to.

The six passes hide each escape behind sentinel text and put it back with a replace-all of that text. Literal text that ends in most of a sentinel completes it with the sentinel's own underscores. `Tokens.SentinelCollision` shows such a template, which contains neither sentinel: `__HANGEULMD_ESC_PAGE\{page\}` prints as `{page}HANGEULMD_ESC_PAGE__`. The escape moves to the front, and a header or footer cell holding that text prints it so. The scan in `Scan` gives each piece its meaning also for templates that contain `_` (`Scan.ScanTemplate`). It agrees with the six passes on templates without `_` (`Scan.AgreeOnTemplates`).

## Model

| member | source | states |
|---|---|---|
| Text.ReplaceAllLiteral | src/utils/printUtils.ts:13-16 | An empty needle, or one absent from the haystack, leaves the haystack unchanged. Any other needle gives exactly the left-to-right, non-overlapping replacement of every occurrence (`ReplaceEach`). |
| Text.SplitJoinIsReplaceEach | src/utils/printUtils.ts:15 | Splitting on the needle and joining with the value is the left-to-right scan replacement. |
| Text.SplitReassembles | src/utils/printUtils.ts:15 | Joining the split parts with the needle gives back the haystack, so the split loses nothing. |
| Text.Decimal | src/utils/printUtils.ts:30-31 | `String(n)` of an integer below 2^53 in magnitude is a non-empty numeral. It starts with `-` exactly when the number is negative, and every later character is a digit. The digits read back as the number, or as its negation after the `-`. There is no leading zero, neither at the start nor after the `-`, except in `0` itself. |
| Text.DecimalRoundTrip | src/utils/printUtils.ts:30-31 | The digits of a natural number read back as that number. |
| Tokens.SubstituteTokens | src/utils/printUtils.ts:18-23 | A null template is treated as the empty string. |
| Tokens.SubstituteTemplate | src/utils/printUtils.ts:18-38 | For any template, the result has every `{pages}` replaced by the total and every `{page}` by the page number. Each escaped token comes out as the literal token, and literal text is kept, all in order. |
| Tokens.PlainTextUnchanged | src/utils/printUtils.ts:23-37 | Text with no `{` and neither sentinel is returned unchanged. |
| Tokens.CountExample | src/utils/printUtils.ts:29-31 | `{pages} of {page}` on page 3 of 10 is `10 of 3`. |
| Tokens.EscapeExample | src/utils/printUtils.ts:26-35 | `\{page\} literal, {page} real` on page 5 of 9 is `{page} literal, 5 real`. |
| Tokens.SentinelCollision | src/utils/printUtils.ts:10-35 | A template that contains neither sentinel can still lose its escape. Literal text ending in ESC_PAGE minus its final `__` captures the sentinel's underscores. |
| Scan.ScanTemplate | src/utils/printUtils.ts:18-38 | The corrected substitution. On any template whose literal text has no `\` or `{`, with `_` allowed, the scan turns every piece into its meaning, in order. |
| Scan.AgreeOnTemplates | src/utils/printUtils.ts:18-38 | On templates whose literal text has no `_` either, the six passes and the scan give the same text. |
| Scan.CollisionScanned | src/utils/printUtils.ts:10-35 | The scan keeps the collision template's escape where it was written: `__HANGEULMD_ESC_PAGE\{page\}` becomes `__HANGEULMD_ESC_PAGE{page}`. |
| Scan.CollisionDiffers | src/utils/printUtils.ts:10-35 | On the collision template, the six passes and the scan give different text. |
| Scan.ScanRowOfTemplates | src/utils/printUtils.ts:42-54 | The corrected row holds each cell's meaning, also for cells with literal `_`. On cells without `_` it is the row `buildHeaderFooterRowHtml` builds. |
| Rows.RowOfTemplates | src/utils/printUtils.ts:42-54 | `buildHeaderFooterRowHtml`: the row is `<div>L</div><div>C</div><div>R</div>`, each cell its own template after the six passes. Each cell is its template's meaning, so the cells do not interact. |
| Rows.EmptyRow | src/utils/printUtils.ts:49-53 | Three empty cells give `<div></div><div></div><div></div>` on any page. |
| Pagination.BreakPositions | src/utils/printUtils.ts:62 | The break list is in document order, every entry is a break, and every break is listed. |
| Pagination.SplitAtPageBreaks | src/utils/printUtils.ts:58-104 | There is one segment more than there are breaks. The segments are the reference segmentation, serialised. With no break, the only segment is the whole document. |
| Pagination.SegmentsSound | src/utils/printUtils.ts:77-101 | No segment holds a break. There is one segment more than there are breaks. Putting one break between neighbouring segments rebuilds the document. |
| Pagination.GlueUnique | src/utils/printUtils.ts:77-101 | Two break-free segmentations that rebuild the same document are equal. |
| Pagination.SegmentationIsSegments | src/utils/printUtils.ts:77-101 | Any break-free segmentation that rebuilds the document is the reference segmentation. |
| Pagination.SegmentsAtBreak | src/utils/printUtils.ts:77-101 | The segments of `a`, a break, then `b` are the segments of `a` followed by those of `b`. |
| Pagination.EmptySegments | src/utils/printUtils.ts:58-104 | The empty document gives one empty page, `[""]`. A leading, trailing or doubled break gives an empty segment. |
| Pagination.PagesRejoin | src/utils/printUtils.ts:58-104 | Joining the page HTML strings with the break markup gives back the serialised document. |
| Printing.NumberedLayout | src/utils/printUtils.ts:124-134 | When only a skipped first page lacks chrome, the number of pages with chrome is the page count, less one when the first page is excluded. |
| Printing.PageNumbersCount | src/utils/printUtils.ts:108-110 | `computePageNumber`: on every page with chrome, the number equals the page's position among the pages with chrome, so it lies in 1..total. |
| Printing.TotalPrintableCounts | src/utils/printUtils.ts:124-127 | `totalPrintablePages` equals how many pages have chrome: all pages, less the first when it is excluded and there is one. |
| Printing.LaidOut | src/utils/printUtils.ts:130-169 | Pages built one per segment carry the segment as body. Chrome is missing exactly on a skipped first page. Each chrome's number and total are the page's position among the pages with chrome and their count. |
| Printing.PreparePrintPages | src/utils/printUtils.ts:121-169 | There is one page per segment, in order, with the segment's HTML as body. Header and footer are absent together, exactly on the first page when it is excluded. Every other page is numbered by its position among the pages with chrome and shows their count as the total. |
| Printing.HeaderText | src/utils/printUtils.ts:137-148 | A page with chrome has a header. It is the row of the three header cells after the six passes, each cell showing its template's meaning for the page's number and total. |
| Printing.FooterText | src/utils/printUtils.ts:155-166 | The same for the footer and the three footer cells. |
| Printing.DefaultRows | src/utils/types.ts:26-34 | Under `DEFAULT_PRINT_SETTINGS`, every page with chrome has the header and footer `<div></div><div></div><div></div>`, whatever its number. |
| Settings.IsDefault | src/utils/types.ts:36-46 | The test holds exactly for `DEFAULT_PRINT_SETTINGS`: all six cells empty and the flag false. |
| Settings.ToYaml | src/utils/types.ts:48-58 | Exactly the seven snake_case keys are written, the six cells as strings and the flag as a boolean. |
| Settings.FromYaml | src/utils/types.ts:60-70 | An empty map reads as the default settings. |
| Settings.FromYamlPerKey | src/utils/types.ts:60-70 | Each setting is read from its own key. A string entry (a boolean one for the flag) is taken as it is. A missing or null entry gives the default: the empty string, or `false`. |
| Settings.YamlRoundTrip | src/utils/types.ts:48-70 | Reading back the YAML written for any settings gives those settings, and that YAML is well typed. |
| Settings.NullIsMissing | src/utils/types.ts:60-70 | A null entry reads exactly like a missing one. |
| Settings.KeyLocality | src/utils/types.ts:60-70 | Changing one key's entry changes at most the one setting read from that key. |
| Settings.ForeignKeysIgnored | src/utils/types.ts:60-70 | Keys other than the seven setting keys do not affect the settings read. |
| Settings.YamlKeepsEntries | src/utils/types.ts:48-70 | Reading a well-typed map and writing it back keeps every present, non-null setting entry. |
| Settings.DefaultYaml | src/utils/types.ts:26-70 | The defaults' YAML, and an empty map, both read as default settings. |
| Document.LastComponent | src/App.tsx:97 | The last path component is the longest suffix free of `/` and `\`. |
| Document.FileNameOf | src/App.tsx:176 | The file name is never empty and never contains a separator. |
| Document.FileNameOfJoin | src/App.tsx:97 | The name of `dir` + separator + `name` is `name`, for any `dir`. |
| Document.FileNameOfDirectory | src/App.tsx:176 | An empty path, or one ending in a separator, gives `DEFAULT_FILE_NAME`. |
| Document.EditorUpdate | src/App.tsx:68-75 | An edit leaves the document dirty and changes nothing else. |
| Document.EditorUpdateIdempotent | src/App.tsx:68-75 | A second edit changes nothing. The update returns the state unchanged exactly when it was already dirty. |
| Document.SettingsChange | src/App.tsx:196-202 | The new settings are kept and the document is dirty. Path, saved content and file name are unchanged. |
| Document.DefaultDocStateClean | src/App.tsx:25-31 | `DEFAULT_DOC_STATE` has no path, is clean and has default settings. Its file name is the one an empty path gets. Its saved content is what an empty editor would write. |
| Document.CurrentContent | src/App.tsx:78-88 | With no editor, the content is the empty string. With default settings it is the bare Markdown. With any other settings it is the Markdown under front matter holding those settings' YAML. |
| Document.SaveAs | src/App.tsx:92-108 | Success holds exactly when the dialog returned a non-empty path. On failure nothing changes. On success the state holds that path, the written content, a clean flag and the path's file name, and the settings are unchanged. |
| Document.Save | src/App.tsx:110-127 | With an existing path, the save succeeds exactly when the write does, and keeps the path and file name. Without one, it is exactly save-as. A failed save changes nothing. A successful one leaves a clean document with a path, whose saved content is what was written. |
| Document.UnsavedCheck | src/App.tsx:130-140 | A clean document passes without change. On a dirty document, `cancel` fails and `save` gives exactly the result of a save. Any other reply passes without change. A failed check changes nothing. |
| Document.New | src/App.tsx:142-154 | When the check fails, nothing changes. Otherwise the state is exactly `DEFAULT_DOC_STATE` and an existing editor is emptied. |
| Document.Open | src/App.tsx:156-185 | When the check fails, no file was read or there is no editor, the state is the one the check left. Otherwise the editor holds the file's body and the path is set. The saved content is the raw file text and the document is clean. The settings are the defaults when the front matter is empty, and are read from it otherwise. |
| Document.SaveThenOpen | src/App.tsx:78-185 | Opening the text just saved brings back the same body and settings, provided the front-matter codec reads back what it wrote. |
| Document.SavedMatchesKept | src/App.tsx:68-202 | Save, save-as, the unsaved check, new, edits and settings changes all keep an invariant: a clean document's saved content is the text a save would write now. After an edit this holds whatever text the editor now has. |

## Left out

- **DOM mechanics.** Creating elements, `innerHTML` parsing, `Range.cloneContents`, `window.print()` and the `afterprint` clean-up (printUtils.ts:59-72, 116-118, 171-184) are not modelled. The document is the sequence of its top-level nodes, and a node's HTML is kept as given.
- Pagination.BreakPositions: only top-level page breaks are found. `querySelectorAll` would also find a break nested inside another node, and the model does not represent nesting.
- Pagination.SplitAtPageBreaks: the `[""]` branch for a root with breaks but no first child (printUtils.ts:75) cannot be reached when breaks are top-level nodes, so it has no counterpart.
- Printing.PreparePrintPages: a page records the page number and total its rows are built from. `Header` and `Footer` render the row markup from them, instead of the loop storing the strings.
- Text.Decimal: `String(n)` is modelled for integers only, as exact decimal digits. JavaScript rounds integers above 2^53 and writes magnitudes of 1e21 and more in exponential form (`"1e+21"`); neither is modelled. Fractional, non-finite and such large numbers never reach it here, because page numbers are segment indices and page counts.
- Tokens.SubstituteTemplate: it is stated for templates whose literal text has no `\`, `{` or `_`. Only `_` lets literal text complete a sentinel (`Tokens.SentinelCollision`). `{` is banned because literal text could spell `{page}` itself, and then the text would not determine its pieces. `\` is banned with it, which is more than needed.
- Rows.RowOfTemplates, Printing.HeaderText, Printing.FooterText: stated for cells whose literal text has no `\`, `{` or `_`, the templates of `Tokens.SubstituteTemplate`. A cell with `_` can complete a sentinel and print its escape in the wrong place (see "Findings").
- Settings.FromYaml: the source's `as string` / `as boolean` casts are unchecked, so a number, list or wrong-typed value would pass through unchanged. The model's settings are typed, so it reads such an entry as missing. Round trips are stated for well-typed maps.
- **YAML front matter syntax.** gray-matter's `stringify` and parse are a library the model cannot see. `Document.FrontMatter` takes them as a pair of functions. `Document.SaveThenOpen` assumes, as a precondition, that they read back what they wrote.
- **Markdown conversion.** tiptap-markdown and App.tsx:40-52 are not modelled. The editor is its Markdown body, and opening a file loads the parsed body into it as is.
- **Dialogs and I/O.** Dialogs and file reads/writes (tauriCommands.ts, commands.rs) are parameters. The dialog reply is any string. The Rust dialog never answers `discard`, and the browser fallback never answers `cancel`, but the handler accepts all replies. A write that throws instead of returning false is not modelled.
- **React scheduling.** `setDocState` updates and stale closures are not modelled: each handler reads and writes one state value in sequence.
- **HTML sanitisation.** Cell text goes into the row markup unescaped, as in the source.
- **Other code.** UI components, editor wiring, the cover-page helper, console logging and window controls are outside this model.

## Findings

| source | as written | input that shows it | evidently intended | confidence | as-written member | corrected member |
|---|---|---|---|---|---|---|
| src/utils/printUtils.ts:10-35 | Escapes are hidden behind sentinel text and put back by a replace-all of that text. Literal text can complete a sentinel. | The template `__HANGEULMD_ESC_PAGE\{page\}`, on any page, prints `{page}HANGEULMD_ESC_PAGE__`. | `__HANGEULMD_ESC_PAGE{page}`: the escape becomes the literal token where it was written, and the literal text is kept. | not executed | Tokens.SentinelCollision | Scan.ScanTemplate |
