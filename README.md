# Google Font Tester: a verified model of the widget core

Google Font Tester is an in-page widget for previewing web fonts on a live
page. The visitor searches and filters a font catalogue, scrolls a virtually
rendered list, and picks a font by click or keyboard. The widget then writes
`font-family`, `font-weight`, `font-size` and `line-height` on every element
a CSS selector matches. Each element's original values are remembered the
first time it is touched, and the reset button puts them back.

This project models that core in Dafny and proves its contracts:

- `basics.dfy`: `Option` and `IndexWhere` (`Array.prototype.findIndex`).
- `text.dfy`: ASCII lower-casing, trimming and substring search; decimal rendering of naturals.
- `catalogue.dfy`: the font catalogue and the filter engine (`getFilteredFonts`).
- `window.dfy`: the virtual-scroll window arithmetic, the rendered rows, the in-place highlight move and scroll-to-reveal.
- `styles.dfy`: inline styles as maps from property to declaration; the four `setProperty` calls of an apply; the first-touch snapshot map; the reset's restore.
- `export.dfy`: the status-line count text and the copy-CSS declarations.
- `session.dfy`: the widget itself. Class `FontTester` holds the module-level state of the script. Its methods are the handlers: `renderFonts`, `renderVisibleItems`, `updateSelection`, `loadFont`, `applyFont`, reset, click, keydown, `scrollToSelected`, the live controls and copy. The page is a `Page` object whose inline styles the widget updates in place, and `querySelectorAll` is an oracle on it.

`FontTester.Valid()` is the invariant every handler keeps. It says five things:
- the view is the filter's output for the current search text and category;
- the rendered rows are exactly the window of that view at the offset they were rendered for;
- every loaded family has had its stylesheet requested;
- the snapshot map is faithful to the page as it was before the first apply (`SnapshotsAgree` against the ghost `baseline`);
- the current font, when there is one, is a non-empty name, because `applyFont` ignores an empty name (google-font-tester.js:774).

The status line is kept as a `StatusLine` value, and `Export.StatusText` gives its text.

Two behaviours of the code shape the model:
- A failed stylesheet load removes the family from the loaded set (google-font-tester.js:766), so it can be requested again.
- `applyFont` loads the font and makes it current (google-font-tester.js:775-776) before it queries the selector. So an invalid selector still changes the current font.

## Model

| member | source | states |
|---|---|---|
| Basics.IndexWhere | google-font-tester.js:675-676 | `findIndex`: the first index whose entry satisfies the test, or -1 exactly when none does |
| Text.LowerCaseIdempotent | google-font-tester.js:642-644 | lower-casing an already lower-cased query or family changes nothing |
| Text.LowerCaseConcat | google-font-tester.js:642-644 | lower-casing works character by character: it distributes over concatenation |
| Text.Trim | google-font-tester.js:572 | no leading or trailing white space remains; the result is empty exactly when the text is all white space |
| Text.TrimCutsWhiteSpace | google-font-tester.js:572 | the trimmed text is a stretch of the input with only white space before and after it, and it neither starts nor ends with white space |
| Text.TrimKeepsInner | google-font-tester.js:572 | text that neither starts nor ends with white space is its own trim |
| Text.TrimIdempotent | google-font-tester.js:572 | trimming twice is trimming once |
| Text.ContainsAt | google-font-tester.js:644 | `includes` holds exactly when the needle occurs at some position |
| Text.ContainsEmpty | google-font-tester.js:644 | every family includes the empty query |
| Text.NatToString | google-font-tester.js:655-664 | the interpolated number is a non-empty digit string whose value is the number |
| Text.LeadingNumberOfNat | google-font-tester.js:655-664 | a number rendered in front of non-digit text is read back as that number |
| Catalogue.FilteredFontsExactly | google-font-tester.js:641-648 | an entry is in the view exactly when it is in the catalogue and matches the lower-cased query and the category, and the view keeps catalogue order |
| Catalogue.FilterBy | google-font-tester.js:641-648 | at most as long as the catalogue; every kept entry is a catalogue entry that matches the lower-cased query and the category (or the category is `all`) |
| Catalogue.FilterComplete | google-font-tester.js:641-648 | every matching catalogue entry is kept (with FilterBy: membership if and only if it matches) |
| Catalogue.FilterIsSubsequence | google-font-tester.js:641-648 | the view keeps the catalogue's relative order |
| Catalogue.FilterConcat | google-font-tester.js:641-648 | filtering a concatenation is the concatenation of the filtered parts (a stable filter) |
| Catalogue.FilterEverything | google-font-tester.js:641-648 | an empty query in category `all` gives the whole catalogue |
| Catalogue.FilterKeepsMatching | google-font-tester.js:641-648 | a list whose every entry matches passes through unchanged |
| Catalogue.FilterIdempotent | google-font-tester.js:641-648 | filtering the view again changes nothing |
| Catalogue.FindFamily | google-font-tester.js:675-676 | the first position of the family in the view, or -1 exactly when it is absent |
| Catalogue.ReselectAfterFilter | google-font-tester.js:674-676 | when a matching entry of the current family survives a filter change, re-resolution finds that family in the new view |
| Window.CeilDiv | google-font-tester.js:696 | `Math.ceil(a / b)`: the least `r` with `a <= r * b` |
| Window.ClampScroll | google-font-tester.js:682-683 | the browser's clamping: an allowed offset is left alone, a negative one becomes 0 and one past the maximum becomes the maximum |
| Window.WindowAt | google-font-tester.js:694-699 | `endIndex <= n`; a non-empty window has at most `ceil(h/52) + 10` rows; `startIndex <= endIndex` whenever `scrollTop <= n*52` |
| Window.WindowCoversVisibleRows | google-font-tester.js:694-699 | every row of the view that overlaps the visible pixel range is rendered |
| Window.WindowSpansViewport | google-font-tester.js:694-699 | the first rendered row starts at or above the offset; the last ends at or below the visible bottom unless the view runs out |
| Window.WindowNonEmpty | google-font-tester.js:694-699 | over a non-empty view at an allowed offset, at least one row is rendered |
| Window.RenderedRowsShape | google-font-tester.js:707-711 | the rows are the window's slice in order, each at `top = index*52` inside the `n*52` container; at most one is highlighted, and one is exactly when the selection lies in the window |
| Window.RenderedHighlight | google-font-tester.js:707-711 | in freshly rendered rows, a row is highlighted exactly when its index is the selection, and at most one row is |
| Window.MoveHighlight | google-font-tester.js:749-755 | the in-place highlight move keeps every row and its index, family and position; only the `selected` marks change |
| Window.MoveHighlightRerenders | google-font-tester.js:744-756 | removing the old highlight and marking `data-index = k` in place yields exactly the rows a full re-render with selection `k` would |
| Window.RevealTop | google-font-tester.js:876-885 | after scroll-to-reveal, the row is fully visible whenever the container is at least one row tall; a row already fully visible causes no scroll |
| Window.RevealWithinScrollRange | google-font-tester.js:874-886 | the revealing offset of a row in the view is one the browser allows |
| Styles.SetProperty | google-font-tester.js:800-803 | `setProperty` reads back the value written, carries the given priority and leaves every other property alone |
| Styles.Assign | google-font-tester.js:814-817 | a plain style assignment is `setProperty` without priority |
| Styles.Restore | google-font-tester.js:814-817 | after the four assignments the four font properties read back the stored values; no other property changes |
| Styles.SelectorText | google-font-tester.js:571-573 | never empty: the trimmed selector text when it is not blank, and `body` when it is |
| Styles.IsDecimalGrammar | google-font-tester.js:785 | `^\d+(\.\d+)?$` holds exactly for a non-empty run of digits, or two non-empty runs of digits joined by one point |
| Styles.IsDecimalExamples | google-font-tester.js:785 | the empty text, `1.`, `.5` and `1.2.3` are not bare decimals; `007` and `1.25` are |
| Styles.ParseSizeOnPage | google-font-tester.js:780-803 | a blank size field leaves the element's `font-size` as it was; otherwise `font-size` is set to the trimmed text (with `px` on a bare decimal) with the apply's priority |
| Styles.SizeValueIdempotent | google-font-tester.js:785 | a value that already carries `px` is not suffixed again |
| Styles.SizeValueExamples | google-font-tester.js:616 | `16` becomes `16px`, `1.2rem` stays `1.2rem` |
| Styles.WrittenProperties | google-font-tester.js:800-803 | an apply writes only the four font properties |
| Styles.StyleElementWrites | google-font-tester.js:800-803 | family, weight and line height are always written and size only when given, all with the one shared priority; every other property is untouched |
| Styles.StyleElementIdempotent | google-font-tester.js:800-803 | styling an element twice with the same values equals styling it once |
| Styles.ApplyEachStyleOf | google-font-tester.js:789-804 | after the `forEach`, a matched element is styled once (however often it is matched) and an unmatched one is unchanged |
| Styles.ApplyEachSnapshotOf | google-font-tester.js:792-799 | a snapshot is added only for a matched element that had none, holding its pre-apply values; an existing snapshot is never overwritten |
| Styles.ApplyEachStyleKeys | google-font-tester.js:789-804 | the elements with an inline style afterwards are those before plus the matched ones |
| Styles.ApplyEachSnapshotKeys | google-font-tester.js:792-799 | the elements with a snapshot afterwards are those before plus the matched ones |
| Styles.ApplyEachIdempotent | google-font-tester.js:789-804 | two identical consecutive applies leave the page and the snapshot map as one does |
| Styles.RestoreAll | google-font-tester.js:813-818 | after reset, every snapshotted element reads back its snapshot's four values and keeps every other property; every element without a snapshot is unchanged; the elements with an inline style are those that had one plus the snapshotted ones |
| Styles.ApplyKeepsSnapshotsAgree | google-font-tester.js:792-799 | an apply keeps the snapshot map faithful to the page before the first apply |
| Styles.ApplyCallsKeepAgree | google-font-tester.js:792-799 | any sequence of applies keeps the snapshot map faithful |
| Styles.RestoreAllRecoversBaseline | google-font-tester.js:812-819 | with faithful snapshots, reset gives every element its original four font properties, and never-touched elements are exactly as they were |
| Styles.ApplyCallsThenRestore | google-font-tester.js:812-819 | any number of applies from an empty snapshot map, then reset: every element reads back its original four font properties |
| Export.CountText | google-font-tester.js:655-664 | the whole fallback catalogue reads `API unavailable · M popular fonts`, the whole catalogue otherwise `M fonts`, and part of it `N of M fonts`; apart from the fallback wording the text reads back as the number shown |
| Export.CountTextFallbackWording | google-font-tester.js:655-664 | the text starts with `API` exactly when the fallback catalogue is shown in full |
| Export.StatusText | google-font-tester.js:666-667 | the status line reads `Current: ` followed by the font name exactly for a current-font status (line 805); otherwise it is the count text, `Invalid selector` (line 807) or `Nothing to copy` (line 624) |
| Export.PropertyName | google-font-tester.js:607-620 | each exported property is one of the four font properties |
| Export.CopyDecls | google-font-tester.js:605-621 | family, weight, size, line height, in that order, each at most once; nothing is exported exactly when no font is current, weight is `400`, size is blank and line height is `1.5` |
| Export.CopyDeclsExactly | google-font-tester.js:607-620 | each property is exported under its own condition with its own value: the quoted family with `sans-serif` when a font is current, the weight unless `400`, the trimmed size (with `px` on a bare decimal) unless blank, the line height unless `1.5`; nothing else is exported |
| Export.CopyDeclsMatchApplied | google-font-tester.js:607-620 | for the current font, each exported value is exactly what an apply with the same controls writes for that property |
| Export.CopyText | google-font-tester.js:623-631 | no clipboard text exactly when there are no declarations; otherwise one `name: value;` line per declaration, in export order, joined with newlines |
| Export.JoinLinesSnoc | google-font-tester.js:631 | `join('\n')` puts exactly one newline between consecutive lines |
| Export.CopyTextStartsWithFamily | google-font-tester.js:608-610 | with a font current, the clipboard text starts with `font-family: "name", sans-serif;` |
| Session.FontTester.constructor | google-font-tester.js:133-142 | after the first open: every control at its default and the selector blank, nothing loaded or snapshotted, no current font, selection -1, offset 0, the whole catalogue rendered from the top with no row previewed yet, and its count shown |
| Session.FontTester.LoadFont | google-font-tester.js:759-770 | the family is in the loaded set afterwards; a request is issued exactly when it was not already loaded |
| Session.FontTester.FontLoadFailed | google-font-tester.js:765-768 | a failed load removes exactly that family, so a later load requests it again |
| Session.FontTester.RenderVisibleItems | google-font-tester.js:690-711 | with list content, the rows become the window at the current offset and no row has been previewed yet; without it nothing changes |
| Session.FontTester.RenderFonts | google-font-tester.js:651-687 | the view is recomputed; the count is shown unless a font is current; an empty view shows no rows at offset 0 and keeps the stale index; otherwise the index is re-resolved from the current font (-1 without one) and the window is rendered at the clamped offset; either way no row has been previewed yet |
| Session.FontTester.ShowPlaceholder | google-font-tester.js:669-672 | an empty view shows no rows at offset 0 and no row has been previewed |
| Session.FontTester.RenderMatches | google-font-tester.js:674-686 | the index is the current font's first position in the view (-1 without a current font); the rows are the window at the clamped offset; no row has been previewed yet |
| Session.FontTester.PatchHighlight | google-font-tester.js:749-755 | the selection becomes `k` and the rows are the in-place highlight move, keeping the invariant |
| Session.FontTester.UpdateSelection | google-font-tester.js:744-756 | with list content the selection becomes `k`; the rows are the re-render with that selection and exactly the row with index `k` is highlighted; without content nothing changes |
| Session.FontTester.ApplyFont | google-font-tester.js:773-809 | no font (or an empty name) changes nothing; otherwise the font is loaded and current, and either the matched elements are snapshotted-once and styled (status `Current: name`) or, for an invalid selector, the status says so and no element changes |
| Session.FontTester.LoadAndSelect | google-font-tester.js:775-776 | the font is in the loaded set, requested only when it was not loaded yet, and is current |
| Session.FontTester.StyleTargets | google-font-tester.js:778-808 | the `try` block: the matched elements are styled and the font named, or an invalid selector is reported with the page untouched |
| Session.FontTester.StyleMatches | google-font-tester.js:789-804 | the loop leaves page and snapshot map equal to the `forEach` fold and keeps the snapshots faithful |
| Session.FontTester.Reset | google-font-tester.js:812-833 | every snapshotted element is restored, each element's four font properties are back at their baseline, the map is empty, no font is current, the highlight clears and the count is shown |
| Session.FontTester.RestoreStyles | google-font-tester.js:813-820 | every snapshotted element is restored, each element's four font properties are back at their baseline, the map is empty and no font is current |
| Session.FontTester.RestoreOriginals | google-font-tester.js:813-818 | the loop over the map leaves the page equal to the pointwise restore |
| Session.FontTester.Search | google-font-tester.js:847-850 | the view is the filter for the new text and the current font is kept; the count is shown unless a font is current; an empty view shows no rows at offset 0 and keeps the index; otherwise the index is re-resolved and the window is rendered at the clamped offset; no row has been previewed yet |
| Session.FontTester.SelectCategory | google-font-tester.js:899-906 | the view is the filter for the new category and the current font is kept; the count is shown unless a font is current; an empty view shows no rows at offset 0 and keeps the index; otherwise the index is re-resolved and the window is rendered at the clamped offset; no row has been previewed yet |
| Session.FontTester.Scroll | google-font-tester.js:844 | a scroll to an allowed offset re-renders the window there with no row previewed yet; without list content the rows stay as they were |
| Session.FontTester.RowBecameVisible | google-font-tester.js:724-736 | the first signal for a rendered row adds its family to the loaded set and requests it when it was not loaded yet; a repeat signal does nothing |
| Session.FontTester.ClickRow | google-font-tester.js:836-841 | the clicked row becomes the selection and its family is applied and loaded |
| Session.FontTester.ScrollToSelected | google-font-tester.js:874-886 | no selection leaves the offset; otherwise the offset is the reveal offset, the row is then fully visible when it fits, and an already visible row causes no scroll |
| Session.FontTester.KeyDown | google-font-tester.js:854-871 | an empty view, other keys and Enter without a highlight change nothing; the arrows move the index by one, clamped to `[0, n-1]`, and reveal it, with status, fonts, loads and page unchanged; Enter applies the highlighted entry only when the index is not -1 |
| Session.FontTester.MoveSelection | google-font-tester.js:857-866 | an arrow's step: the index becomes `k` and the offset is the reveal offset of row `k` |
| Session.FontTester.SetWeight | google-font-tester.js:894 | the weight changes. With no current font nothing else changes: page, snapshots, status and loads. With a current font, it is loaded again (a request only if it had left the loaded set), and either the page and snapshot map are the apply of the current font with the new controls and the status names the font, or, for an invalid selector, the page is untouched and the status says so |
| Session.FontTester.SetSize | google-font-tester.js:895 | the size text changes. With no current font nothing else changes: page, snapshots, status and loads. With a current font, it is loaded again (a request only if it had left the loaded set), and either the page and snapshot map are the apply of the current font with the new controls and the status names the font, or, for an invalid selector, the page is untouched and the status says so |
| Session.FontTester.SetLineHeight | google-font-tester.js:889-892 | the line height changes. With no current font nothing else changes: page, snapshots, status and loads. With a current font, it is loaded again (a request only if it had left the loaded set), and either the page and snapshot map are the apply of the current font with the new controls and the status names the font, or, for an invalid selector, the page is untouched and the status says so |
| Session.FontTester.SetImportant | google-font-tester.js:896 | the priority flag changes. With no current font nothing else changes: page, snapshots, status and loads. With a current font, it is loaded again (a request only if it had left the loaded set), and either the page and snapshot map are the apply of the current font with the new controls and the status names the font, or, for an invalid selector, the page is untouched and the status says so |
| Session.FontTester.SetSelector | google-font-tester.js:778 | the selector text is read by the next apply only |
| Session.FontTester.CopyCss | google-font-tester.js:602-631 | the clipboard text is the export of the controls; with nothing to export the status says `Nothing to copy` |

## Left out

- The catalogue fetch and its JSON mapping are not modelled. The catalogue and the fallback flag are constructor inputs.
- Panel open and close, focus, the injected CSS and HTML, and DOM-ready bootstrap are not modelled. The constructor is the state after the panel first opens, when `renderFonts` has run once.
- The stylesheet `<link>` element and the network are not modelled. A request is an entry in `requests`. Its asynchronous failure is the explicit step `FontLoadFailed`, and the console warning is dropped.
- The IntersectionObserver is reduced to `RowBecameVisible`: the first visibility signal for a rendered row loads its family. The preview element's own inline font is not modelled.
- Clipboard writing, the "Copied to clipboard!" message and the `setTimeout` that restores the status line are timers and promises, so they are not modelled.
- The 150 ms search debounce is collapsed: `Search` is the moment the timer fires.
- The page's default font (`getComputedStyle`) only appears in the status line before the first render and when the copy button's timer restores it. Neither is modelled, so the default font is not part of the model.
- CSS selector parsing and matching is an oracle: `Page.select` gives the matched elements in document order, or none for a malformed selector.
- Lower-casing and trimming are ASCII-only, not Unicode.
- The browser normalises values written to `style` (for example `1.50` or colour forms). Values are kept as the strings written.
- Styles.SetProperty: the browser ignores a declaration it cannot parse, but the model stores every value written. Examples are a negative line height from the slider, whose minimum is -0.5 (google-font-tester.js:526), and size text such as `abc`, which is written verbatim (google-font-tester.js:785). So `StyleElementWrites`, `RestoreAll` and `CopyDeclsMatchApplied` are about the strings written, not about what the page then shows.
- The list container's height is the constant `clientHeight`. In the page it follows the viewport (`calc(100vh - 40px)`, google-font-tester.js:192, with a 0.2 s transition, line 185), and `renderVisibleItems` re-reads it on every render (google-font-tester.js:695). There is no resize listener, so the rows shown after a window resize, before the next scroll or filter change, are not modelled.
- Restoring does not preserve an original `!important` priority, because reset uses plain assignments.
- Setting `scrollTop` in `scrollToSelected` fires a scroll event. That event is not dispatched automatically: the environment calls `Scroll` with the new offset.
- The empty-view placeholder is taken to fit in the container, so the browser clamps the offset to 0.
- Scroll offsets are whole pixels.
- The HTML templating and escaping of family names in `innerHTML` is not modelled. A row carries its family as a value.
- Session.FontTester.ClickRow: the contract states the selection, the current font and the load. What the apply does to the page is stated once, in `ApplyFont`'s contract, and is not repeated here.
- Session.FontTester.KeyDown: on Enter the contract states the current font. What the apply does to the page is stated in `ApplyFont`'s contract.
- Session.FontTester.RowBecameVisible: the preview's inline `font-family` is not modelled.
