# Ticket scraper to spreadsheet: a Dafny model

The scraper reads a web page of event tickets and turns it into spreadsheet
rows. It then builds the batch of formatting requests that styles those rows.
The repository has two variants of the same pipeline:

- `index.js` drives a headless browser. Its `parseContent` queries the
  rendered page. It looks for `div.tickets` containers and falls back to
  `div.ticket-container`. Each container's title is the trimmed text of
  its first `h3` when that is not empty, otherwise the trimmed text of its
  first `h2`, otherwise "". Its items are `.ticket-row` elements when there are
  any, otherwise `.find-ticket-items`.
- `main.js` parses static HTML. Its `parseContent` visits every scoped `h3`
  and climbs to the heading's closest `div.tickets`. Inside that section it
  pairs the j-th `h4` with the j-th `p` and the j-th `a`.

Both variants produce the same table layout:

1. A title row `[pageTitle, link, ""]`, then a blank row.
2. For each section:
   - a header row `[title, "Date", "Link"]`;
   - one row `[heading, detail, =HYPERLINK("href", "Click here")]` per item;
   - a blank row.

`formatSheet` then plans the requests in this order:

1. A style for the whole range.
2. In `index.js` only, an auto-resize of columns A–C.
3. A bold style for each header row, meaning a row whose second and third
   cells are `"Date"` and `"Link"`.
4. A border for each row that is not blank.

The two `parseContent`s find their sections and items differently: the
browser variant uses selector fallbacks, and the static variant zips the
`h4`, `p` and `a` of each `h3`'s section by position. They also differ in
the page title, which `index.js` takes as is and `main.js` trims. Their table
layout and their request planning differ only in constants. So the model
shares one layout (`Rows`) and one request planner (`Formatting`) between
them. Each variant module (`Browser` for `index.js`, `Static` for `main.js`)
supplies its own query model and a `Style` holding its constants.

**How the loops are modelled.** The loops of the source are methods with
`while` loops:

- `Browser.ParseContent` / `Browser.PushSection`;
- `Static.ParseContent` / `Static.PushHeading` / `Static.PushItems`;
- `Formatting.BuildRequests` / `PushHeaderStyles` / `PushBorders`.

Each of these methods is proved equal to a specification function:
`Rows.Layout`, `Rows.Block`, `Rows.ItemRows`, `Formatting.Plan`, or, for the
two request loops, the list before the loop followed by
`Formatting.HeaderStyles` or `Formatting.Borders`. The
lemmas then prove what those functions promise. The main result is that
header detection in `formatSheet`, applied to a table that `parseContent`
built, finds exactly the rows where `parseContent` put its section headers
(`Formatting.LayoutHeaders`).

**How the page is modelled.** The page and the document are abstract. Each
datatype holds the results of the queries that `parseContent` runs: an
`Option` for `querySelector`, a sequence for `querySelectorAll` or cheerio's
`find`. `String.prototype.trim` is modelled by `Text.Trim`, which uses the
ECMA-262 whitespace and line-terminator set.

## Model

| member | source | states |
|---|---|---|
| Text.TrimSpec | index.js:207-208 | `trim()` leaves neither leading nor trailing whitespace and never lengthens the string. It returns "" exactly when the string is all whitespace. |
| Text.TrimIsInfix | main.js:139-140 | The trimmed text is one contiguous piece of the original, and everything cut off on either side is whitespace. |
| Text.TrimIdempotent | main.js:128 | Trimming an already trimmed cell changes nothing. |
| Rows.LinkCellShape | index.js:209-211 | The link cell is "" exactly when there is no href. Otherwise it is a formula starting with `=`. |
| Rows.ParseLinkCell | index.js:211 | Reading an href back out of a link cell: when it succeeds, prefix + href + suffix make up the whole cell. |
| Rows.LinkCellRoundTrip | main.js:141-142 | The `=HYPERLINK("…", "Click here")` cell gives back exactly the href it was built from. Without an href the cell is not a formula. |
| Rows.LayoutLength | index.js:220-224 | The table has 2 + Σ(2 + item count) rows, so a section without items still takes a header row and a blank row. |
| Rows.LayoutStart | index.js:173-175 | The table opens with `[pageTitle, link, ""]` and then a blank row. |
| Rows.BlockAt | index.js:220-224 | Section k's header, its items in order and its blank row occupy rows HeaderPositions[k] onwards, in section order. |
| Rows.LayoutCells | index.js:171-228 | Every row of the table has exactly three cells. |
| Formatting.BlankIffWhitespace | index.js:311 | A row is blank exactly when each of its cells is empty or whitespace only. |
| Formatting.ColCount | index.js:234 | The column count is absent exactly when there are no rows (`Math.max()` of nothing). |
| Formatting.ColCountIsMax | index.js:234 | The column count is the length of a row and at least the length of every row. |
| Formatting.HeaderRowsExact | index.js:239-250 | Header detection lists, strictly ascending, exactly the row indices whose cells 1 and 2 are "Date" and "Link". |
| Formatting.NonBlankRowsExact | index.js:310-312 | The bordered rows are, strictly ascending, exactly the rows that are not blank. |
| Formatting.HeaderRowsAppend | index.js:239-250 | Header detection on two tables put end to end gives the first table's headers, then the second's shifted by the first table's length. |
| Formatting.Lead | index.js:253-283 | Before the header styles come one request, or two when the variant auto-resizes. |
| Formatting.BuildRequests | index.js:236-355 | The request list pushed step by step equals the plan: whole range, optional auto-resize, header styles, borders. |
| Formatting.PushHeaderStyles | index.js:286-307 | The header loop appends one header-style request per detected header row, in order, and nothing else. |
| Formatting.PushBorders | index.js:310-355 | The border loop appends one border request per non-blank row, in row order, and skips blank rows. |
| Formatting.HeaderStylesAt | index.js:286-307 | The k-th header-style request styles the k-th header row across all columns. |
| Formatting.BordersAt | main.js:217-262 | The k-th border request borders the k-th non-blank row across all columns. |
| Formatting.PlanHead | index.js:253-283 | The plan has (1 or 2) + headers + non-blank rows requests. The first styles rows 0..rowCount by 0..colCount, and the second is the auto-resize of columns 0..3 when the variant has one. |
| Formatting.PlanHeaderStyle | index.js:286-307 | Right after the lead, the plan styles the header rows in ascending order. |
| Formatting.PlanBorder | index.js:310-355 | After the header styles, the plan borders the non-blank rows in ascending order. |
| Formatting.OnlyBordersBorder | main.js:176-262 | Every border request in the plan is the border of some non-blank row. |
| Formatting.BorderOnlyIfNonBlank | main.js:218-219 | A row that receives a border request is not blank. |
| Formatting.NonBlankGetsBorder | main.js:217-221 | Every row that is not blank receives a border request. |
| Formatting.BordersExactlyNonBlank | index.js:310-314 | A row receives a border request if and only if it is not blank. |
| Formatting.HeaderIsNotBlank | index.js:241-243 | A header row is never blank, since its "Date" cell is not whitespace. |
| Formatting.HeadersStyledAndBordered | index.js:286-355 | Every header row receives both its header style and a border. |
| Formatting.AllBlankPlan | main.js:217-219 | A table of blank rows has no header rows and no bordered rows, so the plan is just its lead. |
| Formatting.ItemRowsHaveNoHeader | index.js:239-250 | Item rows that do not look like headers contribute no header index. |
| Formatting.BlockHeaders | index.js:220-224 | When none of its item rows looks like a header row, a section block has exactly one header row, its first. |
| Formatting.LayoutHeaders | index.js:220-224 | When no item row looks like a header row (`NoHeaderItems`), header detection on the built table returns exactly the positions at which the section header rows were pushed. Both `ParseContent`s establish that condition, through `Browser.ExtractedHaveNoHeaderItems` and `Static.SectionsHaveNoHeaderItems`. |
| Formatting.LayoutWidth | index.js:234 | The column count of every built table is 3. |
| Formatting.AutoResizeOnlyIfStyled | index.js:274-283 | The plan holds an auto-resize request only in a variant that auto-resizes, and then exactly one, in second place. |
| Browser.SectionTitle | index.js:197-198 | The section title is the trimmed `h3` text when that is not empty, otherwise the trimmed `h2` text. It is "" exactly when neither heading has non-whitespace text. |
| Browser.NormalizeItemCells | index.js:206-212 | The text cells are the trimmed `innerText` of the item's `h4` and `p`, and "" for a missing element. The link cell is "" exactly without an href and otherwise gives the href back. An item row is never a header row. |
| Browser.ExtractSectionSpec | index.js:196-216 | A container yields one item per `.ticket-row` element when it has any, otherwise one per `.find-ticket-items` element, in order. The title is the trimmed `h3` text when that is not empty, otherwise the trimmed `h2` text, and "" exactly when neither has text. Item text cells are the trimmed text of their element's `h4` and `p`, and "" for a missing one. Each link cell is "" exactly when its element has no href and otherwise gives the href back, and no item row is a header row. |
| Browser.ExtractSectionsSpec | index.js:179-217 | There is one section per `div.tickets` element when any match, otherwise one per `div.ticket-container` element, in document order. No item row of any section passes for a header row. |
| Browser.ExtractedHaveNoHeaderItems | index.js:206-212 | No extracted item row can pass for a header row. |
| Browser.ParseContent | index.js:171-228 | The rows are the layout of the extracted sections, with 2 + Σ(2 + items) rows and 3 columns. Header detection finds exactly the section header rows. |
| Browser.PushSection | index.js:220-224 | One section appends its header row, its items in order and a blank row. |
| Browser.FormatSheet | index.js:230-361 | The requests are the plan with this variant's constants. There are 2 + headers + non-blank rows of them, starting with the whole-range style and the auto-resize of columns 0..3. |
| Static.PairItemCells | main.js:138-144 | The j-th item's heading is the trimmed j-th `h4` text. Its detail is the trimmed j-th `p` text, and its link is built from the j-th `a`'s href, paired by position. A `p` or `a` index past its list gives "". The href round-trips, and the row is never a header row. |
| Static.PairedPrefixAt | main.js:136-145 | A section has one item per `h4`, and the j-th item is built from position j. |
| Static.SectionsAt | main.js:131-148 | There is one section per scoped `h3`, in document order, and the k-th is built from the k-th `h3` alone. |
| Static.SectionsHaveNoHeaderItems | main.js:139-144 | No item row can pass for a header row. |
| Static.SpannedByH4s | main.js:131-148 | The table length by sections equals the count by `h3`s and `h4`s, with an `h3` outside any `div.tickets` taking two rows. |
| Static.ParseContent | main.js:125-151 | The rows are the layout of the sections under the trimmed title, with 2 + Σ(2 + `h4` count) rows and 3 columns. Header detection finds exactly the `h3` header rows. |
| Static.PushHeading | main.js:131-148 | One `h3` appends its header row, one row per `h4` of its section and a blank row. |
| Static.PushItems | main.js:136-145 | The `h4` loop appends one row per `h4`, paired by position, in document order. |
| Static.FormatSheet | main.js:153-268 | The requests are the plan with this variant's constants. There are 1 + headers + non-blank rows of them, starting with the whole-range centring, and none auto-resizes columns. |

## Left out

- The HTTP routes, OAuth and spreadsheet client set-up, `getSheetId`, clearing the sheet, `values.append` and the `batchUpdate` call are I/O around the core. `formatSheet` is modelled up to the request list it sends, without the `sheetId` field.
- Launching the browser, page navigation, `axios` and the 5-second `waitForSelector` are left out. `index.js` is modelled on one snapshot of the rendered page, in which both selector lists are already known.
- The CSS selector engine, `innerText` and cheerio's `text()` are left out. Their results are the inputs of the page datatypes (`Browser.Page`, `Static.Document`), so the link between a DOM tree and those results is not modelled.
- `a.href` in the browser resolves to an absolute URL. The model takes the property's value as given.
- The border literals (solid, width 1, black on all six edges) are the same in every border request, so they are folded into the `UpdateBorders` constructor.
- The `fields` masks are not modelled as strings. Each kind of `repeatCell` request has a fixed mask per variant (index.js:270-271 and 303-304, main.js:190 and 211). That mask writes exactly the fields its cell literal sets, except for the index.js whole-range `fontSize` (see below). `Format` records those fields. A `false` or `None` in a `Format` means the request does not write that field, not that it switches the field off. So the index.js header style leaves in place the vertical alignment set by the whole-range request.
- In `index.js` the whole-range request sets `fontSize: 12`, but its field mask leaves the font out, so the size never applies. The model records the size in `Browser.SheetStyle` but proves nothing that depends on it.
- Cells are always strings in the tables `parseContent` builds, so `typeof row[0] === "string"` always holds. `!cell` on a non-string cell is not modelled.
- `Math.max(...)` over very many rows can exceed the engine's argument limit. The model has no such limit, and it represents the empty `-Infinity` case as `None`.
- Hrefs are put into the formula unescaped, as in the source. A `"` inside an href makes a malformed formula, and the model does not check formula syntax.
- Strings are sequences of Unicode characters, not of UTF-16 code units as in JavaScript. Every whitespace character of the ECMA-262 set lies in the Basic Multilingual Plane, so trimming gives the same result either way.
