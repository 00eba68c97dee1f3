/**
 * `formatSheet`: finds the header rows of a table and plans the ordered
 * list of formatting requests sent to the spreadsheet in one batch.
 */
module Formatting {
  import opened Options
  import opened Text
  import opened Rows

  /** A header row has "Date" in its second cell and "Link" in its third. */
  predicate IsHeader(row: Row) {
    |row| >= 3 && row[1] == "Date" && row[2] == "Link"
  }

  /** `!cell || cell.trim() === ""` for a string cell. */
  predicate IsBlankCell(cell: string) {
    Trim(cell) == ""
  }

  /** `row.every(cell => !cell || cell.trim() === "")`, cell by cell. */
  predicate IsBlank(row: Row) {
    row == [] || (IsBlankCell(row[0]) && IsBlank(row[1..]))
  }

  /** A row is blank exactly when each of its cells is empty or whitespace only. */
  lemma {:induction false} BlankIffWhitespace(row: Row)
    ensures IsBlank(row) <==> forall k :: 0 <= k < |row| ==> AllWhitespace(row[k])
  {
    if row != [] {
      TrimSpec(row[0]);
      BlankIffWhitespace(row[1..]);
      assert forall k :: 1 <= k < |row| ==> row[k] == row[1..][k - 1];
    }
  }

  /** Each element is larger than the one before it. */
  predicate StrictlyIncreasing(s: seq<nat>) {
    forall k :: 0 < k < |s| ==> s[k - 1] < s[k]
  }

  /** Header detection, `values.map(...).filter(...)`: the indices of the header rows (`HeaderRowsExact`). */
  function HeaderRows(values: seq<Row>): seq<nat>
  {
    if values == [] then []
    else
      var n := |values| - 1;
      HeaderRows(values[..n]) + (if IsHeader(values[n]) then [n] else [])
  }

  /** The indices of the rows that are not blank, ascending (`NonBlankRowsExact`). */
  function NonBlankRows(values: seq<Row>): seq<nat>
  {
    if values == [] then []
    else
      var n := |values| - 1;
      NonBlankRows(values[..n]) + (if IsBlank(values[n]) then [] else [n])
  }

  /**
   * `Math.max(...values.map(row => row.length))`: the widest row's length
   * (`ColCountIsMax`), or None when there are no rows (`Math.max()` is
   * -Infinity).
   */
  function ColCount(values: seq<Row>): (r: Option<nat>)
    ensures r.None? <==> values == []
  {
    if values == [] then None
    else
      var n := |values| - 1;
      var w := ColCount(values[..n]);
      if w.Some? && w.value >= |values[n]| then w else Some(|values[n]|)
  }

  /**
   * The cell format of a `repeatCell` request. Every one centres the text
   * horizontally; the rest varies between the two variants. A field that is
   * `false` or `None` is one the request does not write (its field mask
   * leaves it out), not one it switches off.
   */
  datatype Format = Format(bold: bool, fontSize: Option<nat>, middle: bool, wrap: bool)

  /** Rows [startRow, endRow) by columns [startColumn, endColumn); endColumn as `ColCount`. */
  datatype GridRange = GridRange(startRow: nat, endRow: nat, startColumn: nat, endColumn: Option<nat>)

  datatype Request =
    | RepeatCell(range: GridRange, format: Format)
    | AutoResizeColumns(startIndex: nat, endIndex: nat)
    | UpdateBorders(range: GridRange)

  /** The constants that tell the two variants' `formatSheet` apart. */
  datatype Style = Style(whole: Format, autoResize: bool, header: Format)

  /** The single row `row` across all columns. */
  function RowRange(row: nat, cols: Option<nat>): GridRange {
    GridRange(row, row + 1, 0, cols)
  }

  function WholeRangeRequest(values: seq<Row>, style: Style): Request {
    RepeatCell(GridRange(0, |values|, 0, ColCount(values)), style.whole)
  }

  /** The column auto-resize request of columns 0..3 (exclusive). */
  function AutoResize(): Request { AutoResizeColumns(0, 3) }

  /** The requests that come before the header styles. */
  function Lead(values: seq<Row>, style: Style): (r: seq<Request>)
    ensures |r| == if style.autoResize then 2 else 1
  {
    [WholeRangeRequest(values, style)] + (if style.autoResize then [AutoResize()] else [])
  }

  /** One header style request per index of `rows`, in order (`HeaderStylesAt`). */
  function HeaderStyles(rows: seq<nat>, cols: Option<nat>, format: Format): seq<Request>
  {
    if rows == [] then []
    else HeaderStyles(rows[..|rows| - 1], cols, format)
         + [RepeatCell(RowRange(rows[|rows| - 1], cols), format)]
  }

  /** One border request per index of `rows`, in order (`BordersAt`). */
  function Borders(rows: seq<nat>, cols: Option<nat>): seq<Request>
  {
    if rows == [] then []
    else Borders(rows[..|rows| - 1], cols) + [UpdateBorders(RowRange(rows[|rows| - 1], cols))]
  }

  /**
   * The request list `formatSheet` sends: the whole-range style, the
   * auto-resize (when the variant has one), a header style per header row,
   * and a border per non-blank row.
   */
  function Plan(values: seq<Row>, style: Style): seq<Request>
  {
    var cols := ColCount(values);
    Lead(values, style) + HeaderStyles(HeaderRows(values), cols, style.header)
    + Borders(NonBlankRows(values), cols)
  }

  /** `formatSheet`'s request building, push by push. */
  method BuildRequests(values: seq<Row>, style: Style) returns (requests: seq<Request>)
    ensures requests == Plan(values, style)
  {
    var rowCount := |values|;
    var colCount := ColCount(values);
    var headerRows := HeaderRows(values);

    requests := [RepeatCell(GridRange(0, rowCount, 0, colCount), style.whole)];
    if style.autoResize {
      requests := requests + [AutoResizeColumns(0, 3)];
    }
    assert requests == Lead(values, style);
    requests := PushHeaderStyles(requests, headerRows, colCount, style.header);
    requests := PushBorders(requests, values, colCount);
  }

  /** `headerRows.forEach(...)`: one header style request pushed per header row. */
  method PushHeaderStyles(before: seq<Request>, headerRows: seq<nat>, cols: Option<nat>, format: Format)
    returns (requests: seq<Request>)
    ensures requests == before + HeaderStyles(headerRows, cols, format)
  {
    requests := before;
    var k := 0;
    while k < |headerRows|
      invariant 0 <= k <= |headerRows|
      invariant requests == before + HeaderStyles(headerRows[..k], cols, format)
    {
      requests := requests + [RepeatCell(RowRange(headerRows[k], cols), format)];
      HeaderStylesStep(headerRows, k, cols, format);
      k := k + 1;
    }
    assert headerRows[..k] == headerRows;
  }

  /** `values.forEach(...)`: one border request pushed per row that is not blank. */
  method PushBorders(before: seq<Request>, values: seq<Row>, cols: Option<nat>)
    returns (requests: seq<Request>)
    ensures requests == before + Borders(NonBlankRows(values), cols)
  {
    requests := before;
    ghost var bordered: seq<nat> := [];
    var i := 0;
    assert values[..i] == [];
    while i < |values|
      invariant 0 <= i <= |values|
      invariant bordered == NonBlankRows(values[..i])
      invariant requests == before + Borders(bordered, cols)
    {
      NonBlankRowsStep(values, i);
      if !IsBlank(values[i]) {
        BordersSnoc(bordered, i, cols);
        requests := requests + [UpdateBorders(RowRange(i, cols))];
        bordered := bordered + [i];
      }
      i := i + 1;
    }
    assert values[..i] == values;
  }

  lemma HeaderStylesStep(rows: seq<nat>, k: nat, cols: Option<nat>, format: Format)
    requires k < |rows|
    ensures HeaderStyles(rows[..k + 1], cols, format)
            == HeaderStyles(rows[..k], cols, format) + [RepeatCell(RowRange(rows[k], cols), format)]
  {
    assert rows[..k + 1][..k] == rows[..k];
  }

  lemma NonBlankRowsStep(values: seq<Row>, i: nat)
    requires i < |values|
    ensures NonBlankRows(values[..i + 1])
            == NonBlankRows(values[..i]) + (if IsBlank(values[i]) then [] else [i])
  {
    assert values[..i + 1][..i] == values[..i];
  }

  lemma BordersSnoc(rows: seq<nat>, row: nat, cols: Option<nat>)
    ensures Borders(rows + [row], cols) == Borders(rows, cols) + [UpdateBorders(RowRange(row, cols))]
  {
    assert (rows + [row])[..|rows|] == rows;
  }

  /** Header detection finds, in ascending order, exactly the rows with "Date" and "Link" in cells 1 and 2. */
  lemma {:induction false} HeaderRowsExact(values: seq<Row>)
    ensures StrictlyIncreasing(HeaderRows(values))
    ensures forall k :: 0 <= k < |HeaderRows(values)| ==>
              HeaderRows(values)[k] < |values| && IsHeader(values[HeaderRows(values)[k]])
    ensures forall i :: 0 <= i < |values| ==> (i in HeaderRows(values) <==> IsHeader(values[i]))
  {
    if values != [] {
      var n := |values| - 1;
      HeaderRowsExact(values[..n]);
      var prefix := HeaderRows(values[..n]);
      var tail: seq<nat> := if IsHeader(values[n]) then [n] else [];
      assert HeaderRows(values) == prefix + tail;
      assert forall i :: 0 <= i < n ==> values[..n][i] == values[i];
    }
  }

  /** `ColCount` is the length of the widest row. */
  lemma {:induction false} ColCountIsMax(values: seq<Row>)
    requires values != []
    ensures forall i :: 0 <= i < |values| ==> |values[i]| <= ColCount(values).value
    ensures exists i :: 0 <= i < |values| && |values[i]| == ColCount(values).value
  {
    var n := |values| - 1;
    if n > 0 {
      ColCountIsMax(values[..n]);
      assert forall i :: 0 <= i < n ==> values[..n][i] == values[i];
      var w := ColCount(values[..n]).value;
      if w >= |values[n]| {
        var j :| 0 <= j < n && |values[..n][j]| == w;
        assert |values[j]| == ColCount(values).value;
      } else {
        assert |values[n]| == ColCount(values).value;
      }
    } else {
      assert |values[0]| == ColCount(values).value;
    }
  }

  /** `NonBlankRows` lists, in ascending order, exactly the rows that are not blank. */
  lemma {:induction false} NonBlankRowsExact(values: seq<Row>)
    ensures StrictlyIncreasing(NonBlankRows(values))
    ensures forall k :: 0 <= k < |NonBlankRows(values)| ==>
              NonBlankRows(values)[k] < |values| && !IsBlank(values[NonBlankRows(values)[k]])
    ensures forall i :: 0 <= i < |values| ==> (i in NonBlankRows(values) <==> !IsBlank(values[i]))
  {
    if values != [] {
      var n := |values| - 1;
      NonBlankRowsExact(values[..n]);
      var prefix := NonBlankRows(values[..n]);
      var tail: seq<nat> := if IsBlank(values[n]) then [] else [n];
      assert NonBlankRows(values) == prefix + tail;
      assert forall i :: 0 <= i < n ==> values[..n][i] == values[i];
    }
  }

  /** `Borders` maps each row index to the border request of that row. */
  lemma {:induction false} BordersAt(rows: seq<nat>, cols: Option<nat>)
    ensures |Borders(rows, cols)| == |rows|
    ensures forall k :: 0 <= k < |rows| ==> Borders(rows, cols)[k] == UpdateBorders(RowRange(rows[k], cols))
  {
    if rows != [] {
      var n := |rows| - 1;
      BordersAt(rows[..n], cols);
      assert forall k :: 0 <= k < n ==> rows[..n][k] == rows[k];
    }
  }

  /** `HeaderStyles` maps each header index to the header style request of that row. */
  lemma {:induction false} HeaderStylesAt(rows: seq<nat>, cols: Option<nat>, format: Format)
    ensures |HeaderStyles(rows, cols, format)| == |rows|
    ensures forall k :: 0 <= k < |rows| ==>
              HeaderStyles(rows, cols, format)[k] == RepeatCell(RowRange(rows[k], cols), format)
  {
    if rows != [] {
      var n := |rows| - 1;
      HeaderStylesAt(rows[..n], cols, format);
      assert forall k :: 0 <= k < n ==> rows[..n][k] == rows[k];
    }
  }

  /**
   * The head of the request list: the whole-range style first, then the
   * auto-resize if the variant has one; after them come one header style
   * per header row and one border per non-blank row (`PlanHeaderStyle`,
   * `PlanBorder`).
   */
  lemma PlanHead(values: seq<Row>, style: Style)
    ensures var plan := Plan(values, style);
            && |plan| == (if style.autoResize then 2 else 1) + |HeaderRows(values)| + |NonBlankRows(values)|
            && plan[0] == RepeatCell(GridRange(0, |values|, 0, ColCount(values)), style.whole)
            && (style.autoResize ==> plan[1] == AutoResizeColumns(0, 3))
  {
    var cols := ColCount(values);
    var lead := Lead(values, style);
    var styles := HeaderStyles(HeaderRows(values), cols, style.header);
    var borders := Borders(NonBlankRows(values), cols);
    assert Plan(values, style) == lead + (styles + borders);
    HeaderStylesAt(HeaderRows(values), cols, style.header);
    BordersAt(NonBlankRows(values), cols);
  }

  /** The k-th request after the head styles the k-th header row, in ascending order. */
  lemma PlanHeaderStyle(values: seq<Row>, style: Style, k: nat)
    requires k < |HeaderRows(values)|
    ensures var lead := if style.autoResize then 2 else 1;
            lead + k < |Plan(values, style)| &&
            Plan(values, style)[lead + k]
              == RepeatCell(RowRange(HeaderRows(values)[k], ColCount(values)), style.header)
  {
    var cols := ColCount(values);
    var lead := Lead(values, style);
    var styles := HeaderStyles(HeaderRows(values), cols, style.header);
    var borders := Borders(NonBlankRows(values), cols);
    assert Plan(values, style) == (lead + styles) + borders;
    HeaderStylesAt(HeaderRows(values), cols, style.header);
    assert (lead + styles)[|lead| + k] == styles[k];
  }

  /** The requests after the header styles border the non-blank rows, in ascending order. */
  lemma PlanBorder(values: seq<Row>, style: Style, k: nat)
    requires k < |NonBlankRows(values)|
    ensures var before := (if style.autoResize then 2 else 1) + |HeaderRows(values)|;
            before + k < |Plan(values, style)| &&
            Plan(values, style)[before + k] == UpdateBorders(RowRange(NonBlankRows(values)[k], ColCount(values)))
  {
    var cols := ColCount(values);
    var lead := Lead(values, style);
    var styles := HeaderStyles(HeaderRows(values), cols, style.header);
    var borders := Borders(NonBlankRows(values), cols);
    assert Plan(values, style) == (lead + styles) + borders;
    HeaderStylesAt(HeaderRows(values), cols, style.header);
    BordersAt(NonBlankRows(values), cols);
  }

  /** A row that gets a border request is not blank. */
  lemma BorderOnlyIfNonBlank(values: seq<Row>, style: Style, r: nat)
    requires r < |values|
    requires UpdateBorders(RowRange(r, ColCount(values))) in Plan(values, style)
    ensures !IsBlank(values[r])
  {
    var plan := Plan(values, style);
    var m :| 0 <= m < |plan| && plan[m] == UpdateBorders(RowRange(r, ColCount(values)));
    var k := OnlyBordersBorder(values, style, m);
    NonBlankRowsExact(values);
    assert NonBlankRows(values)[k] == r;
  }

  /** Every row that is not blank gets a border request. */
  lemma NonBlankGetsBorder(values: seq<Row>, style: Style, r: nat)
    requires r < |values| && !IsBlank(values[r])
    ensures UpdateBorders(RowRange(r, ColCount(values))) in Plan(values, style)
  {
    NonBlankRowsExact(values);
    var k :| 0 <= k < |NonBlankRows(values)| && NonBlankRows(values)[k] == r;
    PlanBorder(values, style, k);
  }

  /** A border request goes to a row exactly when that row is not blank. */
  lemma BordersExactlyNonBlank(values: seq<Row>, style: Style, r: nat)
    requires r < |values|
    ensures UpdateBorders(RowRange(r, ColCount(values))) in Plan(values, style) <==> !IsBlank(values[r])
  {
    if UpdateBorders(RowRange(r, ColCount(values))) in Plan(values, style) {
      BorderOnlyIfNonBlank(values, style, r);
    }
    if !IsBlank(values[r]) {
      NonBlankGetsBorder(values, style, r);
    }
  }

  /** The only border requests in the plan are those of `Borders(NonBlankRows(values))`. */
  lemma OnlyBordersBorder(values: seq<Row>, style: Style, m: nat) returns (k: nat)
    requires m < |Plan(values, style)| && Plan(values, style)[m].UpdateBorders?
    ensures k < |NonBlankRows(values)|
    ensures Plan(values, style)[m] == UpdateBorders(RowRange(NonBlankRows(values)[k], ColCount(values)))
  {
    var lead := if style.autoResize then 2 else 1;
    var headers := |HeaderRows(values)|;
    PlanHead(values, style);
    if m < lead {
      assert false;
    } else if m < lead + headers {
      PlanHeaderStyle(values, style, m - lead);
    } else {
      k := m - lead - headers;
      PlanBorder(values, style, k);
    }
  }

  /** A header row is never blank (its second cell is "Date"), so every header row gets a border. */
  lemma HeaderIsNotBlank(row: Row)
    ensures IsHeader(row) ==> !IsBlank(row)
  {
    if IsHeader(row) {
      assert !IsWhitespace(row[1][0]);
      TrimSpec(row[1]);
      assert !IsBlankCell(row[1]);
      BlankIffWhitespace(row);
    }
  }

  /** Every header row of the table gets both its header style and a border. */
  lemma HeadersStyledAndBordered(values: seq<Row>, style: Style, r: nat)
    requires r < |values| && IsHeader(values[r])
    ensures RepeatCell(RowRange(r, ColCount(values)), style.header) in Plan(values, style)
    ensures UpdateBorders(RowRange(r, ColCount(values))) in Plan(values, style)
  {
    HeaderRowsExact(values);
    var k :| 0 <= k < |HeaderRows(values)| && HeaderRows(values)[k] == r;
    PlanHeaderStyle(values, style, k);
    HeaderIsNotBlank(values[r]);
    NonBlankGetsBorder(values, style, r);
  }

  /** On a table of blank rows only, the plan has no header style and no border. */
  lemma {:induction false} AllBlankPlan(values: seq<Row>, style: Style)
    requires forall i :: 0 <= i < |values| ==> IsBlank(values[i])
    ensures HeaderRows(values) == [] && NonBlankRows(values) == []
    ensures Plan(values, style) == Lead(values, style)
  {
    if values != [] {
      var n := |values| - 1;
      assert forall i :: 0 <= i < n ==> values[..n][i] == values[i];
      AllBlankPlan(values[..n], style);
      HeaderIsNotBlank(values[n]);
    }
  }

  /** `s` with `d` added to every element. */
  function Shift(s: seq<nat>, d: nat): (r: seq<nat>)
    ensures |r| == |s| && forall k :: 0 <= k < |s| ==> r[k] == s[k] + d
  {
    seq(|s|, k requires 0 <= k < |s| => s[k] + d)
  }

  /** Shifting the first index moves it to `d`. */
  lemma ShiftSingleton(d: nat)
    ensures Shift([0], d) == [d]
  {
  }

  /** Shifting distributes over concatenation. */
  lemma ShiftAppend(s: seq<nat>, t: seq<nat>, d: nat)
    ensures Shift(s + t, d) == Shift(s, d) + Shift(t, d)
  {
    assert forall k :: 0 <= k < |t| ==> (s + t)[|s| + k] == t[k];
  }

  /** Header detection over two tables put end to end. */
  lemma {:induction false} HeaderRowsAppend(a: seq<Row>, b: seq<Row>)
    ensures HeaderRows(a + b) == HeaderRows(a) + Shift(HeaderRows(b), |a|)
  {
    if b == [] {
      assert a + b == a;
      assert Shift([], |a|) == [];
    } else {
      var n := |b| - 1;
      var ab := a + b;
      var m := |a| + n;
      HeaderRowsAppend(a, b[..n]);
      assert ab[..m] == a + b[..n];
      assert ab[m] == b[n];
      var tail: seq<nat> := if IsHeader(b[n]) then [n] else [];
      var shiftedTail: seq<nat> := if IsHeader(b[n]) then [m] else [];
      assert HeaderRows(ab) == HeaderRows(a + b[..n]) + shiftedTail;
      assert HeaderRows(b) == HeaderRows(b[..n]) + tail;
      ShiftAppend(HeaderRows(b[..n]), tail, |a|);
      assert Shift(tail, |a|) == shiftedTail;
      AppendAssoc(HeaderRows(a), Shift(HeaderRows(b[..n]), |a|), shiftedTail);
    }
  }

  /** No item row of any section looks like a header row. */
  predicate NoHeaderItems(sections: seq<Section>) {
    forall k, j :: 0 <= k < |sections| && 0 <= j < |sections[k].items| ==> !IsHeader(sections[k].items[j].Cells())
  }

  lemma {:induction false} ItemRowsHaveNoHeader(items: seq<Item>)
    requires forall j :: 0 <= j < |items| ==> !IsHeader(items[j].Cells())
    ensures HeaderRows(ItemRows(items)) == []
  {
    if items != [] {
      var n := |items| - 1;
      ItemRowsHaveNoHeader(items[..n]);
      var rows := ItemRows(items);
      assert rows[..|rows| - 1] == ItemRows(items[..n]);
    }
  }

  /** A section's block has exactly one header row, its first. */
  lemma BlockHeaders(s: Section)
    requires forall j :: 0 <= j < |s.items| ==> !IsHeader(s.items[j].Cells())
    ensures HeaderRows(Block(s)) == [0]
  {
    var header: seq<Row> := [HeaderRow(s.title)];
    var items := ItemRows(s.items);
    var blank: seq<Row> := [BlankRow()];
    assert Block(s) == (header + items) + blank;
    assert header[..0] == [];
    assert blank[..0] == [];
    ItemRowsHaveNoHeader(s.items);
    HeaderRowsAppend(header, items);
    HeaderRowsAppend(header + items, blank);
  }

  /**
   * Build, then detect: header detection on the table `parseContent` builds
   * returns exactly the positions at which it emitted the section headers.
   */
  lemma {:induction false} LayoutHeaders(pageTitle: string, link: string, sections: seq<Section>)
    requires NoHeaderItems(sections)
    ensures HeaderRows(Layout(pageTitle, link, sections)) == HeaderPositions(sections)
  {
    if sections == [] {
      var top := Layout(pageTitle, link, sections);
      assert top == [TitleRow(pageTitle, link), BlankRow()];
      assert !IsHeader(TitleRow(pageTitle, link)) && !IsHeader(BlankRow());
      assert top[..1] == [TitleRow(pageTitle, link)];
      assert top[..1][..0] == [];
      assert HeaderRows(top[..1]) == [];
    } else {
      var n := |sections| - 1;
      var prefix := sections[..n];
      TakeSnoc(sections, n);
      assert sections[..n + 1] == sections;
      LayoutSnoc(pageTitle, link, prefix, sections[n]);
      LayoutHeaders(pageTitle, link, prefix);
      LayoutLength(pageTitle, link, prefix);
      BlockHeaders(sections[n]);
      var top := Layout(pageTitle, link, prefix);
      HeaderRowsAppend(top, Block(sections[n]));
      ShiftSingleton(|top|);
      assert HeaderPositions(sections) == HeaderPositions(prefix) + [2 + RowsSpanned(prefix)];
    }
  }

  /** Every table `parseContent` builds is three columns wide. */
  lemma LayoutWidth(pageTitle: string, link: string, sections: seq<Section>)
    ensures ColCount(Layout(pageTitle, link, sections)) == Some(3)
  {
    var rows := Layout(pageTitle, link, sections);
    LayoutCells(pageTitle, link, sections);
    ColCountIsMax(rows);
  }

  /** A variant without auto-resize plans no auto-resize request; one with it plans exactly one, second. */
  lemma AutoResizeOnlyIfStyled(values: seq<Row>, style: Style, m: nat)
    requires m < |Plan(values, style)|
    ensures Plan(values, style)[m].AutoResizeColumns? <==> style.autoResize && m == 1
  {
    var lead := if style.autoResize then 2 else 1;
    var headers := |HeaderRows(values)|;
    PlanHead(values, style);
    if m >= lead {
      if m < lead + headers {
        PlanHeaderStyle(values, style, m - lead);
      } else {
        PlanBorder(values, style, m - lead - headers);
      }
    }
  }
}
