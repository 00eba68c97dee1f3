/**
 * The static-HTML variant (main.js): `parseContent` walks the parsed
 * document from each `h3` to its `div.tickets` section and pairs that
 * section's `h4`, `p` and `a` elements by position; `formatSheet` styles
 * the rows with its own constants and no auto-resize.
 *
 * The document is abstract: each datatype holds what the queries of
 * `parseContent` return, not the HTML tree itself.
 */
module Static {
  import opened Options
  import opened Text
  import opened Rows
  import opened Formatting

  /**
   * A `div.tickets` section: the text of every `h4` and every `p` inside
   * it, and the `href` attribute of every `a` inside it (None when the
   * attribute is missing), each list in document order.
   */
  datatype TicketsDiv = TicketsDiv(h4s: seq<string>, ps: seq<string>, hrefs: seq<Option<string>>)

  /**
   * An `h3` matched by `<scope> h3`: its text, and its closest
   * `div.tickets` ancestor (None when it has none).
   */
  datatype Heading = Heading(text: string, section: Option<TicketsDiv>)

  /** The parsed document: the text of its `title` and its scoped `h3`s in document order. */
  datatype Document = Document(title: string, headings: seq<Heading>)

  /** `$(section).find("p").eq(j).text().trim()`: "" past the end of the `p` list. */
  function DetailAt(div: TicketsDiv, j: nat): string {
    if j < |div.ps| then Trim(div.ps[j]) else ""
  }

  /** `$(section).find("a").eq(j).attr("href")`, with "" for a missing anchor or attribute. */
  function HrefAt(div: TicketsDiv, j: nat): string {
    if j < |div.hrefs| && div.hrefs[j].Some? then div.hrefs[j].value else ""
  }

  /**
   * The body of the `h4` callback: the j-th `h4`'s trimmed text, paired by
   * position with the j-th `p` and the j-th `a`, whatever their nesting;
   * the `a`'s `href` becomes the hyperlink formula (`PairItemCells`).
   */
  function PairItem(div: TicketsDiv, j: nat): Item
    requires j < |div.h4s|
  {
    Item(Trim(div.h4s[j]), DetailAt(div, j), LinkCell(HrefAt(div, j)))
  }

  /**
   * The j-th item's cells are the trimmed j-th `h4` text, the trimmed j-th
   * `p` text and the formula of the j-th `a`'s href; a `p` or `a` index
   * past the end of its list gives "" instead of an error; the link cell
   * carries exactly the href; and the row is never a header row.
   */
  lemma PairItemCells(div: TicketsDiv, j: nat)
    requires j < |div.h4s|
    ensures var r := PairItem(div, j);
            && Trimmed(r.heading) && Trimmed(r.detail)
            && r.heading == Trim(div.h4s[j])
            && (j < |div.ps| ==> r.detail == Trim(div.ps[j]))
            && (j >= |div.ps| ==> r.detail == "")
            && (j >= |div.hrefs| ==> r.link == "")
            && (r.link == "" <==> HrefAt(div, j) == "")
            && ParseLinkCell(r.link) == (if HrefAt(div, j) == "" then None else Some(HrefAt(div, j)))
            && !IsHeader(r.Cells())
  {
    TrimSpec(div.h4s[j]);
    if j < |div.ps| { TrimSpec(div.ps[j]); }
    LinkCellShape(HrefAt(div, j));
    LinkCellRoundTrip(HrefAt(div, j));
  }

  /** The first n paired items of a section, in `h4` order. */
  function PairedPrefix(div: TicketsDiv, n: nat): seq<Item>
    requires n <= |div.h4s|
  {
    if n == 0 then [] else PairedPrefix(div, n - 1) + [PairItem(div, n - 1)]
  }

  /** The items of a heading's section: one per `h4`, none without a section. */
  function PairedItems(section: Option<TicketsDiv>): seq<Item> {
    match section
    case None => []
    case Some(div) => PairedPrefix(div, |div.h4s|)
  }

  /** The section one scoped `h3` contributes: its trimmed text and its paired items. */
  function SectionOf(heading: Heading): Section {
    Section(Trim(heading.text), PairedItems(heading.section))
  }

  /** The sections `parseContent` lays out: one per scoped `h3`, in document order. */
  function Sections(headings: seq<Heading>): seq<Section> {
    if headings == [] then []
    else Sections(headings[..|headings| - 1]) + [SectionOf(headings[|headings| - 1])]
  }

  /** A section without `div.tickets` has no items; otherwise the j-th item pairs the j-th `h4`. */
  lemma {:induction false} PairedPrefixAt(div: TicketsDiv, n: nat)
    requires n <= |div.h4s|
    ensures |PairedPrefix(div, n)| == n
    ensures forall j :: 0 <= j < n ==> PairedPrefix(div, n)[j] == PairItem(div, j)
  {
    if n > 0 {
      PairedPrefixAt(div, n - 1);
      var shorter := PairedPrefix(div, n - 1);
      assert PairedPrefix(div, n) == shorter + [PairItem(div, n - 1)];
      forall j | 0 <= j < n - 1
        ensures PairedPrefix(div, n)[j] == PairItem(div, j)
      {
        assert PairedPrefix(div, n)[j] == shorter[j];
      }
    }
  }

  /** There is one section per scoped `h3`, and the k-th is built from the k-th `h3` alone. */
  lemma {:induction false} SectionsAt(headings: seq<Heading>)
    ensures |Sections(headings)| == |headings|
    ensures forall k :: 0 <= k < |headings| ==> Sections(headings)[k] == SectionOf(headings[k])
  {
    if headings != [] {
      var n := |headings| - 1;
      SectionsAt(headings[..n]);
      assert forall k :: 0 <= k < n ==> headings[..n][k] == headings[k];
    }
  }

  /** No item row built from a section can pass for a header row: its link cell is never "Link". */
  lemma SectionsHaveNoHeaderItems(headings: seq<Heading>)
    ensures NoHeaderItems(Sections(headings))
  {
    SectionsAt(headings);
    forall k, j | 0 <= k < |Sections(headings)| && 0 <= j < |Sections(headings)[k].items|
      ensures !IsHeader(Sections(headings)[k].items[j].Cells())
    {
      var section := headings[k].section;
      assert Sections(headings)[k].items == PairedItems(section);
      var div := section.value;
      PairedPrefixAt(div, |div.h4s|);
      PairItemCells(div, j);
    }
  }

  /** Σ over the headings of (2 + number of `h4`s in the heading's section). */
  function H4RowsSpanned(headings: seq<Heading>): nat {
    if headings == [] then 0
    else
      var last := headings[|headings| - 1];
      H4RowsSpanned(headings[..|headings| - 1])
      + 2 + (if last.section.Some? then |last.section.value.h4s| else 0)
  }

  /** The row count by sections equals the row count by `h4`s. */
  lemma {:induction false} SpannedByH4s(headings: seq<Heading>)
    ensures RowsSpanned(Sections(headings)) == H4RowsSpanned(headings)
  {
    if headings != [] {
      var n := |headings| - 1;
      SpannedByH4s(headings[..n]);
      var last := headings[n];
      if last.section.Some? {
        PairedPrefixAt(last.section.value, |last.section.value.h4s|);
      }
      var sections := Sections(headings[..n]) + [SectionOf(last)];
      assert sections[..|sections| - 1] == Sections(headings[..n]);
    }
  }

  /**
   * `parseContent`: the title row, a blank row, then per scoped `h3` its
   * header row, one item row per `h4` of its section and a blank row. The
   * table has 2 + Σ(2 + #h4) rows, all three cells wide, and header
   * detection finds exactly the header rows it emitted.
   */
  method ParseContent(doc: Document, link: string) returns (rows: seq<Row>)
    ensures rows == Layout(Trim(doc.title), link, Sections(doc.headings))
    ensures |rows| == 2 + H4RowsSpanned(doc.headings)
    ensures HeaderRows(rows) == HeaderPositions(Sections(doc.headings))
    ensures ColCount(rows) == Some(3)
  {
    var title := Trim(doc.title);
    rows := [];
    rows := rows + [[title, link, ""]];
    rows := rows + [["", "", ""]];

    var headings := doc.headings;
    var i := 0;
    while i < |headings|
      invariant 0 <= i <= |headings|
      invariant rows == Layout(title, link, Sections(headings[..i]))
    {
      rows := PushHeading(rows, headings[i]);
      LayoutSnoc(title, link, Sections(headings[..i]), SectionOf(headings[i]));
      assert headings[..i + 1][..i] == headings[..i];
      i := i + 1;
    }
    assert headings[..i] == headings;
    ghost var sections := Sections(headings);
    LayoutLength(title, link, sections);
    SpannedByH4s(headings);
    SectionsHaveNoHeaderItems(headings);
    LayoutHeaders(title, link, sections);
    LayoutWidth(title, link, sections);
  }

  /** The `.each` callback for one `h3`: header row, one row per `h4` of its section, blank row. */
  method PushHeading(before: seq<Row>, heading: Heading) returns (rows: seq<Row>)
    ensures rows == before + Block(SectionOf(heading))
  {
    var title := Trim(heading.text);
    rows := before + [[title, "Date", "Link"]];
    if heading.section.Some? {
      rows := PushItems(rows, heading.section.value);
    }
    rows := rows + [["", "", ""]];
  }

  /** The inner `.each` over the section's `h4`s: one row per `h4`, paired by position. */
  method PushItems(before: seq<Row>, div: TicketsDiv) returns (rows: seq<Row>)
    ensures rows == before + ItemRows(PairedItems(Some(div)))
  {
    rows := before;
    var j := 0;
    while j < |div.h4s|
      invariant 0 <= j <= |div.h4s|
      invariant rows == before + ItemRows(PairedPrefix(div, j))
    {
      var row := PairItem(div, j).Cells();
      PushItemsStep(before, div, j, rows);
      rows := rows + [row];
      j := j + 1;
    }
  }

  /** One more `h4` extends the rows by its paired item's row. */
  lemma PushItemsStep(before: seq<Row>, div: TicketsDiv, j: nat, rows: seq<Row>)
    requires j < |div.h4s| && rows == before + ItemRows(PairedPrefix(div, j))
    ensures rows + [PairItem(div, j).Cells()] == before + ItemRows(PairedPrefix(div, j + 1))
  {
    var item := PairItem(div, j);
    assert PairedPrefix(div, j + 1) == PairedPrefix(div, j) + [item];
    ItemRowsSnoc(PairedPrefix(div, j), item);
    AppendAssoc(before, ItemRows(PairedPrefix(div, j)), [item.Cells()]);
  }

  /**
   * The constants of this variant's `formatSheet`: the whole range centred,
   * no auto-resize, header rows bold at size 12.
   */
  const SheetStyle: Style := Style(
    whole := Format(bold := false, fontSize := None, middle := false, wrap := false),
    autoResize := false,
    header := Format(bold := true, fontSize := Some(12), middle := false, wrap := false))

  /**
   * `formatSheet`: the whole-range centring, then a header style per header
   * row and a border per non-blank row; no request resizes columns.
   */
  method FormatSheet(values: seq<Row>) returns (requests: seq<Request>)
    ensures requests == Plan(values, SheetStyle)
    ensures |requests| == 1 + |HeaderRows(values)| + |NonBlankRows(values)|
    ensures requests[0] == RepeatCell(GridRange(0, |values|, 0, ColCount(values)), SheetStyle.whole)
    ensures forall m :: 0 <= m < |requests| ==> !requests[m].AutoResizeColumns?
  {
    requests := BuildRequests(values, SheetStyle);
    PlanHead(values, SheetStyle);
    forall m | 0 <= m < |requests|
      ensures !requests[m].AutoResizeColumns?
    {
      AutoResizeOnlyIfStyled(values, SheetStyle, m);
    }
  }
}
