/**
 * The headless-browser variant (index.js): `parseContent` reads the
 * rendered page through selector queries, and `formatSheet` styles the
 * rows with its own constants.
 *
 * The page is abstract: each datatype holds what the queries of
 * `parseContent` return, not the DOM tree itself.
 */
module Browser {
  import opened Options
  import opened Text
  import opened Rows
  import opened Formatting

  /**
   * One ticket item: the `innerText` of its first `h4` and first `p`, and
   * the `href` property of its first `a` (None when the element is missing).
   */
  datatype ItemElement = ItemElement(h4: Option<string>, p: Option<string>, anchorHref: Option<string>)

  /**
   * One section element: the `innerText` of its first `h3` and first `h2`,
   * and its `.ticket-row` and `.find-ticket-items` descendants in document order.
   */
  datatype SectionElement = SectionElement(
    h3: Option<string>,
    h2: Option<string>,
    ticketRows: seq<ItemElement>,
    findTicketItems: seq<ItemElement>)

  /**
   * The rendered page: its title, and the elements that match
   * `<scope> div.container div.tickets` and
   * `<scope> div.container div.ticket-container`, in document order.
   */
  datatype Page = Page(title: string, tickets: seq<SectionElement>, ticketContainers: seq<SectionElement>)

  /** The section elements: `div.tickets` if any matches, otherwise `div.ticket-container`. */
  function Containers(page: Page): seq<SectionElement> {
    if |page.tickets| > 0 then page.tickets else page.ticketContainers
  }

  /** The heading exists and its trimmed text is not empty. */
  predicate HasText(heading: Option<string>) {
    heading.Some? && Trim(heading.value) != ""
  }

  /**
   * The section title: the trimmed `h3` text if not empty, else the trimmed
   * `h2` text if not empty, else "".
   */
  function SectionTitle(section: SectionElement): (r: string)
    ensures Trimmed(r)
    ensures r == "" <==> !HasText(section.h3) && !HasText(section.h2)
    ensures HasText(section.h3) ==> r == Trim(section.h3.value)
    ensures !HasText(section.h3) && HasText(section.h2) ==> r == Trim(section.h2.value)
  {
    if HasText(section.h3) then TrimSpec(section.h3.value); Trim(section.h3.value)
    else if HasText(section.h2) then TrimSpec(section.h2.value); Trim(section.h2.value)
    else ""
  }

  /** The item elements: `.ticket-row` if the section has one, otherwise `.find-ticket-items`. */
  function ItemElements(section: SectionElement): seq<ItemElement> {
    if |section.ticketRows| > 0 then section.ticketRows else section.findTicketItems
  }

  /** `a ? a.href : ''`: the href, or "" without an anchor. */
  function HrefOf(item: ItemElement): string {
    if item.anchorHref.Some? then item.anchorHref.value else ""
  }

  /**
   * One item as a row of three cells: trimmed `h4` text, trimmed `p` text
   * and the hyperlink formula, each "" when its element is missing.
   */
  function NormalizeItem(item: ItemElement): Item {
    var heading := if item.h4.Some? then Trim(item.h4.value) else "";
    var detail := if item.p.Some? then Trim(item.p.value) else "";
    Item(heading, detail, LinkCell(HrefOf(item)))
  }

  /**
   * Both text cells of a normalised item are the trimmed text of their
   * element, and "" when the element is missing; the link cell is ""
   * exactly when there is no href and otherwise gives the href back; the row
   * is never a header row.
   */
  lemma NormalizeItemCells(item: ItemElement)
    ensures var r := NormalizeItem(item);
            && Trimmed(r.heading) && Trimmed(r.detail)
            && (item.h4.None? ==> r.heading == "")
            && (item.p.None? ==> r.detail == "")
            && (item.h4.Some? ==> r.heading == Trim(item.h4.value))
            && (item.p.Some? ==> r.detail == Trim(item.p.value))
            && (r.link == "" <==> HrefOf(item) == "")
            && ParseLinkCell(r.link) == (if HrefOf(item) == "" then None else Some(HrefOf(item)))
            && !IsHeader(r.Cells())
  {
    if item.h4.Some? { TrimSpec(item.h4.value); }
    if item.p.Some? { TrimSpec(item.p.value); }
    LinkCellShape(HrefOf(item));
    LinkCellRoundTrip(HrefOf(item));
  }

  /** What the in-page code returns for one section element (`ExtractSectionSpec`). */
  function ExtractSection(section: SectionElement): Section
  {
    var items := ItemElements(section);
    Section(SectionTitle(section), seq(|items|, j requires 0 <= j < |items| => NormalizeItem(items[j])))
  }

  /**
   * One item per `.ticket-row` element when the section has any, otherwise
   * one per `.find-ticket-items` element, in document order. The title is
   * the trimmed `h3` text when it has any, else the trimmed `h2` text, and ""
   * exactly when neither heading has text. Every item's text cells are the
   * trimmed text of its `h4` and `p`, and "" for a missing element. Its link
   * cell is "" exactly without an href and otherwise gives the href back, and no item row passes for a header
   * row.
   */
  lemma ExtractSectionSpec(section: SectionElement)
    ensures var r := ExtractSection(section);
            var elements := if |section.ticketRows| > 0 then section.ticketRows else section.findTicketItems;
            && Trimmed(r.title)
            && (r.title == "" <==> !HasText(section.h3) && !HasText(section.h2))
            && (HasText(section.h3) ==> r.title == Trim(section.h3.value))
            && (!HasText(section.h3) && HasText(section.h2) ==> r.title == Trim(section.h2.value))
            && |r.items| == |elements|
            && forall j :: 0 <= j < |r.items| ==>
                 && Trimmed(r.items[j].heading) && Trimmed(r.items[j].detail)
                 && (elements[j].h4.None? ==> r.items[j].heading == "")
                 && (elements[j].p.None? ==> r.items[j].detail == "")
                 && (elements[j].h4.Some? ==> r.items[j].heading == Trim(elements[j].h4.value))
                 && (elements[j].p.Some? ==> r.items[j].detail == Trim(elements[j].p.value))
                 && (r.items[j].link == "" <==> HrefOf(elements[j]) == "")
                 && ParseLinkCell(r.items[j].link)
                    == (if HrefOf(elements[j]) == "" then None else Some(HrefOf(elements[j])))
                 && !IsHeader(r.items[j].Cells())
  {
    var r := ExtractSection(section);
    var elements := ItemElements(section);
    forall j | 0 <= j < |r.items|
      ensures Trimmed(r.items[j].heading) && Trimmed(r.items[j].detail)
      ensures elements[j].h4.None? ==> r.items[j].heading == ""
      ensures elements[j].p.None? ==> r.items[j].detail == ""
      ensures elements[j].h4.Some? ==> r.items[j].heading == Trim(elements[j].h4.value)
      ensures elements[j].p.Some? ==> r.items[j].detail == Trim(elements[j].p.value)
      ensures r.items[j].link == "" <==> HrefOf(elements[j]) == ""
      ensures ParseLinkCell(r.items[j].link)
              == (if HrefOf(elements[j]) == "" then None else Some(HrefOf(elements[j])))
      ensures !IsHeader(r.items[j].Cells())
    {
      NormalizeItemCells(elements[j]);
    }
  }

  /** `page.$$eval(targetElement, ...)`: one section per container element, in document order (`ExtractSectionsSpec`). */
  function ExtractSections(page: Page): seq<Section>
  {
    var containers := Containers(page);
    seq(|containers|, k requires 0 <= k < |containers| => ExtractSection(containers[k]))
  }

  /**
   * The sections come from the `div.tickets` elements when any match,
   * otherwise from the `div.ticket-container` elements, one per element in
   * document order; no item row of any of them passes for a header row.
   */
  lemma ExtractSectionsSpec(page: Page)
    ensures var r := ExtractSections(page);
            var containers := if |page.tickets| > 0 then page.tickets else page.ticketContainers;
            && |r| == |containers|
            && (forall k :: 0 <= k < |r| ==> r[k] == ExtractSection(containers[k]))
            && NoHeaderItems(r)
  {
    ExtractedHaveNoHeaderItems(page);
  }

  /** No extracted item row can pass for a header row: its link cell is never "Link". */
  lemma ExtractedHaveNoHeaderItems(page: Page)
    ensures NoHeaderItems(ExtractSections(page))
  {
    var sections := ExtractSections(page);
    forall k, j | 0 <= k < |sections| && 0 <= j < |sections[k].items|
      ensures !IsHeader(sections[k].items[j].Cells())
    {
      NormalizeItemCells(ItemElements(Containers(page)[k])[j]);
    }
  }

  /**
   * `parseContent`: the title row, a blank row, then per section its header
   * row, its item rows and a blank row. The table has 2 + Σ(2 + |items|)
   * rows, all three cells wide, and header detection finds exactly the
   * header rows it emitted.
   */
  method ParseContent(page: Page, link: string) returns (rows: seq<Row>)
    ensures rows == Layout(page.title, link, ExtractSections(page))
    ensures |rows| == 2 + RowsSpanned(ExtractSections(page))
    ensures HeaderRows(rows) == HeaderPositions(ExtractSections(page))
    ensures ColCount(rows) == Some(3)
  {
    rows := [];
    rows := rows + [[page.title, link, ""]];
    rows := rows + [["", "", ""]];

    var sections := ExtractSections(page);
    var i := 0;
    assert sections[..i] == [];
    while i < |sections|
      invariant 0 <= i <= |sections|
      invariant rows == Layout(page.title, link, sections[..i])
    {
      rows := PushSection(rows, sections[i]);
      LayoutSnoc(page.title, link, sections[..i], sections[i]);
      TakeSnoc(sections, i);
      i := i + 1;
    }
    assert sections[..i] == sections;
    LayoutLength(page.title, link, sections);
    ExtractedHaveNoHeaderItems(page);
    LayoutHeaders(page.title, link, sections);
    LayoutWidth(page.title, link, sections);
  }

  /** The body of `sections.forEach`: push the header row, the item rows, a blank row. */
  method PushSection(before: seq<Row>, s: Section) returns (rows: seq<Row>)
    ensures rows == before + Block(s)
  {
    rows := before + [[s.title, "Date", "Link"]];
    var j := 0;
    while j < |s.items|
      invariant 0 <= j <= |s.items|
      invariant rows == before + [HeaderRow(s.title)] + ItemRows(s.items[..j])
    {
      assert s.items[..j + 1][..j] == s.items[..j];
      rows := rows + [s.items[j].Cells()];
      j := j + 1;
    }
    assert s.items[..j] == s.items;
    rows := rows + [["", "", ""]];
  }

  /**
   * The constants of this variant's `formatSheet`: the whole range centred,
   * middle-aligned and wrapped (its font size 12 is left out of the
   * request's field mask, so it does not apply), columns auto-resized,
   * header rows bold at size 14 and wrapped.
   */
  const SheetStyle: Style := Style(
    whole := Format(bold := false, fontSize := Some(12), middle := true, wrap := true),
    autoResize := true,
    header := Format(bold := true, fontSize := Some(14), middle := false, wrap := true))

  /**
   * `formatSheet`: the whole-range style, then the auto-resize of columns
   * 0..3, then a header style per header row and a border per non-blank row.
   */
  method FormatSheet(values: seq<Row>) returns (requests: seq<Request>)
    ensures requests == Plan(values, SheetStyle)
    ensures |requests| == 2 + |HeaderRows(values)| + |NonBlankRows(values)|
    ensures requests[0] == RepeatCell(GridRange(0, |values|, 0, ColCount(values)), SheetStyle.whole)
    ensures requests[1] == AutoResizeColumns(0, 3)
  {
    requests := BuildRequests(values, SheetStyle);
    PlanHead(values, SheetStyle);
  }
}
