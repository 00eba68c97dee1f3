/**
 * The spreadsheet rows both variants of `parseContent` produce: a title
 * row, a blank separator, then one block per section (a header row, the
 * section's item rows in document order, a blank separator).
 */
module Rows {
  import opened Options

  /** One spreadsheet row: its cells, left to right. */
  type Row = seq<string>

  /** A normalised ticket item; it always has exactly three cells. */
  datatype Item = Item(heading: string, detail: string, link: string)
  {
    function Cells(): (r: Row)
      ensures |r| == 3 && r[2] == link
    {
      [heading, detail, link]
    }
  }

  /** An extracted section: its title and its items in document order. */
  datatype Section = Section(title: string, items: seq<Item>)

  function TitleRow(pageTitle: string, link: string): Row { [pageTitle, link, ""] }

  function HeaderRow(title: string): Row { [title, "Date", "Link"] }

  function BlankRow(): Row { ["", "", ""] }

  const LinkPrefix: string := "=HYPERLINK(\""
  const LinkSuffix: string := "\", \"Click here\")"

  /**
   * The link cell of an item: the spreadsheet formula
   * `=HYPERLINK("<href>", "Click here")`, or "" when there is no href.
   */
  function LinkCell(href: string): string {
    if href == "" then "" else LinkPrefix + href + LinkSuffix
  }

  /** The link cell is empty exactly when there is no href; otherwise it is a formula. */
  lemma LinkCellShape(href: string)
    ensures LinkCell(href) == "" <==> href == ""
    ensures LinkCell(href) != "" ==> LinkCell(href)[0] == '='
  {
    if href != "" {
      assert LinkCell(href)[0] == LinkPrefix[0];
    }
  }

  /** Reads the href back out of a link cell; None if the cell is no such formula. */
  function ParseLinkCell(cell: string): (r: Option<string>)
    ensures r.Some? ==> cell == LinkPrefix + r.value + LinkSuffix
  {
    if |cell| >= |LinkPrefix| + |LinkSuffix|
       && cell[..|LinkPrefix|] == LinkPrefix
       && cell[|cell| - |LinkSuffix|..] == LinkSuffix
    then Some(cell[|LinkPrefix|..|cell| - |LinkSuffix|])
    else None
  }

  /** The link cell loses nothing: the href it was built from can be read back. */
  lemma LinkCellRoundTrip(href: string)
    ensures ParseLinkCell(LinkCell(href)) == if href == "" then None else Some(href)
  {
    if href != "" {
      var cell := LinkCell(href);
      assert cell[..|LinkPrefix|] == LinkPrefix;
      assert cell[|cell| - |LinkSuffix|..] == LinkSuffix;
      assert cell[|LinkPrefix|..|cell| - |LinkSuffix|] == href;
    }
  }

  /** The rows of one section: header, items, blank separator. */
  function Block(s: Section): (r: seq<Row>)
    ensures |r| == 2 + |s.items|
  {
    [HeaderRow(s.title)] + ItemRows(s.items) + [BlankRow()]
  }

  /** The rows of a list of items, one per item, in order. */
  function ItemRows(items: seq<Item>): (r: seq<Row>)
    ensures |r| == |items|
    ensures forall k :: 0 <= k < |items| ==> r[k] == items[k].Cells()
  {
    if items == [] then [] else ItemRows(items[..|items| - 1]) + [items[|items| - 1].Cells()]
  }

  /** Concatenation regroups freely. */
  lemma AppendAssoc<T>(a: seq<T>, b: seq<T>, c: seq<T>)
    ensures (a + b) + c == a + (b + c)
  {
  }

  /** A prefix one longer is the prefix and the next element. */
  lemma TakeSnoc<T>(s: seq<T>, i: nat)
    requires i < |s|
    ensures s[..i] + [s[i]] == s[..i + 1]
  {
  }

  /** Adding one item adds its row at the end. */
  lemma ItemRowsSnoc(items: seq<Item>, x: Item)
    ensures ItemRows(items + [x]) == ItemRows(items) + [x.Cells()]
  {
    assert (items + [x])[..|items|] == items;
  }

  /** The blocks of all sections, in section order. */
  function SectionRows(sections: seq<Section>): seq<Row>
  {
    if sections == [] then []
    else SectionRows(sections[..|sections| - 1]) + Block(sections[|sections| - 1])
  }

  /** The whole table `parseContent` returns. */
  function Layout(pageTitle: string, link: string, sections: seq<Section>): seq<Row>
  {
    [TitleRow(pageTitle, link), BlankRow()] + SectionRows(sections)
  }

  /** Σ over the sections of (2 + number of items). */
  function RowsSpanned(sections: seq<Section>): nat
  {
    if sections == [] then 0
    else RowsSpanned(sections[..|sections| - 1]) + 2 + |sections[|sections| - 1].items|
  }

  /** The index of each section's header row, computed from the item counts alone. */
  function HeaderPositions(sections: seq<Section>): (r: seq<nat>)
    ensures |r| == |sections|
  {
    if sections == [] then []
    else HeaderPositions(sections[..|sections| - 1]) + [2 + RowsSpanned(sections[..|sections| - 1])]
  }

  /** Adding one more section appends its block. */
  lemma LayoutSnoc(pageTitle: string, link: string, sections: seq<Section>, s: Section)
    ensures Layout(pageTitle, link, sections + [s]) == Layout(pageTitle, link, sections) + Block(s)
  {
    assert (sections + [s])[..|sections|] == sections;
  }

  /** The table has 2 + Σ(2 + |items|) rows; a section without items still takes two. */
  lemma {:induction false} LayoutLength(pageTitle: string, link: string, sections: seq<Section>)
    ensures |Layout(pageTitle, link, sections)| == 2 + RowsSpanned(sections)
  {
    if sections != [] {
      var n := |sections| - 1;
      LayoutLength(pageTitle, link, sections[..n]);
      LayoutSnoc(pageTitle, link, sections[..n], sections[n]);
      assert sections[..n] + [sections[n]] == sections;
    }
  }

  /** The table opens with the title row and a blank row. */
  lemma {:induction false} LayoutStart(pageTitle: string, link: string, sections: seq<Section>)
    ensures |Layout(pageTitle, link, sections)| >= 2
    ensures Layout(pageTitle, link, sections)[0] == [pageTitle, link, ""]
    ensures Layout(pageTitle, link, sections)[1] == ["", "", ""]
  {
  }

  /**
   * Section k's block sits at its header position: its header row, then its
   * items in document order, then a blank row.
   */
  lemma {:induction false} BlockAt(pageTitle: string, link: string, sections: seq<Section>, k: nat)
    requires k < |sections|
    ensures HeaderPositions(sections)[k] + 2 + |sections[k].items| <= |Layout(pageTitle, link, sections)|
    ensures var p := HeaderPositions(sections)[k];
            Layout(pageTitle, link, sections)[p..p + 2 + |sections[k].items|] == Block(sections[k])
  {
    var n := |sections| - 1;
    var prefix := sections[..n];
    assert prefix + [sections[n]] == sections;
    LayoutSnoc(pageTitle, link, prefix, sections[n]);
    LayoutLength(pageTitle, link, prefix);
    var before := Layout(pageTitle, link, prefix);
    var p := HeaderPositions(sections)[k];
    if k == n {
      assert p == |before|;
    } else {
      BlockAt(pageTitle, link, prefix, k);
      assert prefix[k] == sections[k];
      assert HeaderPositions(prefix)[k] == p;
      var q := p + 2 + |sections[k].items|;
      assert (before + Block(sections[n]))[p..q] == before[p..q];
    }
  }

  /** Every row of the table has exactly three cells. */
  lemma {:induction false} LayoutCells(pageTitle: string, link: string, sections: seq<Section>)
    ensures forall i :: 0 <= i < |Layout(pageTitle, link, sections)| ==> |Layout(pageTitle, link, sections)[i]| == 3
  {
    if sections != [] {
      var n := |sections| - 1;
      LayoutCells(pageTitle, link, sections[..n]);
      LayoutSnoc(pageTitle, link, sections[..n], sections[n]);
      assert sections[..n] + [sections[n]] == sections;
    }
  }
}
