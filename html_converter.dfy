/** The tree-walking HTML-to-Markdown converter of
    server/html-converter.js, and its table-less twin in
    test/markdown-converter.js.

    `Convert` is the specification: structural recursion from a node to
    its Markdown text, one template per tag. `ConvertElementToMarkdown`
    is the converter as the source writes it, with its accumulator loops
    (`processChildren`, the `ul`/`ol` loops, `processTable`), proved to
    compute `Convert`. */
module HtmlConverter {
  import opened Wrappers
  import opened Strings
  import opened Dom

  /** Which copy of `convertElementToMarkdown`: the server's, which has a
      `table` case, or the standalone test copy, which does not. */
  datatype Variant = Server | Standalone

  predicate IsTag(n: Node, tag: Tag) {
    n.Elem? && n.tag == tag
  }

  /** N for `hN`, 0 for every other tag. */
  function HeadingLevel(tag: Tag): (level: nat)
    ensures level <= 6
    ensures level > 0 <==> tag in {H1, H2, H3, H4, H5, H6}
  {
    match tag
    case H1 => 1
    case H2 => 2
    case H3 => 3
    case H4 => 4
    case H5 => 5
    case H6 => 6
    case _ => 0
  }

  /** How the `switch` of `convertElementToMarkdown` treats a tag: one
      value per group of `case` labels sharing a body. */
  datatype Kind =
    | Heading | Paragraph | Bold | Italic | InlineCode | Preformatted | LineBreak
    | Link | Image | BulletList | NumberedList | Quote | Table | Block | Passthrough

  function KindOf(tag: Tag): Kind {
    match tag
    case H1 | H2 | H3 | H4 | H5 | H6 => Heading
    case P => Paragraph
    case STRONG | B => Bold
    case EM | I => Italic
    case CODE => InlineCode
    case PRE => Preformatted
    case BR => LineBreak
    case A => Link
    case IMG => Image
    case UL => BulletList
    case OL => NumberedList
    case BLOCKQUOTE => Quote
    case TABLE => Table
    case DIV | SECTION | ARTICLE | MAIN | HEADER | FOOTER | NAV | ASIDE => Block
    case _ => Passthrough
  }

  predicate IsRowGroup(n: Node) {
    IsTag(n, THEAD) || IsTag(n, TBODY) || IsTag(n, TFOOT)
  }

  predicate IsCell(n: Node) {
    IsTag(n, TH) || IsTag(n, TD)
  }

  // ---------------------------------------------------------------------
  // Templates

  /** The `a` template: `[text](href)` for a non-empty `href`, else the
      text alone. */
  function LinkMd(href: Option<string>, text: string): string {
    if href.Some? && href.value != "" then "[" + text + "](" + href.value + ")" else text
  }

  /** The `img` template: nothing without a non-empty `src`; the alt text
      defaults to `Image` when missing or empty. */
  function ImageMd(src: Option<string>, alt: Option<string>): string {
    var altText := if alt.Some? && alt.value != "" then alt.value else "Image";
    if src.Some? && src.value != "" then "![" + altText + "](" + src.value + ")" else ""
  }

  /** The `blockquote` template applied to the trimmed children. */
  function QuoteMd(content: string): string {
    "\n> " + ReplaceChar(content, '\n', "\n> ") + "\n\n"
  }

  /** The block-container template (div, section, ... aside): nothing for
      empty content, else the content ending in a newline, a newline being
      added unless the content already ends with a blank line. */
  function BlockMd(content: string): (r: string)
    ensures r == "" <==> content == ""
    ensures r == content || r == content + "\n"
    ensures r != "" ==> r[|r| - 1] == '\n'
  {
    if content == "" then ""
    else if EndsWith(content, "\n\n") then
      assert content[|content| - 1] == "\n\n"[1];
      content
    else content + "\n"
  }

  /** The list-item prefix: `- ` in `ul`, `k. ` in `ol`. */
  function ItemMarker(ordered: bool, k: nat): string {
    if ordered then DecimalString(k) + ". " else "- "
  }

  /** One list line: the marker, the trimmed item text, a newline. */
  function ItemLine(marker: string, item: string): string {
    marker + Trim(item) + "\n"
  }

  /** The separator line under the first row: one ` --- ` per cell. */
  function SeparatorLine(columns: nat): string {
    "|" + Join(seq(columns, _ => " --- "), "|") + "|\n"
  }

  /** The line of a row with the given cells, and the separator when it is
      row 0; nothing for a row without cells. */
  function RowText(cells: seq<string>, first: bool): string {
    if |cells| > 0 then "| " + Join(cells, " | ") + " |\n" + (if first then SeparatorLine(|cells|) else "")
    else ""
  }

  /** The lines of the list items, numbered 1, 2, ... in order. */
  function NumberedLines(items: seq<string>, ordered: bool): string
  {
    if items == [] then ""
    else NumberedLines(items[..|items| - 1], ordered) + ItemLine(ItemMarker(ordered, |items|), items[|items| - 1])
  }

  // ---------------------------------------------------------------------
  // Table rows

  /** The `tr` elements among `cs`, in order. */
  function TrChildren(cs: seq<Node>): seq<Node>
  {
    if cs == [] then []
    else TrChildren(cs[..|cs| - 1]) + (if IsTag(cs[|cs| - 1], TR) then [cs[|cs| - 1]] else [])
  }

  /** The rows `processTable` collects from a table's children `cs`: each
      direct `tr`, and the `tr` children of each `thead`/`tbody`/`tfoot`,
      in document order. */
  function TableRows(cs: seq<Node>): seq<Node>
  {
    if cs == [] then []
    else
      var c := cs[|cs| - 1];
      TableRows(cs[..|cs| - 1])
      + (if IsTag(c, TR) then [c] else if IsRowGroup(c) then TrChildren(c.children) else [])
  }

  lemma {:induction false} TrChildrenBelow(g: Node, cs: seq<Node>)
    requires g.Elem? && cs <= g.children
    ensures forall k :: 0 <= k < |TrChildren(cs)| ==> TrChildren(cs)[k] < g
  {
    if cs != [] {
      TrChildrenBelow(g, cs[..|cs| - 1]);
    }
  }

  /** Every collected row is a child or grandchild of the table. */
  lemma {:induction false} TableRowsBelow(t: Node, cs: seq<Node>)
    requires t.Elem? && cs <= t.children
    ensures forall k :: 0 <= k < |TableRows(cs)| ==> TableRows(cs)[k] < t
  {
    if cs != [] {
      TableRowsBelow(t, cs[..|cs| - 1]);
      var c := cs[|cs| - 1];
      if c.Elem? {
        TrChildrenBelow(c, c.children);
      }
    }
  }

  // ---------------------------------------------------------------------
  // The converter as a function

  /** The Markdown text of a node: a text node's text, nothing for other
      non-element nodes, and one template per tag for elements. */
  function Convert(n: Node, v: Variant): string
    decreases n, 2
  {
    match n
    case Text(s) => s
    case Other => ""
    case Elem(tag, attrs, cs) =>
      match KindOf(tag)
      case Heading => Repeat('#', HeadingLevel(tag)) + " " + Children(cs, v) + "\n\n"
      case Paragraph => Children(cs, v) + "\n\n"
      case Bold => "**" + Children(cs, v) + "**"
      case Italic => "*" + Children(cs, v) + "*"
      case InlineCode => "`" + Children(cs, v) + "`"
      case Preformatted => "\n```\n" + Children(cs, v) + "\n```\n\n"
      case LineBreak => "\n"
      case Link => LinkMd(GetAttr(attrs, "href"), Children(cs, v))
      case Image => ImageMd(GetAttr(attrs, "src"), GetAttr(attrs, "alt"))
      case BulletList => "\n" + NumberedLines(ItemTexts(cs, v), false) + "\n"
      case NumberedList => "\n" + NumberedLines(ItemTexts(cs, v), true) + "\n"
      case Quote => QuoteMd(Trim(Children(cs, v)))
      case Table =>
        if v == Server then
          TableRowsBelow(n, cs);
          "\n" + RowsMd(TableRows(cs), n, v) + "\n"
        else Children(cs, v)
      case Block => BlockMd(Children(cs, v))
      case Passthrough => Children(cs, v)
  }

  /** `processChildren`: the children's texts, concatenated in order. */
  function Children(cs: seq<Node>, v: Variant): string
    decreases cs, 0
  {
    if cs == [] then "" else Children(cs[..|cs| - 1], v) + Convert(cs[|cs| - 1], v)
  }

  /** The converted texts of the `li` children among `cs`, in order. */
  function ItemTexts(cs: seq<Node>, v: Variant): seq<string>
    decreases cs, 0
  {
    if cs == [] then []
    else
      var c := cs[|cs| - 1];
      ItemTexts(cs[..|cs| - 1], v) + (if IsTag(c, LI) then [Convert(c, v)] else [])
  }

  /** The cell texts of a row's children: each `th`/`td` trimmed, an empty
      one replaced by a single space. */
  function Cells(cs: seq<Node>, v: Variant): seq<string>
    decreases cs, 0
  {
    if cs == [] then []
    else
      var c := cs[|cs| - 1];
      Cells(cs[..|cs| - 1], v)
      + (if IsCell(c) then [CellText(Convert(c, v))] else [])
  }

  /** A cell's converted text trimmed, a single space standing in for an
      empty cell so that the row keeps its column. */
  function CellText(content: string): (r: string)
    ensures r != ""
    ensures r == " " || r == Trim(content)
  {
    var t := Trim(content);
    if t == "" then " " else t
  }

  /** The text of one row; `first` says whether it is row 0. */
  function RowMd(r: Node, first: bool, v: Variant): string
    decreases r, 1
  {
    if r.Elem? then RowText(Cells(r.children, v), first) else ""
  }

  /** The text of `rows.forEach` in `processTable`. */
  function RowsMd(rows: seq<Node>, ghost t: Node, v: Variant): string
    requires forall k :: 0 <= k < |rows| ==> rows[k] < t
    decreases t, 1, |rows|
  {
    if rows == [] then ""
    else RowsMd(rows[..|rows| - 1], t, v) + RowMd(rows[|rows| - 1], |rows| == 1, v)
  }

  /** `htmlToMarkdown` (Server) and `testHtmlToMarkdown` (Standalone) on a
      parsed body: the trimmed concatenation of the body's children. */
  function HtmlToMarkdown(body: seq<Node>, v: Variant): string
  {
    Trim(Children(body, v))
  }

  // ---------------------------------------------------------------------
  // One loop step at a time

  /** Appending `line` to `prefix + a` gives `prefix + next` when `next`
      is `a + line`. */
  lemma AppendStep(acc: string, prefix: string, a: string, line: string, next: string)
    requires acc == prefix + a && next == a + line
    ensures acc + line == prefix + next
  {
  }

  lemma ChildrenSnoc(cs: seq<Node>, i: nat, v: Variant)
    requires i < |cs|
    ensures Children(cs[..i + 1], v) == Children(cs[..i], v) + Convert(cs[i], v)
  {
    var s := cs[..i + 1];
    assert s[..|s| - 1] == cs[..i];
  }

  lemma ItemTextsSnoc(cs: seq<Node>, i: nat, v: Variant)
    requires i < |cs|
    ensures ItemTexts(cs[..i + 1], v) == ItemTexts(cs[..i], v) + (if IsTag(cs[i], LI) then [Convert(cs[i], v)] else [])
    ensures !IsTag(cs[i], LI) ==> ItemTexts(cs[..i + 1], v) == ItemTexts(cs[..i], v)
  {
    var s := cs[..i + 1];
    assert s[..|s| - 1] == cs[..i];
  }

  lemma NumberedLinesSnoc(items: seq<string>, x: string, ordered: bool)
    ensures NumberedLines(items + [x], ordered) == NumberedLines(items, ordered) + ItemLine(ItemMarker(ordered, |items| + 1), x)
  {
    assert (items + [x])[..|items|] == items;
  }

  /** One step of the list loops over an `li` child: its line, numbered by
      the `li` children before it, extends the text. */
  lemma ListItemStep(cs: seq<Node>, i: nat, ordered: bool, v: Variant, acc: string, item: string)
    requires i < |cs| && IsTag(cs[i], LI) && item == Convert(cs[i], v)
    requires acc == "\n" + NumberedLines(ItemTexts(cs[..i], v), ordered)
    ensures acc + ItemLine(ItemMarker(ordered, |ItemTexts(cs[..i], v)| + 1), item)
      == "\n" + NumberedLines(ItemTexts(cs[..i + 1], v), ordered)
    ensures |ItemTexts(cs[..i + 1], v)| == |ItemTexts(cs[..i], v)| + 1
  {
    var items := ItemTexts(cs[..i], v);
    ItemTextsSnoc(cs, i, v);
    NumberedLinesSnoc(items, item, ordered);
    var line := ItemLine(ItemMarker(ordered, |items| + 1), item);
    AppendStep(acc, "\n", NumberedLines(items, ordered), line, NumberedLines(ItemTexts(cs[..i + 1], v), ordered));
  }

  /** The `ul` loop's line for an `li` child, as the loop writes it. */
  lemma BulletItemStep(cs: seq<Node>, i: nat, v: Variant, acc: string, item: string)
    requires i < |cs| && IsTag(cs[i], LI) && item == Convert(cs[i], v)
    requires acc == "\n" + NumberedLines(ItemTexts(cs[..i], v), false)
    ensures acc + ("- " + Trim(item) + "\n") == "\n" + NumberedLines(ItemTexts(cs[..i + 1], v), false)
  {
    ListItemStep(cs, i, false, v, acc, item);
  }

  /** The `ul` and `ol` cases. */
  lemma ConvertList(n: Node, v: Variant)
    requires n.Elem? && (n.tag == UL || n.tag == OL)
    ensures Convert(n, v) == "\n" + NumberedLines(ItemTexts(n.children, v), n.tag == OL) + "\n"
  {
  }

  /** The `table` case of the server converter. */
  lemma ConvertTable(t: Node, v: Variant)
    requires t.Elem? && t.tag == TABLE && v == Server
    requires forall k :: 0 <= k < |TableRows(t.children)| ==> TableRows(t.children)[k] < t
    ensures Convert(t, v) == "\n" + RowsMd(TableRows(t.children), t, v) + "\n"
  {
  }

  lemma TrChildrenSnoc(gs: seq<Node>, j: nat)
    requires j < |gs|
    ensures TrChildren(gs[..j + 1]) == TrChildren(gs[..j]) + (if IsTag(gs[j], TR) then [gs[j]] else [])
    ensures !IsTag(gs[j], TR) ==> TrChildren(gs[..j + 1]) == TrChildren(gs[..j])
  {
    var s := gs[..j + 1];
    assert s[..|s| - 1] == gs[..j];
  }

  lemma TableRowsSnoc(cs: seq<Node>, i: nat)
    requires i < |cs|
    ensures IsTag(cs[i], TR) ==> TableRows(cs[..i + 1]) == TableRows(cs[..i]) + [cs[i]]
    ensures !IsTag(cs[i], TR) && IsRowGroup(cs[i]) ==> TableRows(cs[..i + 1]) == TableRows(cs[..i]) + TrChildren(cs[i].children)
    ensures !IsTag(cs[i], TR) && !IsRowGroup(cs[i]) ==> TableRows(cs[..i + 1]) == TableRows(cs[..i])
  {
    var s := cs[..i + 1];
    assert s[..|s| - 1] == cs[..i];
  }

  lemma CellsSnoc(cs: seq<Node>, j: nat, v: Variant)
    requires j < |cs|
    ensures Cells(cs[..j + 1], v)
      == Cells(cs[..j], v) + (if IsCell(cs[j]) then [var t := Trim(Convert(cs[j], v)); if t == "" then " " else t] else [])
    ensures !IsCell(cs[j]) ==> Cells(cs[..j + 1], v) == Cells(cs[..j], v)
  {
    var s := cs[..j + 1];
    assert s[..|s| - 1] == cs[..j];
  }

  lemma RowsMdSnoc(rows: seq<Node>, k: nat, t: Node, v: Variant)
    requires k < |rows| && forall m :: 0 <= m < |rows| ==> rows[m] < t
    ensures RowsMd(rows[..k + 1], t, v) == RowsMd(rows[..k], t, v) + RowMd(rows[k], k == 0, v)
  {
    var s := rows[..k + 1];
    assert s[..|s| - 1] == rows[..k];
  }

  // ---------------------------------------------------------------------
  // The converter as written: recursion plus accumulator loops.

  /** `convertElementToMarkdown(element)`: "" for a null element, else
      the node's Markdown text. */
  method ConvertElementToMarkdown(element: Option<Node>, v: Variant) returns (md: string)
    ensures element.None? ==> md == ""
    ensures element.Some? ==> md == Convert(element.value, v)
  {
    if element.None? {
      return "";
    }
    md := ConvertNode(element.value, v);
  }

  /** The `switch` over the tag. */
  method ConvertNode(n: Node, v: Variant) returns (md: string)
    ensures md == Convert(n, v)
    decreases n, 1
  {
    match n {
      case Text(s) =>
        md := s;
      case Other =>
        md := "";
      case Elem(tag, attrs, cs) =>
        match KindOf(tag) {
          case Heading | Paragraph | Bold | Italic | InlineCode | Preformatted =>
            md := ConvertFormatting(n, v);
          case LineBreak =>
            md := "\n";
          case Link =>
            var href := GetAttr(attrs, "href");
            var linkText := ProcessChildren(n, v);
            md := if href.Some? && href.value != "" then "[" + linkText + "](" + href.value + ")" else linkText;
          case Image =>
            var src := GetAttr(attrs, "src");
            var alt := GetAttr(attrs, "alt");
            var altText := if alt.Some? && alt.value != "" then alt.value else "Image";
            md := if src.Some? && src.value != "" then "![" + altText + "](" + src.value + ")" else "";
          case BulletList =>
            md := ProcessUnorderedList(n, v);
          case NumberedList =>
            md := ProcessOrderedList(n, v);
          case Quote =>
            md := ConvertQuote(n, v);
          case Table =>
            if v == Server {
              md := ProcessTable(n, v);
            } else {
              md := ProcessChildren(n, v);
            }
          case Block =>
            md := ConvertContainer(n, v);
          case Passthrough =>
            md := ProcessChildren(n, v);
        }
    }
  }

  /** The cases of the `switch` that wrap the children's text: headings,
      paragraphs, bold, italic, inline code and preformatted blocks. */
  method ConvertFormatting(n: Node, v: Variant) returns (md: string)
    requires n.Elem? && KindOf(n.tag) in {Heading, Paragraph, Bold, Italic, InlineCode, Preformatted}
    ensures md == Convert(n, v)
    decreases n, 0, 1
  {
    var inner := ProcessChildren(n, v);
    match KindOf(n.tag) {
      case Heading =>
        md := Repeat('#', HeadingLevel(n.tag)) + " " + inner + "\n\n";
      case Paragraph =>
        md := inner + "\n\n";
      case Bold =>
        md := "**" + inner + "**";
      case Italic =>
        md := "*" + inner + "*";
      case InlineCode =>
        md := "`" + inner + "`";
      case Preformatted =>
        md := "\n```\n" + inner + "\n```\n\n";
    }
  }

  /** The `blockquote` case: `> ` in front of every line of the trimmed
      content. */
  method ConvertQuote(n: Node, v: Variant) returns (md: string)
    requires n.Elem? && KindOf(n.tag) == Quote
    ensures md == Convert(n, v)
    decreases n, 0, 1
  {
    var inner := ProcessChildren(n, v);
    var quoteContent := Trim(inner);
    md := "\n> " + ReplaceChar(quoteContent, '\n', "\n> ") + "\n\n";
  }

  /** The block-container cases (`div`, `section`, ...): the children's
      text, ended by a newline unless it already ends with a blank line. */
  method ConvertContainer(n: Node, v: Variant) returns (md: string)
    requires n.Elem? && KindOf(n.tag) == Block
    ensures md == Convert(n, v)
    decreases n, 0, 1
  {
    var childContent := ProcessChildren(n, v);
    md := if childContent != "" then childContent + (if EndsWith(childContent, "\n\n") then "" else "\n") else "";
  }

  /** `processChildren`. */
  method ProcessChildren(n: Node, v: Variant) returns (result: string)
    requires n.Elem?
    ensures result == Children(n.children, v)
    decreases n, 0, 0
  {
    var cs := n.children;
    result := "";
    for i := 0 to |cs|
      invariant result == Children(cs[..i], v)
    {
      ChildrenSnoc(cs, i, v);
      var md := ConvertNode(cs[i], v);
      result := result + md;
    }
    assert cs[..|cs|] == cs;
  }

  /** `htmlToMarkdown` (and `testHtmlToMarkdown`) on the parsed body: the
      body's children converted in order, the whole trimmed. */
  method ConvertBody(body: seq<Node>, v: Variant) returns (md: string)
    ensures md == HtmlToMarkdown(body, v)
  {
    var result := "";
    for i := 0 to |body|
      invariant result == Children(body[..i], v)
    {
      ChildrenSnoc(body, i, v);
      var part := ConvertNode(body[i], v);
      result := result + part;
    }
    assert body[..|body|] == body;
    md := Trim(result);
  }

  /** The `ul` case: a dash line for each `li` child. */
  method ProcessUnorderedList(n: Node, v: Variant) returns (md: string)
    requires n.Elem?
    ensures md == "\n" + NumberedLines(ItemTexts(n.children, v), false) + "\n"
    decreases n, 0
  {
    var cs := n.children;
    var ulResult := "\n";
    for i := 0 to |cs|
      invariant ulResult == "\n" + NumberedLines(ItemTexts(cs[..i], v), false)
    {
      if IsTag(cs[i], LI) {
        var item := ConvertNode(cs[i], v);
        BulletItemStep(cs, i, v, ulResult, item);
        var line := "- " + Trim(item) + "\n";
        ulResult := ulResult + line;
      } else {
        ItemTextsSnoc(cs, i, v);
      }
    }
    assert cs[..|cs|] == cs;
    md := ulResult + "\n";
  }

  /** The body of the `ol` loop for an `li` child: its numbered line. */
  method OrderedItemLine(c: Node, counter: nat, v: Variant, ghost n: Node) returns (line: string)
    requires c < n
    ensures line == ItemLine(ItemMarker(true, counter), Convert(c, v))
    decreases n, 0, 0
  {
    var itemContent := ConvertNode(c, v);
    line := DecimalString(counter) + ". " + Trim(itemContent) + "\n";
  }

  /** The `ol` case: a numbered line for each `li` child, the counter
      advancing only on `li` children. */
  method ProcessOrderedList(n: Node, v: Variant) returns (md: string)
    requires n.Elem?
    ensures md == "\n" + NumberedLines(ItemTexts(n.children, v), true) + "\n"
    decreases n, 0, 1
  {
    var cs := n.children;
    var olResult := "\n";
    var counter := 1;
    for i := 0 to |cs|
      invariant olResult == "\n" + NumberedLines(ItemTexts(cs[..i], v), true)
      invariant counter == |ItemTexts(cs[..i], v)| + 1
    {
      if IsTag(cs[i], LI) {
        var line := OrderedItemLine(cs[i], counter, v, n);
        ListItemStep(cs, i, true, v, olResult, Convert(cs[i], v));
        olResult := olResult + line;
        counter := counter + 1;
      } else {
        ItemTextsSnoc(cs, i, v);
      }
    }
    assert cs[..|cs|] == cs;
    md := olResult + "\n";
  }

  /** The row-collecting loop of `processTable`. */
  method CollectRows(t: Node) returns (rows: seq<Node>)
    requires t.Elem?
    ensures rows == TableRows(t.children)
  {
    var cs := t.children;
    rows := [];
    for i := 0 to |cs|
      invariant rows == TableRows(cs[..i])
    {
      TableRowsSnoc(cs, i);
      var child := cs[i];
      if IsTag(child, TR) {
        rows := rows + [child];
      } else if IsRowGroup(child) {
        var gs := child.children;
        for j := 0 to |gs|
          invariant rows == TableRows(cs[..i]) + TrChildren(gs[..j])
        {
          TrChildrenSnoc(gs, j);
          if IsTag(gs[j], TR) {
            rows := rows + [gs[j]];
          }
        }
        assert gs[..|gs|] == gs;
      }
    }
    assert cs[..|cs|] == cs;
  }

  /** The cell-collecting loop for one row of `processTable`. */
  method CollectCells(row: Node, v: Variant, ghost t: Node) returns (cells: seq<string>)
    requires row.Elem? && row < t
    ensures cells == Cells(row.children, v)
    decreases t, 0, 0
  {
    var rcs := row.children;
    cells := [];
    for j := 0 to |rcs|
      invariant cells == Cells(rcs[..j], v)
    {
      CellsSnoc(rcs, j, v);
      if IsCell(rcs[j]) {
        var cellContent := ConvertNode(rcs[j], v);
        cellContent := Trim(cellContent);
        cells := cells + [if cellContent == "" then " " else cellContent];
      }
    }
    assert rcs[..|rcs|] == rcs;
  }

  /** The body of `rows.forEach` for one row: its line when it has
      cells, followed by the separator when it is row 0. */
  method EmitRow(row: Node, rowIndex: nat, v: Variant, ghost t: Node) returns (line: string)
    requires row < t
    ensures line == RowMd(row, rowIndex == 0, v)
    decreases t, 0, 1
  {
    var cells: seq<string> := [];
    if row.Elem? {
      cells := CollectCells(row, v, t);
    }
    line := "";
    if |cells| > 0 {
      line := "| " + Join(cells, " | ") + " |\n";
      if rowIndex == 0 {
        line := line + "|" + Join(seq(|cells|, _ => " --- "), "|") + "|\n";
      }
    }
  }

  /** The `rows.forEach` loop of `processTable`: the table's text so far,
      starting from its leading newline. */
  method EmitRows(rows: seq<Node>, v: Variant, ghost t: Node) returns (tableMarkdown: string)
    requires forall k :: 0 <= k < |rows| ==> rows[k] < t
    ensures tableMarkdown == "\n" + RowsMd(rows, t, v)
    decreases t, 0, 2
  {
    tableMarkdown := "\n";
    for k := 0 to |rows|
      invariant tableMarkdown == "\n" + RowsMd(rows[..k], t, v)
    {
      RowsMdSnoc(rows, k, t, v);
      var line := EmitRow(rows[k], k, v, t);
      AppendStep(tableMarkdown, "\n", RowsMd(rows[..k], t, v), line, RowsMd(rows[..k + 1], t, v));
      tableMarkdown := tableMarkdown + line;
    }
    assert rows[..|rows|] == rows;
  }

  /** `processTable`: collect the rows, then emit one line per row that
      has cells, and the separator after row 0. */
  method ProcessTable(t: Node, v: Variant) returns (md: string)
    requires t.Elem? && t.tag == TABLE && v == Server
    ensures md == Convert(t, v)
    decreases t, 0, 3
  {
    var rows := CollectRows(t);
    TableRowsBelow(t, t.children);
    var tableMarkdown := EmitRows(rows, v, t);
    md := tableMarkdown + "\n";
    ConvertTable(t, v);
  }
}
