/** The inputs of the repository's test scripts, as the trees a parser
    builds from them, and the outputs those scripts expect.

    Each case is stated twice: once for any text at the leaves (the
    shape of the output), and once for the test's own strings, where the
    leaves are fixed by the lemma's preconditions. */
module ConverterExamples {
  import opened Wrappers
  import opened Strings
  import opened Dom
  import opened HtmlConverter

  /** An element without attributes. */
  function El(tag: Tag, cs: seq<Node>): Node {
    Elem(tag, [], cs)
  }

  lemma Children1(a: Node, v: Variant)
    ensures Children([a], v) == Convert(a, v)
  {
    assert [a][..0] == [];
  }

  lemma Children2(a: Node, b: Node, v: Variant)
    ensures Children([a, b], v) == Convert(a, v) + Convert(b, v)
  {
    assert [a, b][..1] == [a];
    Children1(a, v);
  }

  lemma Children3(a: Node, b: Node, c: Node, v: Variant)
    ensures Children([a, b, c], v) == Convert(a, v) + Convert(b, v) + Convert(c, v)
  {
    assert [a, b, c][..2] == [a, b];
    Children2(a, b, v);
  }

  lemma Children5(a: Node, b: Node, c: Node, d: Node, e: Node, v: Variant)
    ensures Children([a, b, c, d, e], v) == Convert(a, v) + Convert(b, v) + Convert(c, v) + Convert(d, v) + Convert(e, v)
  {
    assert [a, b, c, d, e][..4][..3] == [a, b, c];
    assert [a, b, c, d, e][..4] == [a, b, c, d];
    Children3(a, b, c, v);
  }

  // ---------------------------------------------------------------------
  // test-server-functions.js: `<p>Hello <strong>bold <em>italic</em></strong> text</p>`

  function EmphasisTree(a: string, b: string, c: string, d: string): Node {
    El(P, [Text(a), El(STRONG, [Text(b), El(EM, [Text(c)])]), Text(d)])
  }

  /** Nested emphasis closes the inner marker first. */
  lemma NestedEmphasis(a: string, b: string, c: string, d: string, v: Variant)
    ensures Convert(EmphasisTree(a, b, c, d), v) == a + "**" + b + "*" + c + "***" + d + "\n\n"
  {
    var em := El(EM, [Text(c)]);
    var strong := El(STRONG, [Text(b), em]);
    Children1(Text(c), v);
    Children2(Text(b), em, v);
    Children3(Text(a), strong, Text(d), v);
  }

  lemma EmphasisExampleText()
    ensures Trim("Hello " + "**" + "bold " + "*" + "italic" + "***" + " text" + "\n\n") == "Hello **bold *italic*** text"
  {
    var s := "Hello **bold *italic*** text";
    assert "Hello " + "**" + "bold " + "*" + "italic" + "***" + " text" + "\n\n" == "" + s + "\n\n";
    TrimFramed("", s, "\n\n");
  }

  lemma NestedEmphasisExample(a: string, b: string, c: string, d: string)
    requires a == "Hello " && b == "bold " && c == "italic" && d == " text"
    ensures HtmlToMarkdown([EmphasisTree(a, b, c, d)], Server) == "Hello **bold *italic*** text"
  {
    NestedEmphasis(a, b, c, d, Server);
    Children1(EmphasisTree(a, b, c, d), Server);
    EmphasisExampleText();
  }

  // ---------------------------------------------------------------------
  // markdown-tests.js, case 1: `<h1>主标题</h1><h2>副标题</h2><p>段落内容</p>`

  function HeadingsBody(a: string, b: string, c: string): seq<Node> {
    [El(H1, [Text(a)]), El(H2, [Text(b)]), El(P, [Text(c)])]
  }

  lemma Headings(a: string, b: string, c: string, v: Variant)
    ensures Children(HeadingsBody(a, b, c), v) == "# " + a + "\n\n" + "## " + b + "\n\n" + c + "\n\n"
  {
    Children1(Text(a), v);
    Children1(Text(b), v);
    Children1(Text(c), v);
    assert Repeat('#', 2) == "##" by {
      assert Repeat('#', 1) == "#" by {
        assert Repeat('#', 0) == "";
      }
    }
    Children3(El(H1, [Text(a)]), El(H2, [Text(b)]), El(P, [Text(c)]), v);
  }

  lemma HeadingsExampleText()
    ensures Trim("# " + "主标题" + "\n\n" + "## " + "副标题" + "\n\n" + "段落内容" + "\n\n") == "# 主标题\n\n## 副标题\n\n段落内容"
  {
    var s := "# 主标题\n\n## 副标题\n\n段落内容";
    assert "# " + "主标题" + "\n\n" + "## " + "副标题" + "\n\n" + "段落内容" + "\n\n" == "" + s + "\n\n";
    TrimFramed("", s, "\n\n");
  }

  lemma HeadingsExample(a: string, b: string, c: string)
    requires a == "主标题" && b == "副标题" && c == "段落内容"
    ensures HtmlToMarkdown(HeadingsBody(a, b, c), Standalone) == "# 主标题\n\n## 副标题\n\n段落内容"
  {
    Headings(a, b, c, Standalone);
    HeadingsExampleText();
  }

  // ---------------------------------------------------------------------
  // markdown-tests.js, case 2:
  // `<p><strong>粗体</strong>和<em>斜体</em>以及<code>代码</code></p>`

  function FormattingTree(a: string, b: string, c: string, d: string, e: string): Node {
    El(P, [El(STRONG, [Text(a)]), Text(b), El(EM, [Text(c)]), Text(d), El(CODE, [Text(e)])])
  }

  lemma Formatting(a: string, b: string, c: string, d: string, e: string, v: Variant)
    ensures Convert(FormattingTree(a, b, c, d, e), v)
      == ("**" + a + "**") + b + ("*" + c + "*") + d + ("`" + e + "`") + "\n\n"
  {
    var strong, em, code := El(STRONG, [Text(a)]), El(EM, [Text(c)]), El(CODE, [Text(e)]);
    Children1(Text(a), v);
    Children1(Text(c), v);
    Children1(Text(e), v);
    Children5(strong, Text(b), em, Text(d), code, v);
  }

  lemma FormattingExampleText()
    ensures Trim(("**" + "粗体" + "**") + "和" + ("*" + "斜体" + "*") + "以及" + ("`" + "代码" + "`") + "\n\n") == "**粗体**和*斜体*以及`代码`"
  {
    var s := "**粗体**和*斜体*以及`代码`";
    assert ("**" + "粗体" + "**") + "和" + ("*" + "斜体" + "*") + "以及" + ("`" + "代码" + "`") + "\n\n" == "" + s + "\n\n";
    TrimFramed("", s, "\n\n");
  }

  lemma FormattingExample(a: string, b: string, c: string, d: string, e: string)
    requires a == "粗体" && b == "和" && c == "斜体" && d == "以及" && e == "代码"
    ensures HtmlToMarkdown([FormattingTree(a, b, c, d, e)], Standalone) == "**粗体**和*斜体*以及`代码`"
  {
    Formatting(a, b, c, d, e, Standalone);
    Children1(FormattingTree(a, b, c, d, e), Standalone);
    FormattingExampleText();
  }

  // ---------------------------------------------------------------------
  // markdown-tests.js, case 3:
  // `<p><a href="https://example.com">链接</a></p><img src="image.jpg" alt="图片">`

  function LinkImageBody(href: string, text: string, src: string, alt: string): seq<Node> {
    [El(P, [Elem(A, [("href", href)], [Text(text)])]), Elem(IMG, [("src", src), ("alt", alt)], [])]
  }

  lemma LinkWithHref(href: string, text: string, v: Variant)
    requires href != ""
    ensures Convert(Elem(A, [("href", href)], [Text(text)]), v) == "[" + text + "](" + href + ")"
  {
    assert GetAttr([("href", href)], "href") == Some(href);
    Children1(Text(text), v);
  }

  lemma ImageWithAlt(src: string, alt: string, v: Variant)
    requires src != "" && alt != ""
    ensures Convert(Elem(IMG, [("src", src), ("alt", alt)], []), v) == "![" + alt + "](" + src + ")"
  {
    assert GetAttr([("src", src), ("alt", alt)], "src") == Some(src);
    assert [("src", src), ("alt", alt)][1..] == [("alt", alt)];
    assert GetAttr([("src", src), ("alt", alt)], "alt") == Some(alt);
  }

  lemma LinkImage(href: string, text: string, src: string, alt: string, v: Variant)
    requires href != "" && src != "" && alt != ""
    ensures Children(LinkImageBody(href, text, src, alt), v)
      == ("[" + text + "](" + href + ")") + "\n\n" + ("![" + alt + "](" + src + ")")
  {
    var a := Elem(A, [("href", href)], [Text(text)]);
    LinkWithHref(href, text, v);
    ImageWithAlt(src, alt, v);
    Children1(a, v);
    Children2(El(P, [a]), Elem(IMG, [("src", src), ("alt", alt)], []), v);
  }

  lemma LinkExampleText()
    ensures "[" + "链接" + "](" + "https://example.com" + ")" == "[链接](https://example.com)"
  {
  }

  lemma ImageExampleText()
    ensures "![" + "图片" + "](" + "image.jpg" + ")" == "![图片](image.jpg)"
  {
  }

  lemma LinkImageExample(href: string, text: string, src: string, alt: string)
    requires href == "https://example.com" && text == "链接" && src == "image.jpg" && alt == "图片"
    ensures HtmlToMarkdown(LinkImageBody(href, text, src, alt), Standalone)
      == "[链接](https://example.com)" + "\n\n" + "![图片](image.jpg)"
  {
    LinkImage(href, text, src, alt, Standalone);
    LinkExampleText();
    ImageExampleText();
    TrimmedIsFixed("[链接](https://example.com)" + "\n\n" + "![图片](image.jpg)");
  }

  // ---------------------------------------------------------------------
  // markdown-tests.js, case 4:
  // `<ul><li>项目1</li><li>项目2</li></ul><ol><li>编号1</li><li>编号2</li></ol>`

  function ListsBody(a: string, b: string, c: string, d: string): seq<Node> {
    [El(UL, [El(LI, [Text(a)]), El(LI, [Text(b)])]), El(OL, [El(LI, [Text(c)]), El(LI, [Text(d)])])]
  }

  lemma TwoItems(a: string, b: string, v: Variant)
    ensures ItemTexts([El(LI, [Text(a)]), El(LI, [Text(b)])], v) == [a, b]
  {
    var x, y := El(LI, [Text(a)]), El(LI, [Text(b)]);
    Children1(Text(a), v);
    Children1(Text(b), v);
    assert [x][..0] == [];
    assert ItemTexts([x], v) == [a];
    assert [x, y][..1] == [x];
  }

  lemma TwoLines(a: string, b: string, ordered: bool)
    ensures NumberedLines([a, b], ordered) == ItemLine(ItemMarker(ordered, 1), a) + ItemLine(ItemMarker(ordered, 2), b)
  {
    assert [a][..0] == [];
    assert NumberedLines([a], ordered) == ItemLine(ItemMarker(ordered, 1), a);
    assert [a, b][..1] == [a];
  }

  /** A list of two `li` items holding the texts `a` and `b`. */
  lemma TwoItemList(tag: Tag, a: string, b: string, v: Variant)
    requires tag == UL || tag == OL
    ensures Convert(El(tag, [El(LI, [Text(a)]), El(LI, [Text(b)])]), v)
      == "\n" + (ItemMarker(tag == OL, 1) + Trim(a) + "\n") + (ItemMarker(tag == OL, 2) + Trim(b) + "\n") + "\n"
  {
    TwoItems(a, b, v);
    TwoLines(a, b, tag == OL);
    ConvertList(El(tag, [El(LI, [Text(a)]), El(LI, [Text(b)])]), v);
  }

  /** The markers of the first two items of a `ul` and of an `ol`. */
  lemma Markers()
    ensures ItemMarker(false, 1) == "- " && ItemMarker(false, 2) == "- "
    ensures ItemMarker(true, 1) == "1. " && ItemMarker(true, 2) == "2. "
  {
    assert DecimalString(1) == "1";
    assert DecimalString(2) == "2";
  }

  lemma Lists(a: string, b: string, c: string, d: string, v: Variant)
    ensures Children(ListsBody(a, b, c, d), v)
      == "\n" + ("- " + Trim(a) + "\n") + ("- " + Trim(b) + "\n") + "\n"
       + ("\n" + ("1. " + Trim(c) + "\n") + ("2. " + Trim(d) + "\n") + "\n")
  {
    TwoItemList(UL, a, b, v);
    TwoItemList(OL, c, d, v);
    Markers();
    Children2(El(UL, [El(LI, [Text(a)]), El(LI, [Text(b)])]), El(OL, [El(LI, [Text(c)]), El(LI, [Text(d)])]), v);
  }

  lemma ListItemsTrimmed()
    ensures Trim("项目1") == "项目1" && Trim("项目2") == "项目2" && Trim("编号1") == "编号1" && Trim("编号2") == "编号2"
  {
    TrimmedIsFixed("项目1");
    TrimmedIsFixed("项目2");
    TrimmedIsFixed("编号1");
    TrimmedIsFixed("编号2");
  }

  lemma ListsExampleText()
    ensures Trim("\n" + ("- " + "项目1" + "\n") + ("- " + "项目2" + "\n") + "\n"
                 + ("\n" + ("1. " + "编号1" + "\n") + ("2. " + "编号2" + "\n") + "\n"))
      == "- 项目1\n- 项目2\n\n\n1. 编号1\n2. 编号2"
  {
    var s := "- 项目1\n- 项目2\n\n\n1. 编号1\n2. 编号2";
    assert "\n" + ("- " + "项目1" + "\n") + ("- " + "项目2" + "\n") + "\n"
           + ("\n" + ("1. " + "编号1" + "\n") + ("2. " + "编号2" + "\n") + "\n") == "\n" + s + "\n\n";
    TrimFramed("\n", s, "\n\n");
  }

  lemma ListsExample(a: string, b: string, c: string, d: string)
    requires a == "项目1" && b == "项目2" && c == "编号1" && d == "编号2"
    ensures HtmlToMarkdown(ListsBody(a, b, c, d), Standalone) == "- 项目1\n- 项目2\n\n\n1. 编号1\n2. 编号2"
  {
    Lists(a, b, c, d, Standalone);
    ListItemsTrimmed();
    ListsExampleText();
  }

  // ---------------------------------------------------------------------
  // markdown-tests.js, case 5: `<blockquote><p>这是一个引用</p></blockquote>`

  function QuoteTree(a: string): Node {
    El(BLOCKQUOTE, [El(P, [Text(a)])])
  }

  /** The paragraph's blank line is trimmed away inside the quote. */
  lemma QuotedParagraph(a: string, v: Variant)
    ensures Convert(QuoteTree(a), v) == "\n> " + ReplaceChar(Trim(a + "\n\n"), '\n', "\n> ") + "\n\n"
  {
    Children1(Text(a), v);
    Children1(El(P, [Text(a)]), v);
  }

  lemma QuoteExampleText(a: string)
    requires a == "这是一个引用"
    ensures Trim(a + "\n\n") == a
    ensures ReplaceChar(a, '\n', "\n> ") == a
    ensures Trim("\n> " + a + "\n\n") == "> 这是一个引用"
  {
    TrimFramed("", a, "\n\n");
    assert "" + a + "\n\n" == a + "\n\n";
    ReplaceCharAbsent(a, '\n', "\n> ");
    TrimFramed("\n", "> " + a, "\n\n");
    assert "\n" + ("> " + a) + "\n\n" == "\n> " + a + "\n\n";
  }

  lemma QuoteExample(a: string)
    requires a == "这是一个引用"
    ensures HtmlToMarkdown([QuoteTree(a)], Standalone) == "> 这是一个引用"
  {
    QuotedParagraph(a, Standalone);
    Children1(QuoteTree(a), Standalone);
    QuoteExampleText(a);
  }

  // ---------------------------------------------------------------------
  // markdown-tests.js, case 6: `<pre><code>console.log("Hello World");</code></pre>`

  function PreCodeTree(a: string): Node {
    El(PRE, [El(CODE, [Text(a)])])
  }

  /** The code is fenced, and still wrapped in backticks inside the fence. */
  lemma PreCode(a: string, v: Variant)
    ensures Convert(PreCodeTree(a), v) == "\n```\n" + ("`" + a + "`") + "\n```\n\n"
  {
    Children1(Text(a), v);
    Children1(El(CODE, [Text(a)]), v);
  }

  lemma PreCodeExampleText(a: string)
    requires a == "console.log(\"Hello World\");"
    ensures Trim("\n```\n" + ("`" + a + "`") + "\n```\n\n") == "```\n`" + a + "`\n```"
  {
    var s := "```\n`" + a + "`\n```";
    assert "\n```\n" + ("`" + a + "`") + "\n```\n\n" == "\n" + s + "\n\n";
    TrimFramed("\n", s, "\n\n");
  }

  lemma PreCodeExample(a: string)
    requires a == "console.log(\"Hello World\");"
    ensures HtmlToMarkdown([PreCodeTree(a)], Standalone) == "```\n`" + a + "`\n```"
  {
    PreCode(a, Standalone);
    Children1(PreCodeTree(a), Standalone);
    PreCodeExampleText(a);
  }

  // ---------------------------------------------------------------------
  // A two-by-two table, as a parser builds it (rows inside an implicit
  // `tbody`), through the server converter: a pipe table in the form of
  // section 4.10 of the GitHub Flavored Markdown specification.

  function Row(tag: Tag, x: string, y: string): Node {
    El(TR, [El(tag, [Text(x)]), El(tag, [Text(y)])])
  }

  function GridTable(h1: string, h2: string, a: string, b: string): Node {
    El(TABLE, [El(TBODY, [Row(TH, h1, h2), Row(TD, a, b)])])
  }

  lemma GridRows(h1: string, h2: string, a: string, b: string)
    ensures TableRows(GridTable(h1, h2, a, b).children) == [Row(TH, h1, h2), Row(TD, a, b)]
  {
    var r1, r2 := Row(TH, h1, h2), Row(TD, a, b);
    assert [r1][..0] == [];
    assert TrChildren([r1]) == [r1];
    assert [r1, r2][..1] == [r1];
    assert TrChildren([r1, r2]) == [r1, r2];
    var cs := GridTable(h1, h2, a, b).children;
    assert cs[..0] == [];
  }

  /** A header or data cell holding a text converts to that text. */
  lemma CellContent(tag: Tag, x: string, v: Variant)
    requires tag == TH || tag == TD
    ensures IsCell(El(tag, [Text(x)])) && Convert(El(tag, [Text(x)]), v) == x
  {
    assert KindOf(tag) == Passthrough;
    Children1(Text(x), v);
  }

  lemma RowCells(tag: Tag, x: string, y: string, v: Variant)
    requires tag == TH || tag == TD
    ensures Cells(Row(tag, x, y).children, v) == [CellText(x), CellText(y)]
  {
    var c1, c2 := El(tag, [Text(x)]), El(tag, [Text(y)]);
    CellContent(tag, x, v);
    CellContent(tag, y, v);
    assert [c1][..0] == [];
    assert Cells([c1], v) == [CellText(x)];
    assert [c1, c2][..1] == [c1];
  }

  lemma TwoColumns(x: string, y: string)
    ensures Join([x, y], " | ") == x + " | " + y
  {
    assert [x, y][..1] == [x];
  }

  lemma TwoColumnSeparator()
    ensures SeparatorLine(2) == "| --- | --- |\n"
  {
    var dashes := seq(2, _ => " --- ");
    assert dashes == [" --- ", " --- "];
    assert dashes[..1] == [" --- "];
    assert Join(dashes, "|") == " --- " + "|" + " --- ";
  }

  lemma HeaderRow(h1: string, h2: string, v: Variant)
    ensures RowMd(Row(TH, h1, h2), true, v) == "| " + (CellText(h1) + " | " + CellText(h2)) + " |\n" + "| --- | --- |\n"
  {
    RowCells(TH, h1, h2, v);
    TwoColumns(CellText(h1), CellText(h2));
    TwoColumnSeparator();
  }

  lemma BodyRow(a: string, b: string, v: Variant)
    ensures RowMd(Row(TD, a, b), false, v) == "| " + (CellText(a) + " | " + CellText(b)) + " |\n"
  {
    RowCells(TD, a, b, v);
    TwoColumns(CellText(a), CellText(b));
  }

  lemma TwoRowsMd(r1: Node, r2: Node, t: Node, v: Variant)
    requires r1 < t && r2 < t
    ensures RowsMd([r1, r2], t, v) == RowMd(r1, true, v) + RowMd(r2, false, v)
  {
    assert [r1, r2][..1] == [r1];
    assert [r1][..0] == [];
    assert RowsMd([r1], t, v) == RowMd(r1, true, v);
  }

  /** The header row, the separator under it, the body row, framed by
      newlines; empty cells would read as a single space. */
  lemma Grid(h1: string, h2: string, a: string, b: string)
    ensures Convert(GridTable(h1, h2, a, b), Server)
      == "\n" + (("| " + (CellText(h1) + " | " + CellText(h2)) + " |\n" + "| --- | --- |\n")
                + ("| " + (CellText(a) + " | " + CellText(b)) + " |\n")) + "\n"
  {
    var t := GridTable(h1, h2, a, b);
    var r1, r2 := Row(TH, h1, h2), Row(TD, a, b);
    GridRows(h1, h2, a, b);
    TableRowsBelow(t, t.children);
    ConvertTable(t, Server);
    TwoRowsMd(r1, r2, t, Server);
    HeaderRow(h1, h2, Server);
    BodyRow(a, b, Server);
  }

  lemma GridExampleText()
    ensures CellText("H1") == "H1" && CellText("H2") == "H2" && CellText("a") == "a" && CellText("b") == "b"
  {
    TrimmedIsFixed("H1");
    TrimmedIsFixed("H2");
    TrimmedIsFixed("a");
    TrimmedIsFixed("b");
  }

  lemma GridExampleLines()
    ensures "\n" + (("| " + ("H1" + " | " + "H2") + " |\n" + "| --- | --- |\n") + ("| " + ("a" + " | " + "b") + " |\n")) + "\n"
      == "\n| H1 | H2 |\n| --- | --- |\n| a | b |\n\n"
  {
  }

  lemma GridExample(h1: string, h2: string, a: string, b: string)
    requires h1 == "H1" && h2 == "H2" && a == "a" && b == "b"
    ensures Convert(GridTable(h1, h2, a, b), Server) == "\n| H1 | H2 |\n| --- | --- |\n| a | b |\n\n"
  {
    Grid(h1, h2, a, b);
    GridExampleText();
    GridExampleLines();
  }
}
