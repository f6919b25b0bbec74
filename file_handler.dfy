/** The finishing steps of server/file-handler.js: `escapeHtml`, the HTML
    page that wraps a capture with its metadata
    (`generateFullHtmlContent`), the Markdown file with its title
    (`generateMarkdownContent`), and the names `saveFiles` gives the two
    files.

    The page and the Markdown text are strings; writing them to disk is
    not part of the model. `htmlToMarkdown` is `HtmlConverter.HtmlToMarkdown`
    on the parsed tree, and the hostname of `new URL(info.url)` is a
    function parameter that answers `None` when the URL does not parse. */
module FileHandler {
  import opened Wrappers
  import opened Strings
  import opened Dom
  import HtmlConverter

  // ---------------------------------------------------------------------
  // The request's `info` object

  /** The statistics the content script sends as `info.linkStats`; a
      counter the sender leaves out is 0 and a flag it leaves out is
      false, which is how `|| 0` and the conditionals read them. */
  datatype LinkStats = LinkStats(
    totalImages: nat, totalLinks: nat, hasBackgroundImages: bool,
    styledElements: nat, pseudoElements: nat, animatedElements: nat, hasKeyframes: bool)

  /** The `info` object of a capture request. A field that is missing (or
      an `info` that is missing altogether, read through `info?.`) is
      `None`. */
  datatype Info = Info(
    tagName: Option<string>, id: Option<string>, className: Option<string>,
    textContent: Option<string>, url: Option<string>, timestamp: Option<string>,
    baseUrl: Option<string>, pageTitle: Option<string>, linkStats: Option<LinkStats>)

  /** ECMAScript truthiness of an optional string: absent and empty are
      falsy. */
  predicate Truthy(v: Option<string>) {
    v.Some? && v.value != ""
  }

  /** `a || b` on optional strings. */
  function Or(a: Option<string>, b: Option<string>): (r: Option<string>)
    ensures Truthy(r) <==> Truthy(a) || Truthy(b)
  {
    if Truthy(a) then a else b
  }

  // ---------------------------------------------------------------------
  // escapeHtml

  /** The characters that would open or close markup or an attribute
      value. */
  predicate IsMarkup(c: char) {
    c == '<' || c == '>' || c == '"' || c == '\''
  }

  /** The replacement texts of the five replaces, in the order the
      replaces run. */
  datatype Entities = Entities(amp: string, lt: string, gt: string, quot: string, apos: string)

  /** The entities `escapeHtml` writes. */
  const HtmlEntities := Entities("&amp;", "&lt;", "&gt;", "&quot;", "&#039;")

  /** No replacement text holds a character that a later replace
      targets. */
  predicate Unambiguous(en: Entities) {
    '<' !in en.amp && '>' !in en.amp + en.lt && '"' !in en.amp + en.lt + en.gt
    && '\'' !in en.amp + en.lt + en.gt + en.quot
  }

  /** Five global replaces in a row, `&` first. */
  function Replaces(s: string, en: Entities): string {
    var amp := ReplaceChar(s, '&', en.amp);
    var lt := ReplaceChar(amp, '<', en.lt);
    var gt := ReplaceChar(lt, '>', en.gt);
    var quot := ReplaceChar(gt, '"', en.quot);
    ReplaceChar(quot, '\'', en.apos)
  }

  /** What one character becomes. */
  function EntityFor(c: char, en: Entities): string {
    if c == '&' then en.amp
    else if c == '<' then en.lt
    else if c == '>' then en.gt
    else if c == '"' then en.quot
    else if c == '\'' then en.apos
    else [c]
  }

  /** Escaping in one left-to-right pass, each character on its own. */
  function EscapeCharsWith(s: string, en: Entities): string {
    if s == [] then [] else EntityFor(s[0], en) + EscapeCharsWith(s[1..], en)
  }

  /** The entity `escapeHtml` makes of one character, or the character. */
  function EscapeChar(c: char): string {
    EntityFor(c, HtmlEntities)
  }

  function EscapeChars(s: string): string {
    EscapeCharsWith(s, HtmlEntities)
  }

  /** `escapeHtml(unsafe)`: `N/A` for a falsy value, and otherwise the
      value with its five special characters replaced by entities, each
      character escaped once. */
  function EscapeHtml(v: Option<string>): (r: string)
    ensures !Truthy(v) ==> r == "N/A"
    ensures Truthy(v) ==> r == EscapeChars(v.value)
  {
    if !Truthy(v) then "N/A"
    else
      ReplacesPerChar(v.value, HtmlEntities);
      Replaces(v.value, HtmlEntities)
  }

  lemma {:induction false} ReplacesConcat(a: string, b: string, en: Entities)
    ensures Replaces(a + b, en) == Replaces(a, en) + Replaces(b, en)
  {
    ReplaceCharConcat(a, b, '&', en.amp);
    var a1, b1 := ReplaceChar(a, '&', en.amp), ReplaceChar(b, '&', en.amp);
    ReplaceCharConcat(a1, b1, '<', en.lt);
    var a2, b2 := ReplaceChar(a1, '<', en.lt), ReplaceChar(b1, '<', en.lt);
    ReplaceCharConcat(a2, b2, '>', en.gt);
    var a3, b3 := ReplaceChar(a2, '>', en.gt), ReplaceChar(b2, '>', en.gt);
    ReplaceCharConcat(a3, b3, '"', en.quot);
    var a4, b4 := ReplaceChar(a3, '"', en.quot), ReplaceChar(b3, '"', en.quot);
    ReplaceCharConcat(a4, b4, '\'', en.apos);
  }

  /** One replace applied to a single character. */
  lemma ReplaceOne(c: char, d: char, rep: string)
    ensures ReplaceChar([c], d, rep) == if c == d then rep else [c]
  {
    assert [c][1..] == [];
  }

  /** The replaces that come after the one that produced an entity leave
      it alone. */
  lemma ReplacesChar(c: char, en: Entities)
    requires Unambiguous(en)
    ensures Replaces([c], en) == EntityFor(c, en)
  {
    ReplaceOne(c, '&', en.amp);
    if c == '&' {
      ReplaceCharAbsent(en.amp, '<', en.lt);
      ReplaceCharAbsent(en.amp, '>', en.gt);
      ReplaceCharAbsent(en.amp, '"', en.quot);
      ReplaceCharAbsent(en.amp, '\'', en.apos);
      return;
    }
    ReplaceOne(c, '<', en.lt);
    if c == '<' {
      ReplaceCharAbsent(en.lt, '>', en.gt);
      ReplaceCharAbsent(en.lt, '"', en.quot);
      ReplaceCharAbsent(en.lt, '\'', en.apos);
      return;
    }
    ReplaceOne(c, '>', en.gt);
    if c == '>' {
      ReplaceCharAbsent(en.gt, '"', en.quot);
      ReplaceCharAbsent(en.gt, '\'', en.apos);
      return;
    }
    ReplaceOne(c, '"', en.quot);
    if c == '"' {
      ReplaceCharAbsent(en.quot, '\'', en.apos);
      return;
    }
    ReplaceOne(c, '\'', en.apos);
  }

  /** Because `&` is replaced first and no entity holds a character a
      later replace targets, the chain of global replaces is the same as
      escaping every character once: no entity is escaped a second
      time. */
  lemma {:induction false} ReplacesPerChar(s: string, en: Entities)
    requires Unambiguous(en)
    ensures Replaces(s, en) == EscapeCharsWith(s, en)
  {
    if s != [] {
      assert s == [s[0]] + s[1..];
      ReplacesConcat([s[0]], s[1..], en);
      ReplacesChar(s[0], en);
      ReplacesPerChar(s[1..], en);
    }
  }

  /** The text at hand begins with one of the five entities. */
  predicate BeginsEntity(t: string) {
    StartsWith(t, "&amp;") || StartsWith(t, "&lt;") || StartsWith(t, "&gt;")
    || StartsWith(t, "&quot;") || StartsWith(t, "&#039;")
  }

  /** Every `&` of `t` is the start of an entity. */
  predicate AmpersandsBeginEntities(t: string) {
    forall k :: 0 <= k < |t| && t[k] == '&' ==> BeginsEntity(t[k..])
  }

  /** The escape of a character has its only `&` in front, and that `&`
      starts an entity. */
  lemma EscapeCharShape(c: char)
    ensures var e := EscapeChar(c);
      e != [] && (e[0] == '&' ==> BeginsEntity(e))
      && forall j :: 0 < j < |e| ==> e[j] != '&'
  {
  }

  /** No raw `<`, `>`, `"` or `'`. */
  predicate MarkupFree(t: string) {
    forall k :: 0 <= k < |t| ==> !IsMarkup(t[k])
  }

  lemma EscapeCharNoMarkup(c: char)
    ensures MarkupFree(EscapeChar(c))
  {
    if c == '&' {
      assert EscapeChar(c) == "&amp;";
    } else if c == '<' {
      assert EscapeChar(c) == "&lt;";
    } else if c == '>' {
      assert EscapeChar(c) == "&gt;";
    } else if c == '"' {
      assert EscapeChar(c) == "&quot;";
    } else if c == '\'' {
      assert EscapeChar(c) == "&#039;";
    } else {
      assert EscapeChar(c) == [c];
    }
  }

  lemma {:induction false} EscapeCharsNoMarkup(s: string)
    ensures MarkupFree(EscapeChars(s))
  {
    if s != [] {
      EscapeCharsNoMarkup(s[1..]);
      EscapeCharNoMarkup(s[0]);
    }
  }

  /** Escaped text has no raw markup character. */
  lemma EscapeHtmlNoMarkup(v: Option<string>)
    ensures MarkupFree(EscapeHtml(v))
  {
    if Truthy(v) {
      EscapeCharsNoMarkup(v.value);
    }
  }

  /** In escaped text every `&` begins `&amp;`, `&lt;`, `&gt;`, `&quot;`
      or `&#039;`. */
  lemma EscapeHtmlEntities(v: Option<string>)
    ensures AmpersandsBeginEntities(EscapeHtml(v))
  {
    if Truthy(v) {
      EscapeCharsEntities(v.value);
    }
  }

  lemma {:induction false} EscapeCharsEntities(s: string)
    ensures AmpersandsBeginEntities(EscapeChars(s))
  {
    if s != [] {
      var e, rest := EscapeChar(s[0]), EscapeChars(s[1..]);
      var t := e + rest;
      assert t == EscapeChars(s);
      EscapeCharsEntities(s[1..]);
      EscapeCharShape(s[0]);
      forall k | 0 <= k < |t| && t[k] == '&'
        ensures BeginsEntity(t[k..])
      {
        if k < |e| {
          assert t[k] == e[k];
          assert t[..|e|] == e;
          assert t[k..] == t;
        } else {
          assert t[k..] == rest[k - |e|..];
          assert rest[k - |e|] == t[k];
        }
      }
    }
  }

  /** Text without any of the five special characters comes out as it
      went in. */
  lemma {:induction false} EscapeCharsPlain(s: string)
    requires forall k :: 0 <= k < |s| ==> !IsMarkup(s[k]) && s[k] != '&'
    ensures EscapeChars(s) == s
  {
    if s != [] {
      EscapeCharsPlain(s[1..]);
      assert s == [s[0]] + s[1..];
    }
  }

  // ---------------------------------------------------------------------
  // generateFullHtmlContent

  /** A template literal: the fixed `texts` with the `values`
      interpolated between them, in order. */
  function Template(texts: seq<string>, values: seq<string>): string
    requires |texts| == |values| + 1
  {
    if values == [] then texts[0]
    else texts[0] + values[0] + Template(texts[1..], values[1..])
  }

  /** Each interpolated value shows up in the result. */
  lemma {:induction false} TemplateShows(texts: seq<string>, values: seq<string>, i: nat)
    requires |texts| == |values| + 1 && i < |values|
    ensures Contains(Template(texts, values), values[i])
  {
    var t := Template(texts, values);
    var rest := Template(texts[1..], values[1..]);
    assert t == texts[0] + values[0] + rest;
    if i == 0 {
      assert t[|texts[0]|..|texts[0]| + |values[0]|] == values[0];
      OccursImpliesContains(t, values[0], |texts[0]|);
    } else {
      TemplateShows(texts[1..], values[1..], i - 1);
      ContainsConcat(texts[0] + values[0], rest, values[i]);
    }
  }

  /** A markup character occurs as often in the result as the fixed
      texts make it occur, whatever markup-free values are interpolated. */
  lemma {:induction false} TemplateCountsFixed(texts: seq<string>, vs: seq<string>, ws: seq<string>, c: char)
    requires |texts| == |vs| + 1 && |vs| == |ws| && IsMarkup(c)
    requires forall k :: 0 <= k < |vs| ==> MarkupFree(vs[k])
    requires forall k :: 0 <= k < |ws| ==> MarkupFree(ws[k])
    ensures multiset(Template(texts, vs))[c] == multiset(Template(texts, ws))[c]
  {
    if vs != [] {
      assert MarkupFree(vs[0]) && MarkupFree(ws[0]);
      assert multiset(vs[0])[c] == 0 && multiset(ws[0])[c] == 0;
      TemplateCountsFixed(texts[1..], vs[1..], ws[1..], c);
    }
  }

  /** The head of the page and the information panel, split where
      `generateFullHtmlContent` interpolates. */
  const InfoPanel: seq<string> := [
      "<!DOCTYPE html>\n" +
      "<html lang=\"zh-CN\">\n" +
      "<head>\n" +
      "  <meta charset=\"UTF-8\">\n" +
      "  <meta name=\"viewport\" content=\"width=device-width, initial" +
      "-scale=1.0\">\n" +
      "  <title>Captured DOM Element - ",
      "</title>\n" +
      "  <style>\n" +
      "    body {\n" +
      "      font-family: -apple-system, BlinkMacSystemFont, \'Segoe" +
      " UI\', Roboto, sans-serif;\n" +
      "      margin: 0;\n" +
      "      padding: 20px;\n" +
      "      background-color: #f5f5f5;\n" +
      "    }\n" +
      "    .info-panel {\n" +
      "      background: white;\n" +
      "      padding: 20px;\n" +
      "      border-radius: 8px;\n" +
      "      margin-bottom: 20px;\n" +
      "      box-shadow: 0 2px 10px rgba(0,0,0,0.1);\n" +
      "    }\n" +
      "    .info-panel h2 {\n" +
      "      margin: 0 0 16px 0;\n" +
      "      color: #333;\n" +
      "      border-bottom: 2px solid #4285f4;\n" +
      "      padding-bottom: 8px;\n" +
      "    }\n" +
      "    .info-item {\n" +
      "      margin: 8px 0;\n" +
      "      padding: 8px 0;\n" +
      "      border-bottom: 1px solid #eee;\n" +
      "    }\n" +
      "    .info-label {\n" +
      "      font-weight: 600;\n" +
      "      color: #555;\n" +
      "      display: inline-block;\n" +
      "      width: 120px;\n" +
      "    }\n" +
      "    .info-value {\n" +
      "      color: #333;\n" +
      "      word-break: break-all;\n" +
      "    }\n" +
      "    .captured-element {\n" +
      "      background: white;\n" +
      "      padding: 20px;\n" +
      "      border-radius: 8px;\n" +
      "      box-shadow: 0 2px 10px rgba(0,0,0,0.1);\n" +
      "      margin-top: 20px;\n" +
      "    }\n" +
      "    .captured-element h3 {\n" +
      "      margin: 0 0 16px 0;\n" +
      "      color: #333;\n" +
      "      border-bottom: 2px solid #ff4444;\n" +
      "      padding-bottom: 8px;\n" +
      "    }\n" +
      "  </style>\n" +
      "</head>\n" +
      "<body>\n" +
      "  <div class=\"info-panel\">\n" +
      "    <h2>📋 元素信息</h2>\n" +
      "    <div class=\"info-item\">\n" +
      "      <span class=\"info-label\">标签名:</span>\n" +
      "      <span class=\"info-value\">",
      "</span>\n" +
      "    </div>\n" +
      "    <div class=\"info-item\">\n" +
      "      <span class=\"info-label\">ID:</span>\n" +
      "      <span class=\"info-value\">",
      "</span>\n" +
      "    </div>\n" +
      "    <div class=\"info-item\">\n" +
      "      <span class=\"info-label\">Class:</span>\n" +
      "      <span class=\"info-value\">",
      "</span>\n" +
      "    </div>\n" +
      "    <div class=\"info-item\">\n" +
      "      <span class=\"info-label\">文本内容:</span>\n" +
      "      <span class=\"info-value\">",
      "</span>\n" +
      "    </div>\n" +
      "    <div class=\"info-item\">\n" +
      "      <span class=\"info-label\">来源URL:</span>\n" +
      "      <span class=\"info-value\"><a href=\"",
      "\" target=\"_blank\">",
      "</a></span>\n" +
      "    </div>\n" +
      "    <div class=\"info-item\">\n" +
      "      <span class=\"info-label\">捕获时间:</span>\n" +
      "      <span class=\"info-value\">",
      "</span>\n" +
      "    </div>\n" +
      "    <div class=\"info-item\">\n" +
      "      <span class=\"info-label\">文件名:</span>\n" +
      "      <span class=\"info-value\">",
      "</span>\n" +
      "    </div>\n" +
      "    <div class=\"info-item\">\n" +
      "      <span class=\"info-label\">Markdown文件:</span>\n" +
      "      <span class=\"info-value\">",
      "</span>\n" +
      "    </div>\n" +
      "    "]

  /** The statistics block, shown when `info.linkStats` is truthy. */
  const StatsPanel: seq<string> := [
      "\n" +
      "    <div class=\"info-item\">\n" +
      "      <span class=\"info-label\">🔗 链接统计:</span>\n" +
      "      <span class=\"info-value\">\n" +
      "        图片: ",
      " 个 | \n" +
      "        链接: ",
      " 个\n" +
      "        ",
      "\n" +
      "      </span>\n" +
      "    </div>\n" +
      "    <div class=\"info-item\">\n" +
      "      <span class=\"info-label\">🎨 样式统计:</span>\n" +
      "      <span class=\"info-value\">\n" +
      "        ",
      " 个元素包含内联样式\n" +
      "        ",
      "\n" +
      "        ",
      "\n" +
      "        ",
      "\n" +
      "      </span>\n" +
      "    </div>\n" +
      "    <div class=\"info-item\">\n" +
      "      <span class=\"info-label\">📍 基础URL:</span>\n" +
      "      <span class=\"info-value\">",
      "</span>\n" +
      "    </div>\n" +
      "    "]

  /** The panel holding the captured element, and the end of the page. */
  const CapturePanel: seq<string> := [
      "\n" +
      "  </div>\n" +
      "\n" +
      "  <div class=\"captured-element\">\n" +
      "    <h3>🎯 捕获的元素</h3>\n" +
      "    ",
      "\n" +
      "  </div>\n" +
      "</body>\n" +
      "</html>"]

  /** The fields the information panel shows, in template order. */
  function InfoFields(info: Info, htmlFilename: string, markdownFilename: string): (r: seq<Option<string>>)
    ensures |r| == 10
  {
    [info.tagName, info.tagName, info.id, info.className, info.textContent, info.url,
     info.url, info.timestamp, Some(htmlFilename), Some(markdownFilename)]
  }

  /** `escapeHtml` of each value. */
  function EscapeAll(fields: seq<Option<string>>): (r: seq<string>)
    ensures |r| == |fields| && forall k :: 0 <= k < |fields| ==> r[k] == EscapeHtml(fields[k])
  {
    if fields == [] then [] else [EscapeHtml(fields[0])] + EscapeAll(fields[1..])
  }

  /** The escaped values of the information panel. */
  function InfoValues(info: Info, htmlFilename: string, markdownFilename: string): (r: seq<string>)
    ensures |r| == 10
  {
    EscapeAll(InfoFields(info, htmlFilename, markdownFilename))
  }

  /** `${flag ? text : ''}`. */
  function Note(flag: bool, text: string): string {
    if flag then text else ""
  }

  /** `${n ? ` | ${n}${text}` : ''}`: shown for a non-zero counter. */
  function CountNote(n: nat, text: string): string {
    if n != 0 then " | " + DecimalString(n) + text else ""
  }

  /** `${n || 0}` of each counter, and the optional parts of the
      statistics block, in template order. */
  function StatsValues(s: LinkStats, info: Info): (r: seq<string>)
    ensures |r| == 8
  {
    [DecimalString(s.totalImages), DecimalString(s.totalLinks),
     Note(s.hasBackgroundImages, " | 包含背景图片"),
     DecimalString(s.styledElements),
     CountNote(s.pseudoElements, " 个伪元素"),
     CountNote(s.animatedElements, " 个动画元素"),
     Note(s.hasKeyframes, " | 包含关键帧动画"),
     EscapeHtml(Or(info.baseUrl, info.url))]
  }

  function StatsBlock(info: Info): string {
    match info.linkStats
    case None => ""
    case Some(s) => Template(StatsPanel, StatsValues(s, info))
  }

  /** `generateFullHtmlContent(html, info, htmlFilename, markdownFilename)`. */
  function FullHtmlContent(html: string, info: Info, htmlFilename: string, markdownFilename: string): string {
    Template(InfoPanel, InfoValues(info, htmlFilename, markdownFilename)) + StatsBlock(info)
    + Template(CapturePanel, [html])
  }

  /** The captured HTML is inserted as it is, not escaped. */
  lemma FullHtmlEmbedsCapture(html: string, info: Info, htmlFilename: string, markdownFilename: string)
    ensures Contains(FullHtmlContent(html, info, htmlFilename, markdownFilename), html)
  {
    var head := Template(InfoPanel, InfoValues(info, htmlFilename, markdownFilename)) + StatsBlock(info);
    TemplateShows(CapturePanel, [html], 0);
    ContainsConcat(head, Template(CapturePanel, [html]), html);
  }

  /** A digit string holds no markup character. */
  lemma DigitsNoMarkup(k: nat)
    ensures MarkupFree(DecimalString(k))
  {
  }

  lemma InfoValuesNoMarkup(info: Info, htmlFilename: string, markdownFilename: string)
    ensures var vs := InfoValues(info, htmlFilename, markdownFilename);
      forall k :: 0 <= k < |vs| ==> MarkupFree(vs[k])
  {
    var fields := InfoFields(info, htmlFilename, markdownFilename);
    forall k | 0 <= k < |fields|
      ensures MarkupFree(EscapeAll(fields)[k])
    {
      EscapeHtmlNoMarkup(fields[k]);
    }
  }

  /** The optional texts of the statistics block hold no markup. */
  lemma StatsTextsNoMarkup()
    ensures MarkupFree(" | 包含背景图片") && MarkupFree(" | 包含关键帧动画")
    ensures MarkupFree(" 个伪元素") && MarkupFree(" 个动画元素")
  {
  }

  lemma CountNoteNoMarkup(n: nat, text: string)
    requires MarkupFree(text)
    ensures MarkupFree(CountNote(n, text))
  {
    DigitsNoMarkup(n);
    assert MarkupFree(" | ");
  }

  lemma StatsValuesNoMarkup(s: LinkStats, info: Info)
    ensures var vs := StatsValues(s, info);
      forall k :: 0 <= k < |vs| ==> MarkupFree(vs[k])
  {
    StatsTextsNoMarkup();
    DigitsNoMarkup(s.totalImages);
    DigitsNoMarkup(s.totalLinks);
    DigitsNoMarkup(s.styledElements);
    CountNoteNoMarkup(s.pseudoElements, " 个伪元素");
    CountNoteNoMarkup(s.animatedElements, " 个动画元素");
    EscapeHtmlNoMarkup(Or(info.baseUrl, info.url));
  }

  /** The information panel holds as much markup whatever the values of
      the `info` fields and the file names are. */
  lemma InfoPanelMarkupFixed(info: Info, htmlFilename: string, markdownFilename: string,
                             info': Info, htmlFilename': string, markdownFilename': string, c: char)
    requires IsMarkup(c)
    ensures multiset(Template(InfoPanel, InfoValues(info, htmlFilename, markdownFilename)))[c]
         == multiset(Template(InfoPanel, InfoValues(info', htmlFilename', markdownFilename')))[c]
  {
    InfoValuesNoMarkup(info, htmlFilename, markdownFilename);
    InfoValuesNoMarkup(info', htmlFilename', markdownFilename');
    TemplateCountsFixed(InfoPanel, InfoValues(info, htmlFilename, markdownFilename),
                        InfoValues(info', htmlFilename', markdownFilename'), c);
  }

  /** So does the statistics block, whatever the statistics are. */
  lemma StatsBlockMarkupFixed(info: Info, info': Info, c: char)
    requires IsMarkup(c) && info.linkStats.Some? == info'.linkStats.Some?
    ensures multiset(StatsBlock(info))[c] == multiset(StatsBlock(info'))[c]
  {
    if info.linkStats.Some? {
      StatsValuesNoMarkup(info.linkStats.value, info);
      StatsValuesNoMarkup(info'.linkStats.value, info');
      TemplateCountsFixed(StatsPanel, StatsValues(info.linkStats.value, info),
                          StatsValues(info'.linkStats.value, info'), c);
    }
  }

  /** The metadata cannot add markup to the page: how many `<`, `>`, `"`
      and `'` the page holds depends only on the captured HTML and on
      whether the statistics block is shown, never on the values of the
      `info` fields or on the file names. */
  lemma FullHtmlMarkupIndependent(html: string, info: Info, htmlFilename: string, markdownFilename: string,
                                  info': Info, htmlFilename': string, markdownFilename': string, c: char)
    requires IsMarkup(c) && info.linkStats.Some? == info'.linkStats.Some?
    ensures multiset(FullHtmlContent(html, info, htmlFilename, markdownFilename))[c]
         == multiset(FullHtmlContent(html, info', htmlFilename', markdownFilename'))[c]
  {
    InfoPanelMarkupFixed(info, htmlFilename, markdownFilename, info', htmlFilename', markdownFilename', c);
    StatsBlockMarkupFixed(info, info', c);
    CountsOfConcat(Template(InfoPanel, InfoValues(info, htmlFilename, markdownFilename)), StatsBlock(info),
                   Template(InfoPanel, InfoValues(info', htmlFilename', markdownFilename')), StatsBlock(info'),
                   Template(CapturePanel, [html]), c);
  }

  /** Counting a character is additive over concatenation. */
  lemma CountsOfConcat(a: string, b: string, a': string, b': string, d: string, c: char)
    requires multiset(a)[c] == multiset(a')[c] && multiset(b)[c] == multiset(b')[c]
    ensures multiset(a + b + d)[c] == multiset(a' + b' + d)[c]
  {
  }

  /** Without statistics the page does not depend on `baseUrl`: it only
      appears inside the statistics block. */
  lemma NoStatsIgnoresBaseUrl(html: string, info: Info, htmlFilename: string, markdownFilename: string, baseUrl: Option<string>)
    requires info.linkStats.None?
    ensures FullHtmlContent(html, info, htmlFilename, markdownFilename)
         == FullHtmlContent(html, info.(baseUrl := baseUrl), htmlFilename, markdownFilename)
  {
  }

  /** With statistics the page shows the escaped base URL, or the escaped
      page URL when there is no base URL. */
  lemma StatsShowBaseUrl(html: string, info: Info, htmlFilename: string, markdownFilename: string)
    requires info.linkStats.Some?
    ensures Contains(FullHtmlContent(html, info, htmlFilename, markdownFilename), EscapeHtml(Or(info.baseUrl, info.url)))
  {
    var values := StatsValues(info.linkStats.value, info);
    TemplateShows(StatsPanel, values, 7);
    var info0 := Template(InfoPanel, InfoValues(info, htmlFilename, markdownFilename));
    ContainsConcat(info0, StatsBlock(info), values[7]);
    ContainsConcat(info0 + StatsBlock(info), Template(CapturePanel, [html]), values[7]);
  }

  /** The panel shows each escaped field of `info` and the two file
      names. */
  lemma FullHtmlShowsFields(html: string, info: Info, htmlFilename: string, markdownFilename: string, i: nat)
    requires i < |InfoPanel| - 1
    ensures Contains(FullHtmlContent(html, info, htmlFilename, markdownFilename),
                     InfoValues(info, htmlFilename, markdownFilename)[i])
  {
    var values := InfoValues(info, htmlFilename, markdownFilename);
    TemplateShows(InfoPanel, values, i);
    ContainsConcat(Template(InfoPanel, values), StatsBlock(info), values[i]);
    ContainsConcat(Template(InfoPanel, values) + StatsBlock(info), Template(CapturePanel, [html]), values[i]);
  }

  // ---------------------------------------------------------------------
  // generateMarkdownContent

  /** The title used when nothing better is known. */
  const DefaultTitle := "捕获的内容"

  /** `MAX_TITLE_LENGTH_FROM_CONTENT`. */
  const MaxTitleLengthFromContent := 60

  /** `s.length`: ECMAScript strings count UTF-16 code units, so a
      character outside the Basic Multilingual Plane counts twice. */
  function Utf16Length(s: string): (r: nat)
    ensures |s| <= r <= 2 * |s|
  {
    if s == [] then 0 else (if s[0] as int >= 0x1_0000 then 2 else 1) + Utf16Length(s[1..])
  }

  /** The hostname of `new URL(url)`, or `None` when the constructor
      throws. */
  type Hostname = string -> Option<string>

  /** The title chosen when the Markdown has no heading: the trimmed page
      title if it is not blank; else the trimmed text content if it has
      between 1 and 59 code units; else the URL's hostname if it has one;
      else the default title. */
  function Title(info: Info, hostname: Hostname): string {
    if info.pageTitle.Some? && Trim(info.pageTitle.value) != "" then Trim(info.pageTitle.value)
    else if info.textContent.Some? && 0 < Utf16Length(info.textContent.value) < MaxTitleLengthFromContent then
      Trim(info.textContent.value)
    else if Truthy(info.url) then
      match hostname(info.url.value)
      case Some(h) => if h != "" then h else DefaultTitle
      case None => DefaultTitle
    else DefaultTitle
  }

  /** The title is empty only when it comes from a short text content that
      is all whitespace. */
  lemma TitleEmptyOnlyFromBlankText(info: Info, hostname: Hostname)
    requires Title(info, hostname) == ""
    ensures !(info.pageTitle.Some? && Trim(info.pageTitle.value) != "")
    ensures info.textContent.Some? && 0 < Utf16Length(info.textContent.value) < MaxTitleLengthFromContent
    ensures Trim(info.textContent.value) == ""
  {
    assert DefaultTitle[0] == '捕';
  }

  /** The rest of `generateMarkdownContent` once `htmlToMarkdown` has
      produced `body`: a body with `# ` anywhere in it keeps its own
      heading; any other body gets `# title` and a blank line in front.
      Either way the result is trimmed. */
  function FinishMarkdown(body: string, info: Info, hostname: Hostname): string {
    if Contains(body, "# ") then Trim(body)
    else Trim("# " + Title(info, hostname) + "\n\n" + body)
  }

  /** `generateMarkdownContent(html, info)`, with `tree` the parsed body of
      `html`. */
  function MarkdownContent(tree: seq<Node>, info: Info, hostname: Hostname): string {
    FinishMarkdown(HtmlConverter.HtmlToMarkdown(tree, HtmlConverter.Server), info, hostname)
  }

  /** A body with `# ` in it gets no title: the metadata does not matter. */
  lemma HeadingKeepsBody(body: string, info: Info, hostname: Hostname, info': Info, hostname': Hostname)
    requires Contains(body, "# ")
    ensures FinishMarkdown(body, info, hostname) == FinishMarkdown(body, info', hostname')
    ensures FinishMarkdown(body, info, hostname) == Trim(body)
  {
  }

  /** A body without `# ` comes out starting with `#`. */
  lemma TitleAddedInFront(body: string, info: Info, hostname: Hostname)
    requires !Contains(body, "# ")
    ensures var r := FinishMarkdown(body, info, hostname);
      r != [] && r[0] == '#'
  {
    var t := Title(info, hostname);
    assert "# " + t + "\n\n" + body == "# " + (t + "\n\n" + body);
    TrimKeepsNonBlankStart("# ", t + "\n\n" + body);
  }

  /** When the title does not end in whitespace, the result starts with
      the whole title line `# title`. */
  lemma TitleLineInFront(body: string, info: Info, hostname: Hostname)
    requires !Contains(body, "# ")
    requires var t := Title(info, hostname); t != [] && !IsWhitespace(t[|t| - 1])
    ensures StartsWith(FinishMarkdown(body, info, hostname), "# " + Title(info, hostname))
  {
    var p := "# " + Title(info, hostname);
    var x := p + ("\n\n" + body);
    assert "# " + Title(info, hostname) + "\n\n" + body == x;
    assert x[0] == '#';
    assert TrimStart(x) == x;
    TrimEndFacts(x);
    var m := |TrimEnd(x)|;
    assert x[|p| - 1] == p[|p| - 1];
    assert |p| <= m;
    assert TrimEnd(x)[..|p|] == x[..|p|] == p;
  }

  /** Finishing a finished text again changes nothing when a title line
      was added: the text now has its heading. */
  lemma RefinishIsStable(body: string, info: Info, hostname: Hostname)
    requires !Contains(body, "# ")
    requires var t := Title(info, hostname); t != [] && !IsWhitespace(t[|t| - 1])
    ensures var r := FinishMarkdown(body, info, hostname);
      FinishMarkdown(r, info, hostname) == r
  {
    var r := FinishMarkdown(body, info, hostname);
    TitleLineInFront(body, info, hostname);
    assert r[0..2] == "# ";
    OccursImpliesContains(r, "# ", 0);
    TrimIdempotent("# " + Title(info, hostname) + "\n\n" + body);
  }

  // ---------------------------------------------------------------------
  // File names in saveFiles

  /** `timestamp.replace(/[:.]/g, '-')`, done as two replaces. */
  function SafeTimestamp(timestamp: string): string {
    ReplaceChar(ReplaceChar(timestamp, ':', "-"), '.', "-")
  }

  /** Replacing a character by one character keeps every position. */
  lemma {:induction false} ReplaceByChar(s: string, c: char, d: char)
    ensures var r := ReplaceChar(s, c, [d]);
      |r| == |s| && forall k :: 0 <= k < |s| ==> r[k] == if s[k] == c then d else s[k]
  {
    if s != [] {
      ReplaceByChar(s[1..], c, d);
    }
  }

  /** Every `:` and `.` of the timestamp becomes `-`; every other
      character stays where it was. */
  lemma SafeTimestampChars(timestamp: string)
    ensures var r := SafeTimestamp(timestamp);
      |r| == |timestamp|
      && forall k :: 0 <= k < |r| ==> r[k] == if timestamp[k] == ':' || timestamp[k] == '.' then '-' else timestamp[k]
  {
    ReplaceByChar(timestamp, ':', '-');
    ReplaceByChar(ReplaceChar(timestamp, ':', "-"), '.', '-');
  }

  /** `${timestamp}-${info?.tagName || 'element'}`. */
  function BaseFilename(timestamp: string, info: Info): (r: string)
    ensures r != []
  {
    SafeTimestamp(timestamp) + "-" + (if Truthy(info.tagName) then info.tagName.value else "element")
  }

  /** The index of the last `.` of a name, if it has one. */
  function LastDot(name: string): (r: Option<nat>)
    ensures r.Some? ==> r.value < |name| && name[r.value] == '.'
                        && forall k :: r.value < k < |name| ==> name[k] != '.'
    ensures r.None? ==> forall k :: 0 <= k < |name| ==> name[k] != '.'
  {
    if name == [] then None
    else if name[|name| - 1] == '.' then Some(|name| - 1)
    else LastDot(name[..|name| - 1])
  }

  /** `path.parse(file).name` for a bare file name: everything before the
      last `.`, unless that `.` is the first character or there is none. */
  function ParsedName(file: string): string {
    match LastDot(file)
    case Some(i) => if i > 0 then file[..i] else file
    case None => file
  }

  /** The names of the two files of one capture: the page and the
      Markdown text share the base name. */
  datatype SavedNames = SavedNames(baseFilename: string, htmlFilename: string, markdownFilename: string)

  function Names(timestamp: string, info: Info): (r: SavedNames)
    ensures StartsWith(r.htmlFilename, r.baseFilename) && StartsWith(r.markdownFilename, r.baseFilename)
    ensures r.htmlFilename != r.markdownFilename
  {
    var base := BaseFilename(timestamp, info);
    SavedNames(base, base + ".html", base + ".md")
  }

  /** The Markdown partner found by `getFileDetails` for a page
      (`${path.parse(file).name}.md`) is the Markdown file saved with it. */
  lemma PartnerOfPage(timestamp: string, info: Info)
    ensures var n := Names(timestamp, info);
      ParsedName(n.htmlFilename) + ".md" == n.markdownFilename
  {
    var n := Names(timestamp, info);
    var base := n.baseFilename;
    var file := n.htmlFilename;
    assert file[|base|] == '.';
    assert forall k :: |base| < k < |file| ==> file[k] == "html"[k - |base| - 1];
    var i := LastDot(file).value;
    assert i == |base|;
    assert file[..i] == base;
  }

  /** The page of a capture names its Markdown file. */
  lemma PageNamesMarkdownFile(html: string, timestamp: string, info: Info)
    ensures var n := Names(timestamp, info);
      Contains(FullHtmlContent(html, info, n.htmlFilename, n.markdownFilename), EscapeHtml(Some(n.markdownFilename)))
  {
    var n := Names(timestamp, info);
    FullHtmlShowsFields(html, info, n.htmlFilename, n.markdownFilename, 9);
  }
}
