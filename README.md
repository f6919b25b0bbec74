# chrome-copy-local, modelled in Dafny

chrome-copy-local is a browser extension with a small local server. The
user clicks an element of a web page. The content script clones that
element, inlines its computed styles, and rewrites its relative URLs to
absolute ones. The server then stores two files: an HTML page with the
capture and its metadata, and a Markdown rendering of the capture.

This project models the transformations at the heart of that pipeline
and proves what they promise:

- **HtmlConverter** (html_converter.dfy) models `convertElementToMarkdown`,
  `processTable` and `htmlToMarkdown` of the server. It also models the
  standalone copy in the test directory, which has no `table` case: a
  `Variant` parameter selects which one. The tag dispatch is a recursive
  function over a `Node` tree. Each accumulator loop of the source
  (`processChildren`, the list loops, the row and cell loops) is a method
  proved equal to that function.
- **ConverterProperties** and **ConverterExamples** state the tag templates
  as all-inputs lemmas and carry the concrete conversions that the test
  scripts expect.
- **Styles** models `isSignificantStyleValue`, including its `display`
  quirk, and the `IMPORTANT_STYLE_PROPERTIES` list.
- **StyleExtractor** models the style inliner. The clone is a `Clone`
  object over an arena of elements. The pass is a loop over the
  pre-order snapshot of the original elements. It is specified by a fold
  and proved to keep every element it does not visit.
- **LinkConverter** models `needsConversion`, `convertUrl`, the `url(...)`
  and `srcset` rewrites, and the in-place link pass with its counters.
- **ContentScript**, **ContentSimple** and **ContentV2** model the three
  other link-rewriting variants, each with its own prefix policy and
  traversal. Each variant is related to the link converter's policy.
- **FileHandler** models `escapeHtml`, the page template of
  `generateFullHtmlContent`, the title choice of `generateMarkdownContent`,
  and the file names of `saveFiles`.
- **Strings**, **Dom** and **Wrappers** are shared support. Strings has
  ECMAScript `trim`, `startsWith`, `includes` and the global single-character
  `replace`. Dom has the node tree, the element arena and its attribute lists.

The browser and Node APIs are parameters or inputs:

- URL parsing (`new URL(url, base).href`) is a function parameter
  `Resolver` that returns `None` where the constructor throws.
- Hostname extraction is a `Hostname` parameter.
- `getComputedStyle` values are an input map per element.
- Stylesheets are an input list; an unreadable sheet contributes nothing.
- A parsed body is an input `Node` tree.
- `outerHTML` is a `serialize` function parameter.

## Model

| member | source | states |
|---|---|---|
| HtmlConverter.ConvertElementToMarkdown | server/html-converter.js:112-123 | a null element gives ""; any other node gives its conversion |
| HtmlConverter.Convert | server/html-converter.js:112-223 | the meaning of `convertElementToMarkdown` on one node: a text node gives its text, another non-element node gives "", and an element gives the template of its tag group over its converted children (the server or the standalone variant) |
| HtmlConverter.Children | server/html-converter.js:128-134 | the text of a list of siblings: their conversions concatenated in document order |
| HtmlConverter.HtmlToMarkdown | server/html-converter.js:14-19 | the meaning of `htmlToMarkdown` on a parsed body: the trimmed text of the body's children |
| HtmlConverter.ConvertNode | server/html-converter.js:137-222 | the `switch` over the tag computes the recursive conversion `Convert` |
| HtmlConverter.ConvertFormatting | server/html-converter.js:138-163 | the heading, paragraph, bold, italic, code, pre and br templates |
| HtmlConverter.ConvertQuote | server/html-converter.js:191-193 | the `blockquote` template over the trimmed children |
| HtmlConverter.ConvertContainer | server/html-converter.js:205-215 | the block-container template over the children's text |
| HtmlConverter.ProcessChildren | server/html-converter.js:128-134 | the loop builds the in-order concatenation of the children's texts |
| HtmlConverter.ProcessUnorderedList | server/html-converter.js:172-179 | the `ul` loop emits one `- ` line per `li` child, framed by newlines |
| HtmlConverter.ProcessOrderedList | server/html-converter.js:180-188 | the `ol` loop numbers the `li` children 1, 2, ..., counting only `li` |
| HtmlConverter.OrderedItemLine | server/html-converter.js:185 | one numbered line: the counter, `. `, the trimmed item text and a newline |
| HtmlConverter.CollectRows | server/html-converter.js:230-241 | the rows are the `tr` children, plus the `tr` grandchildren under `thead`/`tbody`/`tfoot`, in document order |
| HtmlConverter.CollectCells | server/html-converter.js:245-251 | the cells of a row are its `th`/`td` children, trimmed, with an empty cell replaced by one space |
| HtmlConverter.EmitRow | server/html-converter.js:253-260 | a row with cells is its cells between pipes on one line; a separator follows only row 0; a cell-less row emits nothing |
| HtmlConverter.EmitRows | server/html-converter.js:243-261 | the `forEach` over the rows builds the concatenated row texts |
| HtmlConverter.ProcessTable | server/html-converter.js:226-264 | `processTable` gives the `table` case of the server converter |
| HtmlConverter.ConvertBody | server/html-converter.js:14-19 | `htmlToMarkdown` over a parsed body is the trimmed concatenation of the children's conversions |
| HtmlConverter.BlockMd | server/html-converter.js:214-215 | a container gives "" exactly when its content is empty; otherwise it ends in a newline, one being added only when needed |
| HtmlConverter.HeadingLevel | server/html-converter.js:138-149 | `hN` has level N (1 to 6); every other tag has level 0 |
| HtmlConverter.CellText | server/html-converter.js:248-249 | a cell text is never empty: it is the trimmed text, or `" "` |
| HtmlConverter.TableRowsBelow | server/html-converter.js:231-240 | every collected row lies inside the table |
| ConverterProperties.ChildrenConcat | server/html-converter.js:128-134 | the conversion of a concatenation of siblings is the concatenation of their conversions |
| ConverterProperties.ItemTextsAreLiTexts | server/html-converter.js:172-188 | the items of a list are exactly the conversions of its `li` children, in order |
| ConverterProperties.NumberedLinesFromOne | server/html-converter.js:181-188 | the accumulated list text is the item lines numbered from 1 |
| ConverterProperties.ListText | server/html-converter.js:172-188 | `ul`/`ol` is a newline, one marked line per `li` child (numbered from 1 in `ol`), and a newline |
| ConverterProperties.UnquoteQuoted | server/html-converter.js:193 | quoting every line loses nothing: removing the `> ` after each newline restores the content |
| ConverterProperties.QuoteText | server/html-converter.js:191-193 | a `blockquote` is `\n> `, the quoted lines of its trimmed children, and `\n\n` |
| ConverterProperties.RowsSplit | server/html-converter.js:244-261 | a table body is row 0 with its separator, followed by every other row without one |
| ConverterProperties.CellsNonEmpty | server/html-converter.js:246-250 | every cell text is non-empty, and there is at most one per child |
| ConverterProperties.CellLessFirstRow | server/html-converter.js:253-259 | when row 0 has no cells, the table has no separator line at all |
| ConverterProperties.StandaloneTable | test/markdown-converter.js:93 | the standalone copy turns a `table` into the plain concatenation of its children |
| ConverterProperties.VariantsAgree | test/markdown-converter.js:37-94 | on a tree without tables, the standalone copy and the server converter give the same text |
| ConverterExamples.NestedEmphasisExample | test-server-functions.js:31-32 | `<p>Hello <strong>bold <em>italic</em></strong> text</p>` becomes `Hello **bold *italic*** text` |
| ConverterExamples.HeadingsExample | test/markdown-tests.js:13-16 | two headings and a paragraph become `# 主标题\n\n## 副标题\n\n段落内容` |
| ConverterExamples.FormattingExample | test/markdown-tests.js:18-20 | bold, italic and code inside a paragraph |
| ConverterExamples.LinkImageExample | test/markdown-tests.js:23-25 | a link paragraph followed by an image |
| ConverterExamples.ListsExample | test/markdown-tests.js:28-31 | a `ul` and an `ol` of two items each, as the test expects after trimming |
| ConverterExamples.QuoteExample | test/markdown-tests.js:33-36 | a quoted paragraph loses its blank line inside the quote |
| ConverterExamples.PreCodeExample | test/markdown-tests.js:38-41 | code inside `pre` is fenced and still wrapped in backticks |
| ConverterExamples.GridExample | server/html-converter.js:226-264 | a two-by-two table inside a `tbody` becomes a header row, a separator and a body row |
| Styles.IsSignificantStyleValue | content/styles.js:92-122 | keywords are insignificant; properties without a check are significant; the `display` entry throws exactly when it is a boolean `true` |
| Styles.ZeroBoxInsignificant | content/styles.js:99-103 | margin, padding, border-width and border-radius are insignificant exactly at `0px` (or a keyword) |
| Styles.DefaultBorderInsignificant | content/styles.js:101 | the two default borders are insignificant; any other non-keyword border is significant |
| Styles.TransparentBackgroundInsignificant | content/styles.js:104-105 | a background containing `rgba(0, 0, 0, 0)` is insignificant |
| Styles.IdentityTransformAndOpacity | content/styles.js:107-110 | the identity matrix and opacity `1` are insignificant; opacity `0.5` is significant |
| Styles.UncheckedPropertiesSignificant | content/styles.js:120-121 | `color`, `font-weight` and `text-align` are significant for every non-keyword value |
| Styles.DisplayQuirk | content/styles.js:112-121 | DIV/`block` and SPAN/`inline` give true; `display: block` on a P and `flex` on a DIV throw |
| Styles.ImportantPropertiesShape | content/styles.js:10-42 | the list has 86 entries, starts with `display`, and names `text-shadow` twice |
| StyleExtractor.CollectThrows | content/style-extractor.js:151-156 | the significance loop fails exactly when the check of some listed property throws |
| StyleExtractor.Collect | content/style-extractor.js:151-156 | the significance loop over a property list: the declarations `property: value` of the properties whose check returns true, in list order, or a failure as soon as a check throws; never more declarations than properties |
| StyleExtractor.CollectMembers | content/style-extractor.js:151-156 | a completed loop has kept exactly the declarations of the significant properties |
| StyleExtractor.ThrowsOnlyOnDisplay | content/styles.js:112-121 | over a list naming `display`, the loop fails exactly when the `display` check throws |
| StyleExtractor.ImportantDeclsFailOnDisplay | content/style-extractor.js:151-156 | the loop over `IMPORTANT_STYLE_PROPERTIES` fails exactly when the `display` check throws |
| StyleExtractor.CollectConcat | content/style-extractor.js:151-156 | the declarations follow the list order |
| StyleExtractor.AnimationDecls | content/style-extractor.js:83-88 | the animation loop never fails, and keeps at most one declaration per property |
| StyleExtractor.AnimationDeclsMembers | content/style-extractor.js:74-89 | a declaration is kept exactly when its property is listed and its value is not empty, `none`, `all 0s ease 0s` or `0s` |
| StyleExtractor.ExtractAnimationStyles | content/style-extractor.js:68-95 | the loop over the fourteen properties computes the animation declarations |
| StyleExtractor.CollectSignificant | content/style-extractor.js:151-156 | the loop computes the declarations, or the failure of a throwing check |
| StyleExtractor.RuleKeyframesMembers | content/style-extractor.js:106-110 | a text is collected exactly when a keyframes rule of the sheet has it |
| StyleExtractor.KeyframesOfConcat | content/style-extractor.js:103-116 | sheets are read in order |
| StyleExtractor.ExtractKeyframes | content/style-extractor.js:98-123 | the nested loops collect the keyframes rules of the readable sheets in order |
| StyleExtractor.KeyframesBlock | content/style-extractor.js:136-141 | the `<style>` block is empty exactly when there are no keyframes, and otherwise starts with `<style>\n` |
| StyleExtractor.StripQuotes | content/style-extractor.js:23 | at most one quote is removed at each end |
| StyleExtractor.StripQuotesQuoted | content/style-extractor.js:23 | a quoted content loses exactly its two quotes |
| StyleExtractor.StripQuotesPlain | content/style-extractor.js:23 | a content without quotes at either end is kept |
| StyleExtractor.PseudoSpan | content/style-extractor.js:21-44 | the span has class `pseudo-before`/`pseudo-after`, has a `style` exactly when a declaration was kept, and has text children only |
| StyleExtractor.AddPseudo | content/style-extractor.js:15-57 | one pseudo-element of one element: with real content and checks that all return, a span is inserted as first (`::before`) or last (`::after`) child and appended to the arena, which grows by at most one slot; otherwise the arena is unchanged |
| StyleExtractor.AddPseudoPlacement | content/style-extractor.js:14-58 | a span is created exactly for real content whose checks all return; `::before` becomes the first child, `::after` the last; nothing else changes |
| StyleExtractor.PseudoCreatedUnlessDisplayThrows | content/style-extractor.js:20-57 | with the real filter, a span is created exactly when the content is real and the `display` check does not throw |
| StyleExtractor.InsertPseudo | content/style-extractor.js:15-57 | one pseudo-element processed in place; it returns the number of spans created |
| StyleExtractor.ExtractPseudoElementStyles | content/style-extractor.js:9-65 | `::before` then `::after`, in place, returning 0 to 2 |
| StyleExtractor.WithStyle | content/style-extractor.js:166-170 | a non-empty declaration list becomes the `style`, joined with `"; "` |
| StyleExtractor.WithoutIds | content/style-extractor.js:177-178 | `class` and `id` are removed, and the `style` is kept |
| StyleExtractor.InlineStep | content/style-extractor.js:144-182 | one element appends at most two spans, and is styled and animated at most once (never animated without being styled) |
| StyleExtractor.InlineElement | content/style-extractor.js:144-182 | the `forEach` body on one element, in place, with what it adds to the three counters |
| StyleExtractor.InlineElements | content/style-extractor.js:143-183 | the loop over the snapshot of the original elements, in place; inserted spans are never visited |
| StyleExtractor.ExtractAndInlineStyles | content/style-extractor.js:126-199 | the html is the keyframes block and the serialized clone; the counters are the pass's; `hasKeyframes` holds exactly when there are keyframes |
| StyleExtractor.InlineStepFrame | content/style-extractor.js:143-183 | a step changes no element but its own |
| StyleExtractor.InlineStepOwn | content/style-extractor.js:144-182 | a throwing check leaves the element untouched; otherwise `class`/`id` are gone and the joined declarations are the `style` |
| StyleExtractor.FoldCounts | content/style-extractor.js:130-174 | the pass counts the spans it appends, and styles and animates at most one element per step |
| StyleExtractor.InlineUpTo | content/style-extractor.js:143-183 | the style pass after its first k elements: the arena grows by the spans it appended, and the styled, animated and span counters are bounded by k, k and 2k |
| StyleExtractor.FoldAhead | content/style-extractor.js:143-145 | elements not reached yet are untouched |
| StyleExtractor.FoldBehind | content/style-extractor.js:143-145 | an element is not touched again after its own step |
| StyleExtractor.StylePassOutcome | content/style-extractor.js:143-183 | after the pass, each original element is untouched (a check threw) or has lost `class`/`id` and carries its declarations |
| StyleExtractor.BlockParagraphSkipped | content/styles.js:112-121 | a P whose computed display is `block` is skipped whole, keeping its `class` and `id` |
| StyleExtractor.BlockDivProcessed | content/style-extractor.js:176-178 | a DIV shown as `block` is processed and loses `class` and `id` |
| LinkConverter.NeedsConversion | content/link-converter.js:24-33 | true exactly for a present, non-empty URL with none of the seven kept prefixes |
| LinkConverter.NeedsConversionExamples | content/link-converter.js:24-33 | relative paths convert; `https:`, `#`, missing, empty and `httpdocs/...` do not |
| LinkConverter.ConvertUrl | content/link-converter.js:36-43 | the resolved URL, or the input unchanged when resolution throws |
| LinkConverter.ReplaceAllKeeps | content/link-converter.js:88-94 | a callback that returns every match unchanged leaves the text unchanged |
| LinkConverter.ReplaceAll | content/link-converter.js:88-94 | `String.prototype.replace` with a global pattern: scanning left to right, each match found at the current position is replaced by the callback's text and the scan resumes after it; any other character is copied |
| LinkConverter.RewriteCssUrls | content/link-converter.js:88-94 | the `url(...)` rewrite of a style: each match whose URL needs conversion becomes `url('<absolute>')`, every other match is kept |
| LinkConverter.RewriteSrcset | content/link-converter.js:104-111 | the `srcset` rewrite: each candidate whose URL needs conversion becomes the converted URL followed by its descriptor, every other candidate is kept |
| LinkConverter.ConvertUrlAttr | content/link-converter.js:100-115 | one URL attribute: left alone unless its value needs conversion; then `srcset` is rewritten candidate by candidate and the other attributes are replaced by the converted URL |
| LinkConverter.UrlCharsEnd | content/link-converter.js:88 | the longest run of `[^'")]` characters |
| LinkConverter.CssUrlAt | content/link-converter.js:88 | a match is a `url(` + optional quote + URL + optional quote + `)` slice, with a non-empty URL |
| LinkConverter.CssUrlAtFinds | content/link-converter.js:88 | a well-formed `url(...)` is matched where it starts, with its URL as the group |
| LinkConverter.CssKeptWhenNothingToConvert | content/link-converter.js:88-94 | a style whose URLs all need no conversion is unchanged |
| LinkConverter.NoUrlNoMatch | content/link-converter.js:86-88 | a style without `url(` has no match |
| LinkConverter.BlankEnd | content/link-converter.js:105 | the longest run of whitespace |
| LinkConverter.WordEnd | content/link-converter.js:105 | the longest run of non-whitespace |
| LinkConverter.SrcsetCandidateAt | content/link-converter.js:105 | a candidate matches exactly at a non-whitespace character, as a slice of the value |
| LinkConverter.SrcsetCandidateWithDescriptor | content/link-converter.js:105-110 | a URL, a space and a descriptor form one candidate; the descriptor is kept verbatim |
| LinkConverter.SrcsetCommaQuirk | content/link-converter.js:105 | two URLs separated by `, ` form one candidate whose URL keeps the comma |
| LinkConverter.SrcsetKeptWhenNothingToConvert | content/link-converter.js:105-111 | a `srcset` whose candidate URLs all need no conversion is unchanged |
| LinkConverter.LinkElement | content/link-converter.js:63-117 | the callback changes attributes only |
| LinkConverter.CountsBounds | content/link-converter.js:65-82 | no more images or links are converted than were counted |
| LinkConverter.Counts | content/link-converter.js:65-87 | the link statistics of a list of elements: the sum of each element's image, link and converted counts, and whether any style holds `url(` |
| LinkConverter.CountsBackground | content/link-converter.js:85-87 | the background flag is set exactly when some element's style contains `url(` |
| LinkConverter.LinkAll | content/link-converter.js:62-118 | every element, the root included, goes through the callback |
| LinkConverter.LinkAllForward | content/link-converter.js:62-118 | the pass keeps the tree shape |
| LinkConverter.ConvertUrlAttrIdempotent | content/link-converter.js:100-116 | with a resolver that returns absolute URLs, converting an attribute twice is converting it once |
| LinkConverter.ConvertUrlAttrOthers | content/link-converter.js:112-114 | converting one attribute leaves every other attribute unchanged |
| LinkConverter.LinkElementOthers | content/link-converter.js:63-117 | attributes other than `src`, `href`, `style` and the four URL attributes are never touched |
| LinkConverter.ConvertUrlAttrsOthers | content/link-converter.js:99-117 | the attribute loop touches only the attributes it names |
| LinkConverter.ConvertUrlAttributes | content/link-converter.js:99-117 | the `forEach` over `urlAttributes` converts each attribute in order |
| LinkConverter.ConvertElementLinks | content/link-converter.js:63-117 | the callback on one element, in place, with what it adds to the counters |
| LinkConverter.ConvertAllLinks | content/link-converter.js:62-118 | the loop over root and descendants, in place, with the summed counters |
| LinkConverter.ConvertRelativeToAbsolute | content/link-converter.js:46-133 | the style pass, then the link pass over the clone; the html is the style pass's, serialized before any URL rewrite; the style counters are unchanged by the link pass |
| ContentScript.ResolvesWhatLinkConverterResolves | content.js:81 | every URL the link converter resolves is also resolved by the image, link and background tests |
| ContentScript.IsKeptUrl | content.js:81 | the prefix test for image sources, background URLs and URL attributes: `http`, `data:` or `//` |
| ContentScript.IsKeptHref | content.js:95 | the prefix test for link targets: `http`, `mailto:`, `tel:`, `#`, `javascript:` or `//` |
| ContentScript.KeptPrefixSplit | content.js:81-95 | the image test keeps the link converter's prefixes but `mailto:`, `tel:`, `#` and `javascript:`, the link test keeps all of them but `data:`, and a URL needs conversion by the link converter exactly when it is non-empty and passes both tests |
| ContentScript.PolicyDifferences | content.js:81-95 | `mailto:`, `#` and `javascript:` image sources are rewritten but link targets are not; `data:` link targets are rewritten |
| ContentScript.OnDescendants | content.js:78-157 | a `querySelectorAll` pass changes the descendants and never the root |
| ContentScript.OnDescendantsCompose | content.js:78-157 | two passes in a row are one pass of the composed callback |
| ContentScript.ImageStep | content.js:79-89 | the image callback changes attributes only |
| ContentScript.SetResolved | content.js:82-87 | the `try` around `new URL`: the attribute is set to the resolved URL, or the attributes are unchanged when resolution throws |
| ContentScript.LinkStep | content.js:93-103 | the link callback changes attributes only |
| ContentScript.BackgroundStep | content.js:107-124 | the background callback changes attributes only |
| ContentScript.UrlAttrStep | content.js:130-156 | the attribute callback changes attributes only |
| ContentScript.UrlAttrSteps | content.js:128-157 | the attribute passes change attributes only |
| ContentScript.ApplyToDescendants | content.js:78-103 | one `forEach` over the clone's descendants, in place |
| ContentScript.EarlyPasses | content.js:78-124 | the image, link and background passes, in place |
| ContentScript.UrlAttrPasses | content.js:127-157 | one pass per URL attribute, in order, in place |
| ContentScript.ConvertRelativeToAbsolute | content.js:72-160 | the clone after every pass; the element itself is not modified |
| ContentScript.ScriptPassForward | content.js:72-160 | the closure keeps the tree shape |
| ContentScript.ScriptPass | content.js:72-160 | the whole closure on the element's arena: every pass of the script applied to each descendant, the root left as it is |
| ContentScript.FailedResolutionKeeps | content.js:85-87 | when resolution always throws, the clone equals the element |
| ContentScript.FailedBackgroundKeeps | content.js:115-118 | when resolution always throws, every style is kept |
| ContentScript.FailedUrlAttrsKeep | content.js:141-153 | when resolution always throws, every URL attribute is kept |
| ContentScript.ScriptElementOthers | content.js:78-157 | attributes other than `src`, `href`, `style` and the four URL attributes are never touched |
| ContentScript.ScriptElementKeepsHref | content.js:92-103 | a link target is replaced, never added or removed |
| ContentScript.ClickStats | content.js:186-190 | the link count is at most the number of descendant links; the background flag holds exactly when a descendant's style names `background` |
| ContentScript.ClickStatsBeforeRewriting | content.js:186-188 | the image and `a[href]` counts of the processed clone are those of the original descendants |
| ContentSimple.SimpleElement | content-simple.js:120-137 | the callback changes attributes only |
| ContentSimple.SimpleAll | content-simple.js:119-138 | every element, the root included, goes through the callback |
| ContentSimple.ConvertElement | content-simple.js:120-137 | the callback on one element, in place, with what it adds to the counters |
| ContentSimple.ConvertRelativeToAbsolute | content-simple.js:98-141 | the clone after the pass, and the four counters of the original elements |
| ContentSimple.SimpleAllForward | content-simple.js:119-138 | the pass keeps the tree shape |
| ContentSimple.SimpleCountsTotals | content-simple.js:121-137 | every IMG and every A is counted, with or without a URL, and no more are converted than counted |
| ContentSimple.SimpleCountsAgree | content-simple.js:103-107 | the four counters are those of the link converter's pass |
| ContentSimple.SimpleElementOthers | content-simple.js:118-138 | only `src` and `href` can change |
| ContentSimple.SimpleElementIdempotent | content-simple.js:120-137 | with a resolver that returns absolute URLs, running the callback twice equals running it once |
| ContentV2.NeedsConversionV2Prefixes | content-v2.js:80 | the regular expression keeps exactly the eight listed prefixes |
| ContentV2.NeedsConversionV2 | content-v2.js:80 | `url && !url.match(...)`: a non-empty URL that does not start with one of the anchored alternatives |
| ContentV2.HttpSchemes | content-v2.js:80 | `https?:` is `http:` or `https:` |
| ContentV2.ResolvesWhatLinkConverterResolves | content-v2.js:80 | every URL the link converter resolves, this variant resolves too |
| ContentV2.HttpPrefixQuirk | content-v2.js:80 | `httpdocs/a.png` is converted here but not by the link converter |
| ContentV2.NeedsConversionV2Examples | content-v2.js:80 | an absolute URL and "" are kept; a relative path is converted |
| ContentV2.V2Element | content-v2.js:84-98 | the callback changes attributes only |
| ContentV2.V2Pass | content-v2.js:83-99 | the root is unchanged; every descendant goes through the callback |
| ContentV2.ConvertElement | content-v2.js:84-98 | the callback on one element, in place, with what it adds to the counters |
| ContentV2.ConvertDescendants | content-v2.js:83-99 | the `forEach` over `img, a`, in place, with the counters |
| ContentV2.ConvertLinks | content-v2.js:75-102 | the clone after the pass, and the counters |
| ContentV2.V2CountsTotals | content-v2.js:84-97 | every descendant IMG and A is counted (an A with or without `href`), and no more are converted than counted |
| ContentV2.V2ElementOthers | content-v2.js:84-98 | only `src` and `href` can change |
| ContentV2.V2ElementSets | content-v2.js:86-95 | a converted image or link holds the resolution of the property it read, or the property itself when resolution throws |
| FileHandler.Or | server/file-handler.js:145 | the logical or of two values is truthy exactly when one of them is |
| FileHandler.EscapeHtml | server/file-handler.js:11-19 | a falsy value gives `N/A`; any other value is escaped character by character |
| FileHandler.ReplacesPerChar | server/file-handler.js:13-18 | the five global replaces, `&` first, are one entity substitution per character |
| FileHandler.EscapeHtmlNoMarkup | server/file-handler.js:11-19 | the output has no raw `<`, `>`, `"` or `'` |
| FileHandler.EscapeHtmlEntities | server/file-handler.js:11-19 | every `&` of the output begins `&amp;`, `&lt;`, `&gt;`, `&quot;` or `&#039;` |
| FileHandler.EscapeCharsPlain | server/file-handler.js:13-18 | text without special characters is unchanged |
| FileHandler.TemplateShows | server/file-handler.js:34-155 | a template contains each interpolated value |
| FileHandler.TemplateCountsFixed | server/file-handler.js:34-155 | with markup-free values, the count of a markup character is that of the fixed text |
| FileHandler.EscapeAll | server/file-handler.js:39-145 | every interpolated field goes through `escapeHtml` |
| FileHandler.FullHtmlEmbedsCapture | server/file-handler.js:150-153 | the page contains the captured HTML verbatim |
| FileHandler.FullHtmlContent | server/file-handler.js:33-156 | the page of `generateFullHtmlContent`: the information panel over the escaped fields, the statistics block when there are link statistics, and the capture panel around the raw HTML |
| FileHandler.FullHtmlMarkupIndependent | server/file-handler.js:33-156 | the number of each markup character does not depend on the metadata, only on whether link statistics are present: no field can inject markup |
| FileHandler.NoStatsIgnoresBaseUrl | server/file-handler.js:125-147 | without link statistics, the page does not depend on the statistics or the base URL |
| FileHandler.StatsShowBaseUrl | server/file-handler.js:143-146 | with link statistics, the page shows the escaped base URL, or the URL when there is no base URL |
| FileHandler.FullHtmlShowsFields | server/file-handler.js:39-124 | the page shows every escaped metadata field |
| FileHandler.PageNamesMarkdownFile | server/file-handler.js:121-124 | the page shows the escaped name of its Markdown file |
| FileHandler.Utf16Length | server/file-handler.js:177 | a string's `length` counts one or two code units per character |
| FileHandler.TitleEmptyOnlyFromBlankText | server/file-handler.js:170-188 | the title is empty only when it comes from a short, blank text content |
| FileHandler.Title | server/file-handler.js:170-188 | the title choice: the trimmed page title when it is not blank, else the trimmed text content when its length is between 1 and 59, else the hostname of the URL when it is non-empty, else the default title |
| FileHandler.FinishMarkdown | server/file-handler.js:166-193 | a body containing `# ` is trimmed as it is; any other body gets a `# title` line and a blank line in front, and the whole is trimmed |
| FileHandler.MarkdownContent | server/file-handler.js:159-194 | `generateMarkdownContent`: the server converter's text of the parsed body, finished with a title line when it has no `# ` |
| FileHandler.HeadingKeepsBody | server/file-handler.js:166-169 | a body containing `# ` gets no title, whatever the metadata |
| FileHandler.TitleAddedInFront | server/file-handler.js:169-193 | any other body comes out starting with `#` |
| FileHandler.TitleLineInFront | server/file-handler.js:190-193 | when the title does not end in whitespace, the result starts with `# title` |
| FileHandler.RefinishIsStable | server/file-handler.js:159-194 | finishing a finished text again changes nothing |
| FileHandler.SafeTimestampChars | server/file-handler.js:198 | every `:` and `.` of the timestamp becomes `-`, and every other character stays in place |
| FileHandler.SafeTimestamp | server/file-handler.js:198 | the timestamp with every `:` and then every `.` replaced by `-` |
| FileHandler.BaseFilename | server/file-handler.js:199-200 | the base name is never empty |
| FileHandler.Names | server/file-handler.js:200-202 | both names extend the base name, and they differ |
| FileHandler.LastDot | server/file-handler.js:238 | the position of the last `.`, or none when there is no `.` |
| FileHandler.PartnerOfPage | server/file-handler.js:238-239 | the Markdown partner that `getFileDetails` derives from a page's name is the file saved with it |
| FileHandler.ParsedName | server/file-handler.js:238 | `path.parse(file).name`: the name before its last `.`, or the whole name when it has no `.` or its only `.` leads; it differs from Node on `..` (Node gives `..`, the model `.`), a name the program never produces |

## Left out

- HTML parsing (jsdom), `cloneNode`, `querySelectorAll` and `outerHTML` are
  not modelled. A parsed body is an input tree; the clone is a copy of an
  element arena in pre-order; serialization is a function parameter.
- `simpleHtmlToMarkdown` (server/html-converter.js:27-109) is not modelled.
  It is a regular-expression fallback, reached only when jsdom throws.
- The URL parser (`new URL`) and hostname extraction are function
  parameters. Their results are not interpreted.
- `getComputedStyle`, `document.styleSheets` and `CSSRule` are inputs. A
  sheet whose rules cannot be read contributes no keyframes.
- The outer `catch` of `extractAndInlineStyles` and of
  `extractPseudoElementStyles` is not modelled. Every call that can throw
  sits inside an inner `try`, so those handlers are unreachable.
- The model keys `specialChecks` by the listed property names only. A
  property named like an `Object.prototype` member (`constructor`, say)
  would find an inherited function there.
- StyleExtractor.WithStyle: the model stores the joined declaration
  text as the `style` attribute. The source assigns it to `style.cssText`
  (content/style-extractor.js:43 and :168), and the browser parses that
  text and writes the attribute back in its own form: every declaration
  ends in `;`, the `text-shadow` declaration that the property list names
  twice is stored once, and shorthands and their longhands are merged.
  The attribute that the link pass reads and that `outerHTML` serializes
  therefore differs from the model's text in those respects. The same
  holds for the `style` of the spans built by StyleExtractor.PseudoSpan.
- The arena of a `Clone` is taken to have the shape of
  `[clone, ...querySelectorAll('*')]`, each slot but the root having one
  parent and the slots being in pre-order. `Valid` checks only that the
  references point forward, so the counts over the arena are the DOM's
  counts only for arenas of that shape.
- StyleExtractor.InlineElements: pseudo spans are appended to the arena
  after every original element, so the arena order of spans is not
  document order. The tree they belong to is faithful, and the loop never
  visits them.
- ContentV2.ConvertLinks: the resolved `el.src`/`el.href` property values
  are inputs, one per element, so they are not derived from the attributes.
- ContentScript.ClickStats: `hasBackgroundImages` is not shown to be
  preserved by the rewrite. A background rewrite may change the style text.
- Info fields are strings or absent. `String()` of other values, used by
  `escapeHtml`, is not modelled.
- The `linkStats` counters are non-negative integers. The `|| 0` fallbacks
  for a missing counter are not modelled.
- Console logging, the `fs` writes of `saveFiles`, `initializeOutputDir`
  and the rest of `getFileDetails` are not modelled: they are file-system
  I/O.
- The event wiring, UI, popup, server routes and the remaining browser
  code are not part of this model.
