/** The link pass of content/link-converter.js: on the clone the style
    pass has just rewritten, every relative URL of an image, a link, an
    inline `url(...)` and a lazy-loading attribute is resolved against the
    page address.

    `new URL(url, base).href` is the parameter `resolve`, which returns
    None where the constructor throws. The two regular expressions the
    pass uses are modelled by the functions that find their matches, and
    `String.prototype.replace` with a global expression and a callback by
    `ReplaceAll`. */
module LinkConverter {
  import opened Wrappers
  import opened Strings
  import opened Dom
  import opened StyleExtractor

  // ---------------------------------------------------------------------
  // Which URLs are converted, and how

  /** The prefixes that leave a URL alone: absolute, protocol-relative,
      inline data, mail, telephone, fragment and script URLs. */
  const KeptPrefixes: seq<string> := ["http", "data:", "//", "mailto:", "tel:", "#", "javascript:"]

  /** `needsConversion(url)`, where `url` is None for a missing attribute
      (`getAttribute` returns `null`). */
  function NeedsConversion(url: Option<string>): (r: bool)
    ensures r <==> url.Some? && url.value != [] && forall p :: p in KeptPrefixes ==> !StartsWith(url.value, p)
  {
    match url
    case None => false
    case Some(u) =>
      u != [] && !StartsWith(u, "http") && !StartsWith(u, "data:") && !StartsWith(u, "//")
      && !StartsWith(u, "mailto:") && !StartsWith(u, "tel:") && !StartsWith(u, "#")
      && !StartsWith(u, "javascript:")
  }

  /** What `needsConversion` decides on typical values. The test on
      `http` is a plain prefix test, so a relative path whose first
      segment starts with `http` is left relative, while an `ftp:` URL is
      handed to the resolver. */
  lemma NeedsConversionExamples()
    ensures NeedsConversion(Some("images/logo.png")) && NeedsConversion(Some("ftp://example.com/a.png"))
    ensures !NeedsConversion(Some("https://example.com/a.png")) && !NeedsConversion(Some("#top"))
    ensures !NeedsConversion(None) && !NeedsConversion(Some(""))
    ensures !NeedsConversion(Some("httpdocs/a.png"))
  {
    assert "images/logo.png"[0] == 'i';
    assert "ftp://example.com/a.png"[0] == 'f';
    assert StartsWith("httpdocs/a.png", "http") by {
      assert "httpdocs/a.png"[..4] == "http";
    }
    assert StartsWith("https://example.com/a.png", "http") by {
      assert "https://example.com/a.png"[..4] == "http";
    }
  }

  /** `new URL(url, base).href`, or None where it throws. */
  type Resolver = (string, string) -> Option<string>

  /** `convertUrl(url, currentPath)`: the resolved URL, or `url` itself
      when resolution throws. */
  function ConvertUrl(url: string, base: string, resolve: Resolver): (r: string)
    ensures resolve(url, base).None? ==> r == url
    ensures resolve(url, base).Some? ==> r == resolve(url, base).value
  {
    match resolve(url, base)
    case Some(href) => href
    case None => url
  }

  // ---------------------------------------------------------------------
  // Global replacement with a callback

  /** A match of one of the pass's URL patterns: the index past it, the
      matched text, the URL group and, for `srcset`, the descriptor group
      ("" when it did not participate). */
  datatype UrlMatch = UrlMatch(end: nat, text: string, url: string, descriptor: string)

  /** Where a regular expression matches when tried at an index. */
  type Finder = (string, nat) -> Option<UrlMatch>

  /** Every match the finder reports is the non-empty slice of `s` it
      spans. */
  ghost predicate Sound(s: string, find: Finder) {
    forall q :: 0 <= q < |s| && find(s, q).Some? ==>
      q < find(s, q).value.end <= |s| && find(s, q).value.text == s[q..find(s, q).value.end]
  }

  /** `s.slice(p).replace(regex, callback)` for a global expression: scan
      from the left, replace each match by the callback's text and go on
      after it; characters no match starts at are kept. */
  function ReplaceAll(s: string, p: nat, find: Finder, callback: UrlMatch -> string): string
    requires p <= |s| && Sound(s, find)
    decreases |s| - p
  {
    if p == |s| then ""
    else
      match find(s, p)
      case Some(m) => callback(m) + ReplaceAll(s, m.end, find, callback)
      case None => [s[p]] + ReplaceAll(s, p + 1, find, callback)
  }

  /** The matches the scan of `ReplaceAll` visits, left to right. */
  function MatchesFrom(s: string, p: nat, find: Finder): seq<UrlMatch>
    requires p <= |s| && Sound(s, find)
    decreases |s| - p
  {
    if p == |s| then []
    else
      match find(s, p)
      case Some(m) => [m] + MatchesFrom(s, m.end, find)
      case None => MatchesFrom(s, p + 1, find)
  }

  /** A callback that returns every visited match unchanged leaves the
      string unchanged. */
  lemma {:induction false} ReplaceAllKeeps(s: string, p: nat, find: Finder, callback: UrlMatch -> string)
    requires p <= |s| && Sound(s, find)
    requires forall m :: m in MatchesFrom(s, p, find) ==> callback(m) == m.text
    ensures ReplaceAll(s, p, find, callback) == s[p..]
    decreases |s| - p
  {
    if p < |s| {
      match find(s, p)
      case Some(m) =>
        assert MatchesFrom(s, p, find) == [m] + MatchesFrom(s, m.end, find);
        ReplaceAllKeeps(s, m.end, find, callback);
        assert ReplaceAll(s, p, find, callback) == m.text + s[m.end..];
        assert s[p..] == s[p..m.end] + s[m.end..];
      case None =>
        assert MatchesFrom(s, p, find) == MatchesFrom(s, p + 1, find);
        ReplaceAllKeeps(s, p + 1, find, callback);
        assert s[p..] == [s[p]] + s[p + 1..];
    }
  }

  // ---------------------------------------------------------------------
  // `url(...)` in inline styles: /url\(['"]?([^'")]+)['"]?\)/g

  /** The characters of the class `[^'")]`. */
  predicate IsUrlChar(c: char) {
    c != '\'' && c != '"' && c != ')'
  }

  /** The end of the longest run of `[^'")]` starting at `p`. */
  function UrlCharsEnd(s: string, p: nat): (r: nat)
    requires p <= |s|
    ensures p <= r <= |s| && (forall k :: p <= k < r ==> IsUrlChar(s[k]))
    ensures r < |s| ==> !IsUrlChar(s[r])
    decreases |s| - p
  {
    if p < |s| && IsUrlChar(s[p]) then UrlCharsEnd(s, p + 1) else p
  }

  /** No quote, or one quote of either kind (`['"]?`). */
  predicate IsOptionalQuote(q: string) {
    q == "" || q == "'" || q == "\""
  }

  /** `text` is `url(`, an optional quote, `url`, an optional quote and
      `)`. */
  ghost predicate IsCssUrlText(text: string, url: string) {
    exists a, b :: IsOptionalQuote(a) && IsOptionalQuote(b) && text == "url(" + a + url + b + ")"
  }

  /** The match of the `url(...)` expression tried at index `p`. The
      greedy groups never need to backtrack: the URL group stops at the
      first quote or `)`, and the match exists exactly when an optional
      quote and `)` follow it. */
  function CssUrlAt(s: string, p: nat): (r: Option<UrlMatch>)
    ensures r.Some? ==> p < r.value.end <= |s| && r.value.text == s[p..r.value.end]
    ensures r.Some? ==> IsCssUrlText(r.value.text, r.value.url) && r.value.url != [] && r.value.descriptor == ""
                        && forall k :: 0 <= k < |r.value.url| ==> IsUrlChar(r.value.url[k])
  {
    if p + 4 <= |s| && s[p..p + 4] == "url(" then
      var q := if p + 4 < |s| && IsQuote(s[p + 4]) then p + 5 else p + 4;
      var e := UrlCharsEnd(s, q);
      var f := if e < |s| && IsQuote(s[e]) then e + 1 else e;
      if q < e && f < |s| && s[f] == ')' then
        assert s[p..q] == s[p..p + 4] + s[p + 4..q];
        assert s[p..e] == s[p..q] + s[q..e];
        assert s[p..f] == s[p..e] + s[e..f];
        assert s[p..f + 1] == s[p..f] + [s[f]];
        assert IsOptionalQuote(s[p + 4..q]) && IsOptionalQuote(s[e..f]);
        Some(UrlMatch(f + 1, s[p..f + 1], s[q..e], ""))
      else None
    else None
  }

  /** Conversely, a well-formed `url(...)` is matched where it starts,
      with its URL as the group. */
  lemma CssUrlAtFinds(a: string, url: string, b: string, rest: string)
    requires IsOptionalQuote(a) && IsOptionalQuote(b) && url != []
    requires forall k :: 0 <= k < |url| ==> IsUrlChar(url[k])
    ensures var text := "url(" + a + url + b + ")";
      CssUrlAt(text + rest, 0) == Some(UrlMatch(|text|, text, url, ""))
  {
    OptionalQuoteShape(a);
    OptionalQuoteShape(b);
    var text := "url(" + a + url + b + ")";
    var s := text + rest;
    var q := 4 + |a|;
    var e := q + |url|;
    var f := e + |b|;
    assert s[..4] == "url(";
    assert q == if 4 < |s| && IsQuote(s[4]) then 5 else 4 by {
      if |a| == 0 { assert s[4] == url[0]; } else { assert s[4] == a[0]; }
    }
    assert s[q..e] == url;
    assert s[e] == if |b| == 0 then ')' else b[0];
    UrlCharsEndAt(s, q, e);
    assert f == if e < |s| && IsQuote(s[e]) then e + 1 else e;
    assert s[f] == ')';
    CssUrlAtMatch(s, q, e, f);
    assert s[..f + 1] == text;
  }

  /** An optional quote is at most one quote character. */
  lemma OptionalQuoteShape(q: string)
    requires IsOptionalQuote(q)
    ensures |q| <= 1 && (|q| == 1 ==> IsQuote(q[0]))
  {
  }

  /** A run of URL characters ended by another character is the longest
      run. */
  lemma UrlCharsEndAt(s: string, q: nat, e: nat)
    requires q <= e < |s| && !IsUrlChar(s[e])
    requires forall k :: 0 <= k < e - q ==> IsUrlChar(s[q..e][k])
    ensures UrlCharsEnd(s, q) == e
  {
    assert forall k :: q <= k < e ==> IsUrlChar(s[k]) by {
      forall k | q <= k < e
        ensures IsUrlChar(s[k])
      {
        assert s[q..e][k - q] == s[k];
      }
    }
    UrlCharsRun(s, q, e);
  }

  lemma {:induction false} UrlCharsRun(s: string, q: nat, e: nat)
    requires q <= e < |s| && !IsUrlChar(s[e])
    requires forall k :: q <= k < e ==> IsUrlChar(s[k])
    ensures UrlCharsEnd(s, q) == e
    decreases e - q
  {
    if q < e {
      UrlCharsRun(s, q + 1, e);
    }
  }

  /** The match at the start of `s` once its parts are located. */
  lemma CssUrlAtMatch(s: string, q: nat, e: nat, f: nat)
    requires 4 <= |s| && s[..4] == "url("
    requires q == if 4 < |s| && IsQuote(s[4]) then 5 else 4
    requires q < e && e == UrlCharsEnd(s, q)
    requires f == if e < |s| && IsQuote(s[e]) then e + 1 else e
    requires f < |s| && s[f] == ')'
    ensures CssUrlAt(s, 0) == Some(UrlMatch(f + 1, s[..f + 1], s[q..e], ""))
  {
    assert s[0..4] == s[..4];
  }

  lemma CssUrlAtSound(s: string)
    ensures Sound(s, CssUrlAt)
  {
  }

  /** The callback of the style rewrite: a URL that needs conversion
      becomes `url('<resolved>')`, any other match is kept. */
  function CssCallback(base: string, resolve: Resolver): UrlMatch -> string {
    (m: UrlMatch) => if NeedsConversion(Some(m.url)) then "url('" + ConvertUrl(m.url, base, resolve) + "')" else m.text
  }

  /** The rewrite of an inline style. */
  function RewriteCssUrls(style: string, base: string, resolve: Resolver): string {
    CssUrlAtSound(style);
    ReplaceAll(style, 0, CssUrlAt, CssCallback(base, resolve))
  }

  /** The `url(...)` URLs of a style, in the order the rewrite visits
      them. */
  function CssUrls(style: string): seq<string>
  {
    CssUrlAtSound(style);
    var ms := MatchesFrom(style, 0, CssUrlAt);
    seq(|ms|, k requires 0 <= k < |ms| => ms[k].url)
  }

  /** A style whose `url(...)` URLs are all absolute (or otherwise kept)
      comes out unchanged. */
  lemma CssKeptWhenNothingToConvert(style: string, base: string, resolve: Resolver)
    requires forall u :: u in CssUrls(style) ==> !NeedsConversion(Some(u))
    ensures RewriteCssUrls(style, base, resolve) == style
  {
    CssUrlAtSound(style);
    var ms := MatchesFrom(style, 0, CssUrlAt);
    forall m | m in ms
      ensures CssCallback(base, resolve)(m) == m.text
    {
      var k :| 0 <= k < |ms| && ms[k] == m;
      assert CssUrls(style)[k] == m.url;
    }
    ReplaceAllKeeps(style, 0, CssUrlAt, CssCallback(base, resolve));
  }

  /** Without `url(` the expression matches nowhere, so the `includes`
      test in front of the rewrite changes nothing but the
      `hasBackgroundImages` flag. */
  lemma NoUrlNoMatch(style: string)
    requires !Contains(style, "url(")
    ensures CssUrls(style) == []
  {
    CssUrlAtSound(style);
    NoUrlNoMatchFrom(style, 0);
  }

  lemma {:induction false} NoUrlNoMatchFrom(style: string, p: nat)
    requires p <= |style| && !Contains(style, "url(")
    ensures Sound(style, CssUrlAt) && MatchesFrom(style, p, CssUrlAt) == []
    decreases |style| - p
  {
    CssUrlAtSound(style);
    if p < |style| {
      if CssUrlAt(style, p).Some? {
        OccursImpliesContains(style, "url(", p);
      }
      NoUrlNoMatchFrom(style, p + 1);
    }
  }

  // ---------------------------------------------------------------------
  // `srcset`: /(\S+)(\s+\S+)?/g

  /** The end of the longest run of whitespace starting at `p`. */
  function BlankEnd(s: string, p: nat): (r: nat)
    requires p <= |s|
    ensures p <= r <= |s| && (forall k :: p <= k < r ==> IsWhitespace(s[k]))
    ensures r < |s| ==> !IsWhitespace(s[r])
    decreases |s| - p
  {
    if p < |s| && IsWhitespace(s[p]) then BlankEnd(s, p + 1) else p
  }

  /** The end of the longest run of non-whitespace starting at `p`. */
  function WordEnd(s: string, p: nat): (r: nat)
    requires p <= |s|
    ensures p <= r <= |s| && (forall k :: p <= k < r ==> !IsWhitespace(s[k]))
    ensures r < |s| ==> IsWhitespace(s[r])
    decreases |s| - p
  {
    if p < |s| && !IsWhitespace(s[p]) then WordEnd(s, p + 1) else p
  }

  /** The match of the `srcset` expression tried at index `p`: a word as
      the URL, then, when whitespace and another word follow, both as the
      descriptor. It exists exactly where a word starts. */
  function SrcsetCandidateAt(s: string, p: nat): (r: Option<UrlMatch>)
    ensures r.Some? <==> p < |s| && !IsWhitespace(s[p])
    ensures r.Some? ==> p < r.value.end <= |s| && r.value.text == s[p..r.value.end]
                        && r.value.text == r.value.url + r.value.descriptor && r.value.url != []
                        && (forall k :: 0 <= k < |r.value.url| ==> !IsWhitespace(r.value.url[k]))
                        && (r.value.descriptor != [] ==> IsWhitespace(r.value.descriptor[0]))
                        && (r.value.end < |s| ==> IsWhitespace(s[r.value.end]))
  {
    if p < |s| && !IsWhitespace(s[p]) then
      var u := WordEnd(s, p);
      var w := BlankEnd(s, u);
      var e := if u < w < |s| then WordEnd(s, w) else u;
      assert s[p..e] == s[p..u] + s[u..e];
      Some(UrlMatch(e, s[p..e], s[p..u], s[u..e]))
    else None
  }

  lemma SrcsetCandidateAtSound(s: string)
    ensures Sound(s, SrcsetCandidateAt)
  {
  }

  /** A URL followed by one space and a descriptor is one candidate. */
  lemma SrcsetCandidateWithDescriptor(url: string, d: string, rest: string)
    requires url != [] && d != []
    requires forall k :: 0 <= k < |url| ==> !IsWhitespace(url[k])
    requires forall k :: 0 <= k < |d| ==> !IsWhitespace(d[k])
    requires rest == [] || IsWhitespace(rest[0])
    ensures SrcsetCandidateAt(url + " " + d + rest, 0) == Some(UrlMatch(|url| + 1 + |d|, url + " " + d, url, " " + d))
  {
    var s := url + " " + d + rest;
    var u := |url|;
    assert s[u] == ' ';
    assert WordEnd(s, 0) == u;
    assert BlankEnd(s, u) == u + 1 by {
      assert s[u + 1] == d[0];
    }
    assert WordEnd(s, u + 1) == u + 1 + |d| by {
      if u + 1 + |d| < |s| {
        assert s[u + 1 + |d|] == rest[0];
      }
    }
    assert s[..u] == url;
    assert s[u..u + 1 + |d|] == " " + d;
    assert s[..u + 1 + |d|] == url + " " + d;
  }

  /** Two URLs separated by a comma and no descriptor form a single
      candidate: the first URL keeps the comma and the second URL is the
      descriptor, so it is never converted. */
  lemma SrcsetCommaQuirk(a: string, b: string, rest: string)
    requires a != [] && b != []
    requires forall k :: 0 <= k < |a| ==> !IsWhitespace(a[k])
    requires forall k :: 0 <= k < |b| ==> !IsWhitespace(b[k])
    requires rest == [] || IsWhitespace(rest[0])
    ensures SrcsetCandidateAt(a + ", " + b + rest, 0) == Some(UrlMatch(|a| + 2 + |b|, a + ", " + b, a + ",", " " + b))
  {
    assert forall k :: 0 <= k < |a + ","| ==> !IsWhitespace((a + ",")[k]) by {
      forall k | 0 <= k < |a + ","|
        ensures !IsWhitespace((a + ",")[k])
      {
        if k < |a| {
          assert (a + ",")[k] == a[k];
        }
      }
    }
    assert a + ", " + b + rest == (a + ",") + " " + b + rest;
    SrcsetCandidateWithDescriptor(a + ",", b, rest);
    assert (a + ",") + " " + b == a + ", " + b;
  }

  /** The callback of the `srcset` rewrite: a URL that needs conversion is
      resolved and its descriptor kept; any other match is kept. */
  function SrcsetCallback(base: string, resolve: Resolver): UrlMatch -> string {
    (m: UrlMatch) => if NeedsConversion(Some(m.url)) then ConvertUrl(m.url, base, resolve) + m.descriptor else m.text
  }

  /** The rewrite of a `srcset` value. */
  function RewriteSrcset(srcset: string, base: string, resolve: Resolver): string {
    SrcsetCandidateAtSound(srcset);
    ReplaceAll(srcset, 0, SrcsetCandidateAt, SrcsetCallback(base, resolve))
  }

  /** The candidate URLs of a `srcset` value, in the order the rewrite
      visits them. */
  function SrcsetUrls(srcset: string): seq<string>
  {
    SrcsetCandidateAtSound(srcset);
    var ms := MatchesFrom(srcset, 0, SrcsetCandidateAt);
    seq(|ms|, k requires 0 <= k < |ms| => ms[k].url)
  }

  /** A `srcset` whose candidate URLs are all kept comes out unchanged. */
  lemma SrcsetKeptWhenNothingToConvert(srcset: string, base: string, resolve: Resolver)
    requires forall u :: u in SrcsetUrls(srcset) ==> !NeedsConversion(Some(u))
    ensures RewriteSrcset(srcset, base, resolve) == srcset
  {
    SrcsetCandidateAtSound(srcset);
    var ms := MatchesFrom(srcset, 0, SrcsetCandidateAt);
    forall m | m in ms
      ensures SrcsetCallback(base, resolve)(m) == m.text
    {
      var k :| 0 <= k < |ms| && ms[k] == m;
      assert SrcsetUrls(srcset)[k] == m.url;
    }
    ReplaceAllKeeps(srcset, 0, SrcsetCandidateAt, SrcsetCallback(base, resolve));
  }

  // ---------------------------------------------------------------------
  // One element

  /** The attributes tried after the style, in order. */
  const UrlAttributes: seq<string> := ["srcset", "data-src", "data-original", "data-lazy"]

  /** One URL attribute converted when its whole value needs conversion:
      a `srcset` candidate by candidate, any other attribute as one URL. */
  function ConvertUrlAttr(attrs: seq<Attr>, name: string, base: string, resolve: Resolver): seq<Attr> {
    var value := GetAttr(attrs, name);
    if !NeedsConversion(value) then attrs
    else if name == "srcset" then SetAttr(attrs, name, RewriteSrcset(value.value, base, resolve))
    else SetAttr(attrs, name, ConvertUrl(value.value, base, resolve))
  }

  /** The attributes of `names` converted in order. */
  function ConvertUrlAttrs(attrs: seq<Attr>, names: seq<string>, base: string, resolve: Resolver): seq<Attr> {
    if names == [] then attrs
    else ConvertUrlAttr(ConvertUrlAttrs(attrs, names[..|names| - 1], base, resolve), names[|names| - 1], base, resolve)
  }

  /** The inline style has a `url(` to rewrite (`style && style.includes('url(')`). */
  predicate HasUrlStyle(attrs: seq<Attr>) {
    GetAttr(attrs, "style").Some? && Contains(GetAttr(attrs, "style").value, "url(")
  }

  /** The body of the `forEach` callback of `convertRelativeToAbsolute`
      on one element: `src` of an image, `href` of a link, the inline
      style, then the lazy-loading attributes. */
  function LinkElement(e: Element, base: string, resolve: Resolver): (r: Element)
    ensures r.tag == e.tag && r.children == e.children
  {
    var withSrc := if e.tag == IMG then ConvertUrlAttr(e.attrs, "src", base, resolve) else e.attrs;
    var withHref := if e.tag == A then ConvertUrlAttr(withSrc, "href", base, resolve) else withSrc;
    var withStyle :=
      if HasUrlStyle(withHref) then SetAttr(withHref, "style", RewriteCssUrls(GetAttr(withHref, "style").value, base, resolve))
      else withHref;
    e.(attrs := ConvertUrlAttrs(withStyle, UrlAttributes, base, resolve))
  }

  /** What one element adds to the link counters. */
  datatype LinkCounts = LinkCounts(images: nat, links: nat, convertedImages: nat, convertedLinks: nat, background: bool)

  function ElementCounts(e: Element): LinkCounts {
    var img := e.tag == IMG;
    var a := e.tag == A;
    LinkCounts(if img then 1 else 0, if a then 1 else 0,
               if img && NeedsConversion(GetAttr(e.attrs, "src")) then 1 else 0,
               if a && NeedsConversion(GetAttr(e.attrs, "href")) then 1 else 0,
               HasUrlStyle(e.attrs))
  }

  /** Counters added up; the background flag is sticky. */
  function Plus(c: LinkCounts, d: LinkCounts): LinkCounts {
    LinkCounts(c.images + d.images, c.links + d.links, c.convertedImages + d.convertedImages,
               c.convertedLinks + d.convertedLinks, c.background || d.background)
  }

  /** The counters of a sequence of elements, summed. */
  function Counts(elems: seq<Element>): LinkCounts {
    if elems == [] then LinkCounts(0, 0, 0, 0, false)
    else Plus(Counts(elems[..|elems| - 1]), ElementCounts(elems[|elems| - 1]))
  }

  /** One more element adds its own counters. */
  lemma CountsSnoc(elems: seq<Element>, i: nat)
    requires i < |elems|
    ensures Counts(elems[..i + 1]) == Plus(Counts(elems[..i]), ElementCounts(elems[i]))
  {
    assert elems[..i + 1][..i] == elems[..i];
  }

  /** Only images and links are counted, and no more of them converted
      than were seen. */
  lemma {:induction false} CountsBounds(elems: seq<Element>)
    ensures var c := Counts(elems);
      c.convertedImages <= c.images && c.convertedLinks <= c.links && c.images + c.links <= |elems|
  {
    if elems != [] {
      CountsBounds(elems[..|elems| - 1]);
    }
  }

  /** The background flag is set exactly when some element's inline style
      mentions `url(`. */
  lemma {:induction false} CountsBackground(elems: seq<Element>)
    ensures Counts(elems).background <==> exists k :: 0 <= k < |elems| && HasUrlStyle(elems[k].attrs)
  {
    if elems != [] {
      var init := elems[..|elems| - 1];
      CountsBackground(init);
      if exists k :: 0 <= k < |init| && HasUrlStyle(init[k].attrs) {
        var k :| 0 <= k < |init| && HasUrlStyle(init[k].attrs);
        assert elems[k] == init[k];
      }
      if exists k :: 0 <= k < |elems| && HasUrlStyle(elems[k].attrs) {
        var k :| 0 <= k < |elems| && HasUrlStyle(elems[k].attrs);
        if k < |init| {
          assert init[k] == elems[k];
        }
      }
    }
  }

  /** Every element of the arena processed independently. */
  function LinkAll(elems: seq<Element>, base: string, resolve: Resolver): (r: seq<Element>)
    ensures |r| == |elems| && forall k :: 0 <= k < |elems| ==> r[k] == LinkElement(elems[k], base, resolve)
  {
    if elems == [] then []
    else LinkAll(elems[..|elems| - 1], base, resolve) + [LinkElement(elems[|elems| - 1], base, resolve)]
  }

  /** One more element of the arena processed. */
  lemma LinkAllSnoc(elems: seq<Element>, i: nat, base: string, resolve: Resolver)
    requires i < |elems|
    ensures LinkAll(elems[..i + 1], base, resolve) == LinkAll(elems[..i], base, resolve) + [LinkElement(elems[i], base, resolve)]
  {
    assert elems[..i + 1][..i] == elems[..i];
  }

  /** The link pass changes attributes only, so every reference still
      points forward. */
  lemma LinkAllForward(elems: seq<Element>, base: string, resolve: Resolver)
    requires RefsForward(elems)
    ensures RefsForward(LinkAll(elems, base, resolve))
  {
    AttrsForward(elems, LinkAll(elems, base, resolve));
  }

  /** Overwriting the first element after a prefix. */
  lemma Splice<T>(a: seq<T>, b: seq<T>, x: T)
    requires |b| > 0
    ensures (a + b)[|a| := x] == a + [x] + b[1..]
  {
  }

  // ---------------------------------------------------------------------
  // What conversion promises about one attribute

  /** With a resolver whose results never need conversion, converting an
      attribute twice is converting it once: a resolved URL is left
      alone, and a URL the resolver rejected is rejected again. */
  lemma ConvertUrlAttrIdempotent(attrs: seq<Attr>, name: string, base: string, resolve: Resolver)
    requires name != "srcset"
    requires forall u :: resolve(u, base).Some? ==> !NeedsConversion(resolve(u, base))
    ensures var once := ConvertUrlAttr(attrs, name, base, resolve);
      ConvertUrlAttr(once, name, base, resolve) == once
  {
    var value := GetAttr(attrs, name);
    if NeedsConversion(value) {
      var v := ConvertUrl(value.value, base, resolve);
      GetSetAttr(attrs, name, v, name);
      if resolve(value.value, base).None? {
        SetAttrSame(attrs, name);
      }
    }
  }

  /** Conversion touches only the attribute it converts. */
  lemma ConvertUrlAttrOthers(attrs: seq<Attr>, name: string, other: string, base: string, resolve: Resolver)
    requires other != name
    ensures GetAttr(ConvertUrlAttr(attrs, name, base, resolve), other) == GetAttr(attrs, other)
  {
    var value := GetAttr(attrs, name);
    if NeedsConversion(value) {
      if name == "srcset" {
        GetSetAttr(attrs, name, RewriteSrcset(value.value, base, resolve), other);
      } else {
        GetSetAttr(attrs, name, ConvertUrl(value.value, base, resolve), other);
      }
    }
  }

  /** An element's attributes other than the seven URL-bearing ones are
      left alone by the link pass. */
  lemma LinkElementOthers(e: Element, other: string, base: string, resolve: Resolver)
    requires other !in ["src", "href", "style"] + UrlAttributes
    ensures GetAttr(LinkElement(e, base, resolve).attrs, other) == GetAttr(e.attrs, other)
  {
    var withSrc := if e.tag == IMG then ConvertUrlAttr(e.attrs, "src", base, resolve) else e.attrs;
    ConvertUrlAttrOthers(e.attrs, "src", other, base, resolve);
    var withHref := if e.tag == A then ConvertUrlAttr(withSrc, "href", base, resolve) else withSrc;
    ConvertUrlAttrOthers(withSrc, "href", other, base, resolve);
    var withStyle :=
      if HasUrlStyle(withHref) then SetAttr(withHref, "style", RewriteCssUrls(GetAttr(withHref, "style").value, base, resolve))
      else withHref;
    if HasUrlStyle(withHref) {
      GetSetAttr(withHref, "style", RewriteCssUrls(GetAttr(withHref, "style").value, base, resolve), other);
    }
    ConvertUrlAttrsOthers(withStyle, UrlAttributes, other, base, resolve);
  }

  lemma {:induction false} ConvertUrlAttrsOthers(attrs: seq<Attr>, names: seq<string>, other: string, base: string, resolve: Resolver)
    requires other !in names
    ensures GetAttr(ConvertUrlAttrs(attrs, names, base, resolve), other) == GetAttr(attrs, other)
  {
    if names != [] {
      var init := names[..|names| - 1];
      assert forall n :: n in init ==> n in names;
      ConvertUrlAttrsOthers(attrs, init, other, base, resolve);
      ConvertUrlAttrOthers(ConvertUrlAttrs(attrs, init, base, resolve), names[|names| - 1], other, base, resolve);
    }
  }

  // ---------------------------------------------------------------------
  // The pass

  /** The `forEach` over `urlAttributes` on one element's attributes. */
  method ConvertUrlAttributes(attrs: seq<Attr>, base: string, resolve: Resolver) returns (r: seq<Attr>)
    ensures r == ConvertUrlAttrs(attrs, UrlAttributes, base, resolve)
  {
    r := attrs;
    for k := 0 to |UrlAttributes|
      invariant r == ConvertUrlAttrs(attrs, UrlAttributes[..k], base, resolve)
    {
      assert UrlAttributes[..k + 1][..k] == UrlAttributes[..k];
      var name := UrlAttributes[k];
      var value := GetAttr(r, name);
      if NeedsConversion(value) {
        if name == "srcset" {
          r := SetAttr(r, name, RewriteSrcset(value.value, base, resolve));
        } else {
          r := SetAttr(r, name, ConvertUrl(value.value, base, resolve));
        }
      }
    }
    assert UrlAttributes[..|UrlAttributes|] == UrlAttributes;
  }

  /** The callback of `convertRelativeToAbsolute` on element `i`, with
      the counters it adds. */
  method ConvertElementLinks(clone: Clone, i: nat, base: string, resolve: Resolver) returns (counts: LinkCounts)
    requires i < |clone.elems|
    modifies clone
    ensures clone.elems == old(clone.elems)[i := LinkElement(old(clone.elems)[i], base, resolve)]
    ensures counts == ElementCounts(old(clone.elems)[i])
  {
    var e := clone.elems[i];
    var attrs := e.attrs;
    var images, links, convertedImages, convertedLinks := 0, 0, 0, 0;
    if e.tag == IMG {
      images := 1;
      var src := GetAttr(attrs, "src");
      if NeedsConversion(src) {
        attrs := SetAttr(attrs, "src", ConvertUrl(src.value, base, resolve));
        convertedImages := 1;
      }
    }
    if e.tag == A {
      links := 1;
      var href := GetAttr(attrs, "href");
      if NeedsConversion(href) {
        attrs := SetAttr(attrs, "href", ConvertUrl(href.value, base, resolve));
        convertedLinks := 1;
      }
    }
    ConvertUrlAttrOthers(e.attrs, "src", "style", base, resolve);
    ConvertUrlAttrOthers(if e.tag == IMG then ConvertUrlAttr(e.attrs, "src", base, resolve) else e.attrs, "href", "style", base, resolve);
    var background := false;
    var style := GetAttr(attrs, "style");
    if style.Some? && Contains(style.value, "url(") {
      background := true;
      attrs := SetAttr(attrs, "style", RewriteCssUrls(style.value, base, resolve));
    }
    attrs := ConvertUrlAttributes(attrs, base, resolve);
    clone.elems := clone.elems[i := e.(attrs := attrs)];
    counts := LinkCounts(images, links, convertedImages, convertedLinks, background);
  }

  /** The `forEach` loop of `convertRelativeToAbsolute` over
      `[clone, ...clone.querySelectorAll('*')]`: every element of the
      arena, with the counters summed. Each element is processed on its
      own, so the arena order of the pseudo-element spans makes no
      difference. */
  method ConvertAllLinks(clone: Clone, base: string, resolve: Resolver) returns (counts: LinkCounts)
    modifies clone
    ensures clone.elems == LinkAll(old(clone.elems), base, resolve) && counts == Counts(old(clone.elems))
  {
    ghost var elems0 := clone.elems;
    var n := |clone.elems|;
    counts := LinkCounts(0, 0, 0, 0, false);
    var i := 0;
    while i < n
      invariant 0 <= i <= n == |elems0| == |clone.elems|
      invariant clone.elems == LinkAll(elems0[..i], base, resolve) + elems0[i..]
      invariant counts == Counts(elems0[..i])
    {
      var c := ConvertElementLinks(clone, i, base, resolve);
      LinkAllSnoc(elems0, i, base, resolve);
      Splice(LinkAll(elems0[..i], base, resolve), elems0[i..], LinkElement(elems0[i], base, resolve));
      assert elems0[i..][1..] == elems0[i + 1..];
      CountsSnoc(elems0, i);
      counts := Plus(counts, c);
      i := i + 1;
    }
    assert elems0[..n] == elems0;
  }

  /** `createLinkStats()` after `Object.assign(linkStats, styleResult.stats)`
      and the link pass. */
  datatype LinkStats = LinkStats(
    totalImages: nat, totalLinks: nat, convertedImages: nat, convertedLinks: nat, hasBackgroundImages: bool,
    styledElements: nat, pseudoElements: nat, animatedElements: nat, hasKeyframes: bool)

  /** `convertRelativeToAbsolute(element)`: clone the element, run the
      style pass on the clone, then convert the URLs of every element of
      the clone, the spans created for pseudo-elements included. The HTML
      returned is the style pass's, serialized before any URL was
      converted; `currentPath` is `window.location.href`. */
  method ConvertRelativeToAbsolute(element: seq<Element>, computed: seq<Computed>, sheets: seq<Sheet>,
                                   serialize: seq<Element> -> string, currentPath: string, resolve: Resolver)
    returns (clone: Clone, html: string, linkStats: LinkStats)
    requires |element| > 0 && RefsForward(element) && |computed| == |element|
    ensures fresh(clone) && clone.Valid()
    ensures var pass := InlineUpTo(element, computed, |computed|, Extractor);
      clone.elems == LinkAll(pass.elems, currentPath, resolve)
      && html == KeyframesBlock(KeyframesOf(sheets)) + serialize(pass.elems)
      && var c := Counts(pass.elems);
         linkStats == LinkStats(c.images, c.links, c.convertedImages, c.convertedLinks, c.background,
                                pass.styled, pass.pseudo, pass.animated, KeyframesOf(sheets) != [])
  {
    clone := new Clone(element);
    var styleResult := ExtractAndInlineStyles(clone, computed, sheets, serialize);
    linkStats := LinkStats(0, 0, 0, 0, false, 0, 0, 0, false);
    linkStats := linkStats.(styledElements := styleResult.stats.styledElements,
                            pseudoElements := styleResult.stats.pseudoElements,
                            animatedElements := styleResult.stats.animatedElements,
                            hasKeyframes := styleResult.stats.hasKeyframes);
    ghost var styled := clone.elems;
    var counts := ConvertAllLinks(clone, currentPath, resolve);
    LinkAllForward(styled, currentPath, resolve);
    linkStats := linkStats.(totalImages := linkStats.totalImages + counts.images,
                            totalLinks := linkStats.totalLinks + counts.links,
                            convertedImages := linkStats.convertedImages + counts.convertedImages,
                            convertedLinks := linkStats.convertedLinks + counts.convertedLinks,
                            hasBackgroundImages := linkStats.hasBackgroundImages || counts.background);
    html := styleResult.html;
  }
}
