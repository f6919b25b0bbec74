/** The link rewriting of content-v2.js: its `convertLinks` visits the
    images and links among the clone's descendants (`img, a`; the root is
    never visited), reads their resolved `src` or `href` property,
    assigns it its resolution when a regular expression says it needs
    conversion, and counts images and links.

    A browser reports the `src` and `href` properties already resolved
    against the document, so they are inputs here: `props[k]` is the
    property the callback reads on element `k` (`src` for an image,
    `href` for a link; unused for any other element). Assigning the
    property sets the attribute of the same name. */
module ContentV2 {
  import opened Wrappers
  import opened Strings
  import opened Dom
  import opened LinkConverter
  import StyleExtractor

  // ---------------------------------------------------------------------
  // `needsConversion`

  /** `/^(https?:|data:|\/\/|mailto:|tel:|#|javascript:)/` matches `u`:
      `http`, an optional `s` and a colon, or one of the other prefixes. */
  predicate MatchesKeptScheme(u: string) {
    (StartsWith(u, "http") && (StartsWith(u[4..], ":") || StartsWith(u[4..], "s:")))
    || StartsWith(u, "data:") || StartsWith(u, "//") || StartsWith(u, "mailto:") || StartsWith(u, "tel:")
    || StartsWith(u, "#") || StartsWith(u, "javascript:")
  }

  /** The prefixes the expression accepts, written out. */
  const V2KeptPrefixes: seq<string> := ["http:", "https:", "data:", "//", "mailto:", "tel:", "#", "javascript:"]

  /** `needsConversion(url)`: a non-empty URL the expression does not
      match. */
  predicate NeedsConversionV2(url: string) {
    url != "" && !MatchesKeptScheme(url)
  }

  /** A URL needs conversion exactly when it is non-empty and has none of
      the eight prefixes. */
  lemma NeedsConversionV2Prefixes(url: string)
    ensures NeedsConversionV2(url) <==> url != "" && forall p :: p in V2KeptPrefixes ==> !StartsWith(url, p)
  {
    HttpSchemes(url);
  }

  /** `http` followed by `:` or `s:` is `http:` or `https:`. */
  lemma HttpSchemes(u: string)
    ensures StartsWith(u, "http") && StartsWith(u[4..], ":") <==> StartsWith(u, "http:")
    ensures StartsWith(u, "http") && StartsWith(u[4..], "s:") <==> StartsWith(u, "https:")
  {
    if StartsWith(u, "http:") {
      assert u[..4] == "http:"[..4];
    }
    if StartsWith(u, "https:") {
      assert u[..4] == "https:"[..4];
    }
    if StartsWith(u, "http") && |u| >= 5 {
      assert u[..5] == u[..4] + u[4..][..1];
    }
    if StartsWith(u, "http") && |u| >= 6 {
      assert u[..6] == u[..4] + u[4..][..2];
    }
  }

  /** Every URL the link converter of content/link-converter.js resolves,
      this script resolves too: `http:` and `https:` both begin with
      `http`. */
  lemma ResolvesWhatLinkConverterResolves(u: string)
    requires LinkConverter.NeedsConversion(Some(u))
    ensures NeedsConversionV2(u)
  {
    NeedsConversionV2Prefixes(u);
    forall p | p in V2KeptPrefixes
      ensures !StartsWith(u, p)
    {
      if p != "http:" && p != "https:" {
        assert p in KeptPrefixes;
      }
    }
  }

  /** The converse fails: a relative path whose first segment begins with
      `http` is resolved here and kept by the link converter. */
  lemma HttpPrefixQuirk()
    ensures NeedsConversionV2("httpdocs/a.png") && !LinkConverter.NeedsConversion(Some("httpdocs/a.png"))
  {
    var u := "httpdocs/a.png";
    assert u[0] == 'h' && u[..4] == "http" && u[4..][0] == 'd';
    assert !StartsWith(u[4..], ":") && !StartsWith(u[4..], "s:");
  }

  /** An absolute URL and the empty string are kept, a relative path is
      resolved. */
  lemma NeedsConversionV2Examples()
    ensures !NeedsConversionV2("https://example.com/a.png") && !NeedsConversionV2("")
    ensures NeedsConversionV2("images/a.png")
  {
    assert "https://example.com/a.png"[..4] == "http" && "https://example.com/a.png"[4..][..2] == "s:";
    assert "images/a.png"[0] == 'i';
  }

  // ---------------------------------------------------------------------
  // The pass

  /** The four counters the script returns with the clone. */
  datatype V2Stats = V2Stats(totalImages: nat, totalLinks: nat, convertedImages: nat, convertedLinks: nat)

  /** The `forEach` callback on one element, `prop` being the property it
      reads: an image's `src` or a link's `href` assigned its resolution
      when it needs conversion. */
  function V2Element(e: Element, prop: string, base: string, resolve: Resolver): (r: Element)
    ensures r.tag == e.tag && r.children == e.children
  {
    if e.tag == IMG && NeedsConversionV2(prop) then e.(attrs := SetAttr(e.attrs, "src", ConvertUrl(prop, base, resolve)))
    else if e.tag == A && NeedsConversionV2(prop) then e.(attrs := SetAttr(e.attrs, "href", ConvertUrl(prop, base, resolve)))
    else e
  }

  /** What one element adds to the counters. */
  function V2ElementStats(e: Element, prop: string): V2Stats {
    var img := e.tag == IMG;
    var a := e.tag == A;
    V2Stats(if img then 1 else 0, if a then 1 else 0,
            if img && NeedsConversionV2(prop) then 1 else 0, if a && NeedsConversionV2(prop) then 1 else 0)
  }

  function Add(s: V2Stats, t: V2Stats): V2Stats {
    V2Stats(s.totalImages + t.totalImages, s.totalLinks + t.totalLinks,
            s.convertedImages + t.convertedImages, s.convertedLinks + t.convertedLinks)
  }

  /** The counters after visiting the descendants before index `i`. */
  function V2CountsTo(elems: seq<Element>, props: seq<string>, i: nat): V2Stats
    requires |props| == |elems| && i <= |elems|
  {
    if i <= 1 then V2Stats(0, 0, 0, 0)
    else Add(V2CountsTo(elems, props, i - 1), V2ElementStats(elems[i - 1], props[i - 1]))
  }

  /** The slots before index `i` after the pass: the root as it was, every
      descendant through the callback. */
  function V2PassTo(elems: seq<Element>, props: seq<string>, i: nat, base: string, resolve: Resolver): (r: seq<Element>)
    requires |props| == |elems| && 1 <= i <= |elems|
    ensures |r| == i && r[0] == elems[0]
  {
    if i == 1 then [elems[0]]
    else V2PassTo(elems, props, i - 1, base, resolve) + [V2Element(elems[i - 1], props[i - 1], base, resolve)]
  }

  /** Every descendant before index `i` went through the callback. */
  lemma {:induction false} V2PassToPointwise(elems: seq<Element>, props: seq<string>, i: nat, base: string, resolve: Resolver)
    requires |props| == |elems| && 1 <= i <= |elems|
    ensures forall k :: 1 <= k < i ==> V2PassTo(elems, props, i, base, resolve)[k] == V2Element(elems[k], props[k], base, resolve)
  {
    if i > 1 {
      V2PassToPointwise(elems, props, i - 1, base, resolve);
    }
  }

  /** The clone after the pass. */
  function V2Pass(elems: seq<Element>, props: seq<string>, base: string, resolve: Resolver): (r: seq<Element>)
    requires |props| == |elems| && |elems| > 0
    ensures |r| == |elems| && r[0] == elems[0]
    ensures forall k :: 1 <= k < |elems| ==> r[k] == V2Element(elems[k], props[k], base, resolve)
  {
    V2PassToPointwise(elems, props, |elems|, base, resolve);
    V2PassTo(elems, props, |elems|, base, resolve)
  }

  /** The counters of the whole pass. */
  function V2Counts(elems: seq<Element>, props: seq<string>): V2Stats
    requires |props| == |elems|
  {
    V2CountsTo(elems, props, |elems|)
  }

  /** The callback on element `i`, with what it adds to the counters. */
  method ConvertElement(clone: Clone, i: nat, prop: string, base: string, resolve: Resolver) returns (added: V2Stats)
    requires i < |clone.elems|
    modifies clone
    ensures clone.elems == old(clone.elems)[i := V2Element(old(clone.elems)[i], prop, base, resolve)]
    ensures added == V2ElementStats(old(clone.elems)[i], prop)
  {
    var e := clone.elems[i];
    added := V2Stats(0, 0, 0, 0);
    if e.tag == IMG {
      added := added.(totalImages := 1);
      if NeedsConversionV2(prop) {
        clone.elems := clone.elems[i := e.(attrs := SetAttr(e.attrs, "src", ConvertUrl(prop, base, resolve)))];
        added := added.(convertedImages := 1);
      }
    } else if e.tag == A {
      added := added.(totalLinks := 1);
      if NeedsConversionV2(prop) {
        clone.elems := clone.elems[i := e.(attrs := SetAttr(e.attrs, "href", ConvertUrl(prop, base, resolve)))];
        added := added.(convertedLinks := 1);
      }
    }
  }

  /** The `forEach` over `clone.querySelectorAll('img, a')`: every
      descendant, the callback doing nothing to the others. */
  method ConvertDescendants(clone: Clone, props: seq<string>, currentPath: string, resolve: Resolver)
    returns (stats: V2Stats)
    requires |clone.elems| > 0 && |props| == |clone.elems|
    modifies clone
    ensures clone.elems == V2Pass(old(clone.elems), props, currentPath, resolve)
    ensures stats == V2Counts(old(clone.elems), props)
  {
    ghost var elems0 := clone.elems;
    stats := V2Stats(0, 0, 0, 0);
    var n := |clone.elems|;
    assert elems0 == [elems0[0]] + elems0[1..];
    var i := 1;
    while i < n
      invariant 1 <= i <= n == |elems0| == |clone.elems|
      invariant clone.elems == V2PassTo(elems0, props, i, currentPath, resolve) + elems0[i..]
      invariant stats == V2CountsTo(elems0, props, i)
    {
      assert elems0[i..][1..] == elems0[i + 1..];
      Splice(V2PassTo(elems0, props, i, currentPath, resolve), elems0[i..], V2Element(elems0[i], props[i], currentPath, resolve));
      var added := ConvertElement(clone, i, props[i], currentPath, resolve);
      stats := Add(stats, added);
      i := i + 1;
    }
    assert elems0[n..] == [];
  }

  /** `convertLinks(element)`: clone the element and visit the images and
      links among its descendants, counting as it goes. `currentPath` is
      `window.location.href`. */
  method ConvertLinks(element: seq<Element>, props: seq<string>, currentPath: string, resolve: Resolver)
    returns (clone: Clone, stats: V2Stats)
    requires |element| > 0 && RefsForward(element) && |props| == |element|
    ensures fresh(clone) && clone.Valid()
    ensures clone.elems == V2Pass(element, props, currentPath, resolve) && stats == V2Counts(element, props)
  {
    clone := new Clone(element);
    stats := ConvertDescendants(clone, props, currentPath, resolve);
    StyleExtractor.AttrsForward(element, clone.elems);
  }

  // ---------------------------------------------------------------------
  // What the pass promises

  /** Every descendant image and link is counted, with or without a URL,
      and no more are converted than were counted. */
  lemma V2CountsTotals(elems: seq<Element>, props: seq<string>)
    requires |props| == |elems| && |elems| > 0
    ensures var s := V2Counts(elems, props);
      s.totalImages == TagCount(elems[1..], IMG) && s.totalLinks == TagCount(elems[1..], A)
      && s.convertedImages <= s.totalImages && s.convertedLinks <= s.totalLinks
  {
    assert elems[1..|elems|] == elems[1..];
    V2CountsToImages(elems, props, |elems|);
    V2CountsToLinks(elems, props, |elems|);
    V2CountsToBounds(elems, props, |elems|);
  }

  lemma {:induction false} V2CountsToImages(elems: seq<Element>, props: seq<string>, i: nat)
    requires |props| == |elems| && 1 <= i <= |elems|
    ensures V2CountsTo(elems, props, i).totalImages == TagCount(elems[1..i], IMG)
  {
    if i > 1 {
      var d := elems[1..i];
      assert d[..|d| - 1] == elems[1..i - 1] && d[|d| - 1] == elems[i - 1];
      V2CountsToImages(elems, props, i - 1);
    }
  }

  lemma {:induction false} V2CountsToLinks(elems: seq<Element>, props: seq<string>, i: nat)
    requires |props| == |elems| && 1 <= i <= |elems|
    ensures V2CountsTo(elems, props, i).totalLinks == TagCount(elems[1..i], A)
  {
    if i > 1 {
      var d := elems[1..i];
      assert d[..|d| - 1] == elems[1..i - 1] && d[|d| - 1] == elems[i - 1];
      V2CountsToLinks(elems, props, i - 1);
    }
  }

  lemma {:induction false} V2CountsToBounds(elems: seq<Element>, props: seq<string>, i: nat)
    requires |props| == |elems| && i <= |elems|
    ensures var s := V2CountsTo(elems, props, i);
      s.convertedImages <= s.totalImages && s.convertedLinks <= s.totalLinks
  {
    if i > 1 {
      V2CountsToBounds(elems, props, i - 1);
    }
  }

  /** Only `src` and `href` can change. */
  lemma V2ElementOthers(e: Element, prop: string, other: string, base: string, resolve: Resolver)
    requires other != "src" && other != "href"
    ensures GetAttr(V2Element(e, prop, base, resolve).attrs, other) == GetAttr(e.attrs, other)
  {
    GetSetAttr(e.attrs, "src", ConvertUrl(prop, base, resolve), other);
    GetSetAttr(e.attrs, "href", ConvertUrl(prop, base, resolve), other);
  }

  /** A converted image or link holds the resolution of the property the
      callback read, or the property itself when resolution throws. */
  lemma V2ElementSets(e: Element, prop: string, base: string, resolve: Resolver)
    requires (e.tag == IMG || e.tag == A) && NeedsConversionV2(prop)
    ensures var name := if e.tag == IMG then "src" else "href";
      GetAttr(V2Element(e, prop, base, resolve).attrs, name)
        == Some(if resolve(prop, base).Some? then resolve(prop, base).value else prop)
  {
    GetSetAttr(e.attrs, if e.tag == IMG then "src" else "href", ConvertUrl(prop, base, resolve), "");
  }
}
