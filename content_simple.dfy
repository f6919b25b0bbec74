/** The link rewriting of content-simple.js, the simplified content
    script: its `convertRelativeToAbsolute` visits the clone's root and
    every descendant once, resolves the `src` of images and the `href` of
    links, and counts images and links as it goes.

    Its `needsConversion` and `convertUrl` are the seven-prefix test and
    the resolution with fallback of content/link-converter.js, so the
    model uses `NeedsConversion`, `ConvertUrl` and `ConvertUrlAttr` of
    `LinkConverter`. */
module ContentSimple {
  import opened Wrappers
  import opened Dom
  import opened LinkConverter
  import StyleExtractor

  /** The four counters the script returns with the clone. */
  datatype SimpleStats = SimpleStats(totalImages: nat, totalLinks: nat, convertedImages: nat, convertedLinks: nat)

  /** The `forEach` callback on one element: an image's `src`, then a
      link's `href`, each resolved when it needs conversion. */
  function SimpleElement(e: Element, base: string, resolve: Resolver): (r: Element)
    ensures r.tag == e.tag && r.children == e.children
  {
    var withSrc := if e.tag == IMG then ConvertUrlAttr(e.attrs, "src", base, resolve) else e.attrs;
    var withHref := if e.tag == A then ConvertUrlAttr(withSrc, "href", base, resolve) else withSrc;
    e.(attrs := withHref)
  }

  /** What one element adds to the counters: every image and every link
      is counted, and converted when its URL needs conversion. */
  function ElementStats(e: Element): SimpleStats {
    var img := e.tag == IMG;
    var a := e.tag == A;
    SimpleStats(if img then 1 else 0, if a then 1 else 0,
                if img && NeedsConversion(GetAttr(e.attrs, "src")) then 1 else 0,
                if a && NeedsConversion(GetAttr(e.attrs, "href")) then 1 else 0)
  }

  function Add(s: SimpleStats, t: SimpleStats): SimpleStats {
    SimpleStats(s.totalImages + t.totalImages, s.totalLinks + t.totalLinks,
                s.convertedImages + t.convertedImages, s.convertedLinks + t.convertedLinks)
  }

  /** The counters after visiting `elems` in order. */
  function SimpleCounts(elems: seq<Element>): SimpleStats {
    if elems == [] then SimpleStats(0, 0, 0, 0)
    else Add(SimpleCounts(elems[..|elems| - 1]), ElementStats(elems[|elems| - 1]))
  }

  /** Every element of the arena processed, the root included. */
  function SimpleAll(elems: seq<Element>, base: string, resolve: Resolver): (r: seq<Element>)
    ensures |r| == |elems| && forall k :: 0 <= k < |elems| ==> r[k] == SimpleElement(elems[k], base, resolve)
  {
    if elems == [] then []
    else SimpleAll(elems[..|elems| - 1], base, resolve) + [SimpleElement(elems[|elems| - 1], base, resolve)]
  }

  lemma SimpleAllSnoc(elems: seq<Element>, i: nat, base: string, resolve: Resolver)
    requires i < |elems|
    ensures SimpleAll(elems[..i + 1], base, resolve) == SimpleAll(elems[..i], base, resolve) + [SimpleElement(elems[i], base, resolve)]
  {
    assert elems[..i + 1][..i] == elems[..i];
  }

  lemma SimpleCountsSnoc(elems: seq<Element>, i: nat)
    requires i < |elems|
    ensures SimpleCounts(elems[..i + 1]) == Add(SimpleCounts(elems[..i]), ElementStats(elems[i]))
  {
    assert elems[..i + 1][..i] == elems[..i];
  }

  /** The callback on element `i`, with what it adds to the counters. */
  method ConvertElement(clone: Clone, i: nat, base: string, resolve: Resolver) returns (added: SimpleStats)
    requires i < |clone.elems|
    modifies clone
    ensures clone.elems == old(clone.elems)[i := SimpleElement(old(clone.elems)[i], base, resolve)]
    ensures added == ElementStats(old(clone.elems)[i])
  {
    var e := clone.elems[i];
    var attrs := e.attrs;
    added := SimpleStats(0, 0, 0, 0);
    if e.tag == IMG {
      added := added.(totalImages := added.totalImages + 1);
      var src := GetAttr(attrs, "src");
      if NeedsConversion(src) {
        attrs := SetAttr(attrs, "src", ConvertUrl(src.value, base, resolve));
        added := added.(convertedImages := added.convertedImages + 1);
      }
    }
    if e.tag == A {
      added := added.(totalLinks := added.totalLinks + 1);
      var href := GetAttr(attrs, "href");
      if NeedsConversion(href) {
        attrs := SetAttr(attrs, "href", ConvertUrl(href.value, base, resolve));
        added := added.(convertedLinks := added.convertedLinks + 1);
      }
    }
    clone.elems := clone.elems[i := e.(attrs := attrs)];
  }

  /** `convertRelativeToAbsolute(element)`: clone the element and visit
      `[clone, ...clone.querySelectorAll('*')]`, counting as it goes.
      `currentPath` is `window.location.href`. */
  method ConvertRelativeToAbsolute(element: seq<Element>, currentPath: string, resolve: Resolver)
    returns (clone: Clone, stats: SimpleStats)
    requires |element| > 0 && RefsForward(element)
    ensures fresh(clone) && clone.Valid()
    ensures clone.elems == SimpleAll(element, currentPath, resolve) && stats == SimpleCounts(element)
  {
    clone := new Clone(element);
    stats := SimpleStats(0, 0, 0, 0);
    var n := |clone.elems|;
    var i := 0;
    while i < n
      invariant 0 <= i <= n == |element| == |clone.elems|
      invariant clone.elems == SimpleAll(element[..i], currentPath, resolve) + element[i..]
      invariant stats == SimpleCounts(element[..i])
    {
      assert element[i..][1..] == element[i + 1..];
      SimpleAllSnoc(element, i, currentPath, resolve);
      Splice(SimpleAll(element[..i], currentPath, resolve), element[i..], SimpleElement(element[i], currentPath, resolve));
      SimpleCountsSnoc(element, i);
      var added := ConvertElement(clone, i, currentPath, resolve);
      stats := Add(stats, added);
      i := i + 1;
    }
    assert element[..n] == element;
    SimpleAllForward(element, currentPath, resolve);
  }

  /** The pass changes attributes only, so every reference still points
      forward. */
  lemma SimpleAllForward(elems: seq<Element>, base: string, resolve: Resolver)
    requires RefsForward(elems)
    ensures RefsForward(SimpleAll(elems, base, resolve))
  {
    StyleExtractor.AttrsForward(elems, SimpleAll(elems, base, resolve));
  }

  // ---------------------------------------------------------------------
  // What the script promises

  /** Every image and every link is counted, with or without a URL, and
      no more are converted than were counted. */
  lemma {:induction false} SimpleCountsTotals(elems: seq<Element>)
    ensures var s := SimpleCounts(elems);
      s.totalImages == TagCount(elems, IMG) && s.totalLinks == TagCount(elems, A)
      && s.convertedImages <= s.totalImages && s.convertedLinks <= s.totalLinks
  {
    if elems != [] {
      SimpleCountsTotals(elems[..|elems| - 1]);
    }
  }

  /** The four counters are those the link converter of
      content/link-converter.js computes for the same elements. */
  lemma {:induction false} SimpleCountsAgree(elems: seq<Element>)
    ensures var c := Counts(elems);
      SimpleCounts(elems) == SimpleStats(c.images, c.links, c.convertedImages, c.convertedLinks)
  {
    if elems != [] {
      SimpleCountsAgree(elems[..|elems| - 1]);
    }
  }

  /** Only `src` and `href` can change. */
  lemma SimpleElementOthers(e: Element, other: string, base: string, resolve: Resolver)
    requires other != "src" && other != "href"
    ensures GetAttr(SimpleElement(e, base, resolve).attrs, other) == GetAttr(e.attrs, other)
  {
    var withSrc := if e.tag == IMG then ConvertUrlAttr(e.attrs, "src", base, resolve) else e.attrs;
    ConvertUrlAttrOthers(e.attrs, "src", other, base, resolve);
    ConvertUrlAttrOthers(withSrc, "href", other, base, resolve);
  }

  /** With a resolver whose results never need conversion, running the
      script on its own output changes nothing more. */
  lemma SimpleElementIdempotent(e: Element, base: string, resolve: Resolver)
    requires forall u :: resolve(u, base).Some? ==> !NeedsConversion(resolve(u, base))
    ensures SimpleElement(SimpleElement(e, base, resolve), base, resolve) == SimpleElement(e, base, resolve)
  {
    if e.tag == IMG {
      ConvertUrlAttrIdempotent(e.attrs, "src", base, resolve);
    } else if e.tag == A {
      ConvertUrlAttrIdempotent(e.attrs, "href", base, resolve);
    }
  }
}
