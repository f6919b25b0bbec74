/** The link rewriting of content.js, the first content script: its
    `convertRelativeToAbsolute` closure, which resolves relative URLs on a
    deep clone of the clicked element, and the `linkStats` summary the
    click handler computes on the result.

    Unlike content/link-converter.js the closure makes one pass per kind
    of URL, each over `clone.querySelectorAll(selector)`, so the clone's
    root is never rewritten; its tests are plain prefix tests that differ
    between images and links; and a URL whose resolution throws is left
    as it was. The clone is an arena whose slot 0 is the root and whose
    other slots are the descendants, and every pass is a function applied
    to the descendants, doing nothing to those its selector does not
    match. */
module ContentScript {
  import opened Wrappers
  import opened Strings
  import opened Dom
  import opened LinkConverter
  import StyleExtractor

  // ---------------------------------------------------------------------
  // The prefix tests

  /** The test applied to image sources, background URLs and the
      lazy-loading attributes: absolute (`http`), inline data and
      protocol-relative URLs are kept. */
  predicate IsKeptUrl(u: string) {
    StartsWith(u, "http") || StartsWith(u, "data:") || StartsWith(u, "//")
  }

  /** The test applied to link targets: absolute, mail, telephone,
      fragment, script and protocol-relative URLs are kept. */
  predicate IsKeptHref(u: string) {
    StartsWith(u, "http") || StartsWith(u, "mailto:") || StartsWith(u, "tel:") || StartsWith(u, "#")
    || StartsWith(u, "javascript:") || StartsWith(u, "//")
  }

  /** Every URL the link converter of content/link-converter.js resolves,
      this script resolves too, as an image source and as a link target
      alike. */
  lemma ResolvesWhatLinkConverterResolves(u: string)
    requires LinkConverter.NeedsConversion(Some(u))
    ensures u != "" && !IsKeptUrl(u) && !IsKeptHref(u)
  {
  }

  /** The prefixes only the link test keeps. */
  const HrefOnlyPrefixes: seq<string> := ["mailto:", "tel:", "#", "javascript:"]

  /** Both tests are parts of the link converter's list of kept prefixes:
      the image test keeps its prefixes but the mail, telephone, fragment
      and script ones, and the link test keeps all of them but `data:`.
      Between them they cover the whole list, so a non-empty URL is
      resolved by the link converter exactly when both tests let it
      through. */
  lemma KeptPrefixSplit(u: string)
    ensures IsKeptUrl(u) <==> exists p :: p in KeptPrefixes && p !in HrefOnlyPrefixes && StartsWith(u, p)
    ensures IsKeptHref(u) <==> exists p :: p in KeptPrefixes && p != "data:" && StartsWith(u, p)
    ensures LinkConverter.NeedsConversion(Some(u)) <==> u != "" && !IsKeptUrl(u) && !IsKeptHref(u)
  {
  }

  /** Where the tests part ways: an image source written as a mail,
      fragment or script URL is handed to the resolver although a link
      with that target is kept, and a link to inline data is handed to the
      resolver although an image with that source is kept. The link
      converter keeps all four. */
  lemma PolicyDifferences()
    ensures !IsKeptUrl("mailto:a@example.com") && IsKeptHref("mailto:a@example.com")
    ensures !IsKeptUrl("#top") && IsKeptHref("#top")
    ensures !IsKeptUrl("javascript:void(0)") && IsKeptHref("javascript:void(0)")
    ensures IsKeptUrl("data:image/png;base64,AAAA") && !IsKeptHref("data:image/png;base64,AAAA")
    ensures !LinkConverter.NeedsConversion(Some("mailto:a@example.com"))
    ensures !LinkConverter.NeedsConversion(Some("data:image/png;base64,AAAA"))
  {
    assert "mailto:a@example.com"[0] == 'm' && "mailto:a@example.com"[..7] == "mailto:";
    assert "#top"[0] == '#' && "#top"[..1] == "#";
    assert "javascript:void(0)"[0] == 'j' && "javascript:void(0)"[..11] == "javascript:";
    assert "data:image/png;base64,AAAA"[0] == 'd' && "data:image/png;base64,AAAA"[..5] == "data:";
  }

  // ---------------------------------------------------------------------
  // The passes, one element at a time

  /** `new URL(value, base).href` stored in `name`, or, when the
      constructor throws and the error is caught, the attribute left as it
      was. */
  function SetResolved(attrs: seq<Attr>, name: string, value: string, base: string, resolve: Resolver): seq<Attr> {
    match resolve(value, base)
    case Some(href) => SetAttr(attrs, name, href)
    case None => attrs
  }

  /** The callback over `img[src]`: a non-empty source without a kept
      prefix is resolved. */
  function ImageStep(e: Element, base: string, resolve: Resolver): (r: Element)
    ensures r.tag == e.tag && r.children == e.children
  {
    var src := GetAttr(e.attrs, "src");
    if e.tag == IMG && src.Some? && src.value != "" && !IsKeptUrl(src.value) then
      e.(attrs := SetResolved(e.attrs, "src", src.value, base, resolve))
    else e
  }

  /** The callback over `a[href]`: a non-empty target without a kept
      prefix is resolved. */
  function LinkStep(e: Element, base: string, resolve: Resolver): (r: Element)
    ensures r.tag == e.tag && r.children == e.children
  {
    var href := GetAttr(e.attrs, "href");
    if e.tag == A && href.Some? && href.value != "" && !IsKeptHref(href.value) then
      e.(attrs := SetResolved(e.attrs, "href", href.value, base, resolve))
    else e
  }

  /** The callback of the background rewrite: a URL without a kept prefix
      becomes `url('<abs>')` when it resolves; any other match, and one
      whose resolution throws, is kept. */
  function BackgroundCallback(base: string, resolve: Resolver): UrlMatch -> string {
    (m: UrlMatch) =>
      if !IsKeptUrl(m.url) && resolve(m.url, base).Some? then "url('" + resolve(m.url, base).value + "')"
      else m.text
  }

  /** The callback over `*[style*="background"]`: an inline style that
      names `background` and contains `url(` has its `url(...)`
      expressions rewritten. */
  function BackgroundStep(e: Element, base: string, resolve: Resolver): (r: Element)
    ensures r.tag == e.tag && r.children == e.children
  {
    var style := GetAttr(e.attrs, "style");
    if style.Some? && Contains(style.value, "background") && Contains(style.value, "url(") then
      CssUrlAtSound(style.value);
      e.(attrs := SetAttr(e.attrs, "style", ReplaceAll(style.value, 0, CssUrlAt, BackgroundCallback(base, resolve))))
    else e
  }

  /** The callback of the `srcset` rewrite: a candidate URL without a kept
      prefix is resolved and its descriptor kept; any other candidate, and
      one whose resolution throws, is kept. */
  function CandidateCallback(base: string, resolve: Resolver): UrlMatch -> string {
    (m: UrlMatch) =>
      if !IsKeptUrl(m.url) && resolve(m.url, base).Some? then resolve(m.url, base).value + m.descriptor
      else m.text
  }

  /** The callback over `[name]` for one of the lazy-loading attributes:
      a non-empty value without a kept prefix is rewritten candidate by
      candidate for `srcset` and resolved as one URL otherwise. */
  function UrlAttrStep(e: Element, name: string, base: string, resolve: Resolver): (r: Element)
    ensures r.tag == e.tag && r.children == e.children
  {
    var value := GetAttr(e.attrs, name);
    if value.Some? && value.value != "" && !IsKeptUrl(value.value) then
      if name == "srcset" then
        SrcsetCandidateAtSound(value.value);
        e.(attrs := SetAttr(e.attrs, name, ReplaceAll(value.value, 0, SrcsetCandidateAt, CandidateCallback(base, resolve))))
      else e.(attrs := SetResolved(e.attrs, name, value.value, base, resolve))
    else e
  }

  /** The lazy-loading attributes of `names` processed in order. */
  function UrlAttrSteps(e: Element, names: seq<string>, base: string, resolve: Resolver): (r: Element)
    ensures r.tag == e.tag && r.children == e.children
  {
    if names == [] then e
    else UrlAttrStep(UrlAttrSteps(e, names[..|names| - 1], base, resolve), names[|names| - 1], base, resolve)
  }

  /** One descendant after the image, link and background passes and the
      passes over the attributes of `names`. */
  function ScriptElementUpTo(e: Element, names: seq<string>, base: string, resolve: Resolver): Element {
    UrlAttrSteps(BackgroundStep(LinkStep(ImageStep(e, base, resolve), base, resolve), base, resolve), names, base, resolve)
  }

  /** One descendant after all the passes. */
  function ScriptElement(e: Element, base: string, resolve: Resolver): Element {
    ScriptElementUpTo(e, UrlAttributes, base, resolve)
  }

  // ---------------------------------------------------------------------
  // The passes over the clone

  /** `f` applied to every element but the root, as a `forEach` over
      `clone.querySelectorAll(selector)` applies it to the descendants. */
  function OnDescendants(elems: seq<Element>, f: Element -> Element): (r: seq<Element>)
    ensures |r| == |elems| && (elems != [] ==> r[0] == elems[0])
    ensures forall k :: 1 <= k < |elems| ==> r[k] == f(elems[k])
  {
    if |elems| <= 1 then elems
    else OnDescendants(elems[..|elems| - 1], f) + [f(elems[|elems| - 1])]
  }

  /** The clone after the whole closure. */
  function ScriptPass(element: seq<Element>, base: string, resolve: Resolver): seq<Element> {
    OnDescendants(element, e => ScriptElement(e, base, resolve))
  }

  lemma OnDescendantsSnoc(elems: seq<Element>, i: nat, f: Element -> Element)
    requires 1 <= i < |elems|
    ensures OnDescendants(elems[..i + 1], f) == OnDescendants(elems[..i], f) + [f(elems[i])]
  {
    assert elems[..i + 1][..i] == elems[..i];
  }

  /** Two passes in a row are one pass of the composed callback. */
  lemma OnDescendantsCompose(elems: seq<Element>, f: Element -> Element, g: Element -> Element, h: Element -> Element)
    requires forall e :: h(e) == g(f(e))
    ensures OnDescendants(OnDescendants(elems, f), g) == OnDescendants(elems, h)
  {
  }

  /** One `forEach` over the descendants of the clone. */
  method ApplyToDescendants(clone: Clone, f: Element -> Element)
    requires |clone.elems| > 0
    modifies clone
    ensures clone.elems == OnDescendants(old(clone.elems), f)
  {
    ghost var elems0 := clone.elems;
    assert elems0 == elems0[..1] + elems0[1..];
    var i := 1;
    while i < |clone.elems|
      invariant 1 <= i <= |elems0| == |clone.elems|
      invariant clone.elems == OnDescendants(elems0[..i], f) + elems0[i..]
    {
      OnDescendantsSnoc(elems0, i, f);
      Splice(OnDescendants(elems0[..i], f), elems0[i..], f(elems0[i]));
      assert elems0[i..][1..] == elems0[i + 1..];
      clone.elems := clone.elems[i := f(clone.elems[i])];
      i := i + 1;
    }
    assert elems0[..i] == elems0;
  }

  /** The image, link and background passes. */
  method EarlyPasses(clone: Clone, currentPath: string, resolve: Resolver)
    requires |clone.elems| > 0
    modifies clone
    ensures clone.elems == OnDescendants(old(clone.elems), e => ScriptElementUpTo(e, [], currentPath, resolve))
  {
    ghost var elems0 := clone.elems;
    var image := e => ImageStep(e, currentPath, resolve);
    var link := e => LinkStep(e, currentPath, resolve);
    var background := e => BackgroundStep(e, currentPath, resolve);
    ApplyToDescendants(clone, image);
    ApplyToDescendants(clone, link);
    OnDescendantsCompose(elems0, image, link, e => LinkStep(ImageStep(e, currentPath, resolve), currentPath, resolve));
    ApplyToDescendants(clone, background);
    OnDescendantsCompose(elems0, e => LinkStep(ImageStep(e, currentPath, resolve), currentPath, resolve), background,
                         e => ScriptElementUpTo(e, [], currentPath, resolve));
  }

  /** The `forEach` over `urlAttributes`, one pass per attribute of
      `names`. */
  method UrlAttrPasses(clone: Clone, names: seq<string>, currentPath: string, resolve: Resolver)
    requires |clone.elems| > 0
    modifies clone
    ensures clone.elems == OnDescendants(old(clone.elems), e => UrlAttrSteps(e, names, currentPath, resolve))
  {
    ghost var elems0 := clone.elems;
    assert elems0 == OnDescendants(elems0, e => UrlAttrSteps(e, names[..0], currentPath, resolve));
    for k := 0 to |names|
      invariant clone.elems == OnDescendants(elems0, e => UrlAttrSteps(e, names[..k], currentPath, resolve))
    {
      var name := names[k];
      ApplyToDescendants(clone, e => UrlAttrStep(e, name, currentPath, resolve));
      UrlAttrPassSnoc(elems0, names, k, currentPath, resolve);
    }
    assert names[..|names|] == names;
  }

  /** One more attribute pass. */
  lemma UrlAttrPassSnoc(elems: seq<Element>, names: seq<string>, k: nat, base: string, resolve: Resolver)
    requires k < |names|
    ensures OnDescendants(OnDescendants(elems, e => UrlAttrSteps(e, names[..k], base, resolve)), e => UrlAttrStep(e, names[k], base, resolve))
            == OnDescendants(elems, e => UrlAttrSteps(e, names[..k + 1], base, resolve))
  {
    assert names[..k + 1][..k] == names[..k];
    OnDescendantsCompose(elems, e => UrlAttrSteps(e, names[..k], base, resolve),
                         e => UrlAttrStep(e, names[k], base, resolve),
                         e => UrlAttrSteps(e, names[..k + 1], base, resolve));
  }

  /** `convertRelativeToAbsolute(element)`: clone the element, then run
      the image, link and background passes and one pass per lazy-loading
      attribute over the clone's descendants. `currentPath` is
      `window.location.href`. */
  method ConvertRelativeToAbsolute(element: seq<Element>, currentPath: string, resolve: Resolver) returns (clone: Clone)
    requires |element| > 0 && RefsForward(element)
    ensures fresh(clone) && clone.Valid()
    ensures clone.elems == ScriptPass(element, currentPath, resolve)
  {
    clone := new Clone(element);
    EarlyPasses(clone, currentPath, resolve);
    UrlAttrPasses(clone, UrlAttributes, currentPath, resolve);
    OnDescendantsCompose(element, e => ScriptElementUpTo(e, [], currentPath, resolve),
                         e => UrlAttrSteps(e, UrlAttributes, currentPath, resolve),
                         e => ScriptElement(e, currentPath, resolve));
    ScriptPassForward(element, currentPath, resolve);
  }

  /** The closure changes attributes only, so every reference of the
      clone still points forward. */
  lemma ScriptPassForward(element: seq<Element>, base: string, resolve: Resolver)
    requires RefsForward(element)
    ensures RefsForward(ScriptPass(element, base, resolve))
  {
    var r := ScriptPass(element, base, resolve);
    forall j | 0 <= j < |element|
      ensures r[j].children == element[j].children
    {
      if j > 0 {
        ScriptElementShape(element[j], base, resolve);
      }
    }
    StyleExtractor.AttrsForward(element, r);
  }

  lemma ScriptElementShape(e: Element, base: string, resolve: Resolver)
    ensures ScriptElement(e, base, resolve).tag == e.tag && ScriptElement(e, base, resolve).children == e.children
  {
  }

  // ---------------------------------------------------------------------
  // What the closure promises

  /** A resolver that always throws leaves every element as it was: each
      failed resolution is caught and its URL kept. */
  lemma FailedResolutionKeeps(element: seq<Element>, base: string, resolve: Resolver)
    requires forall u :: resolve(u, base).None?
    ensures ScriptPass(element, base, resolve) == element
  {
    forall k | 1 <= k < |element|
      ensures ScriptElement(element[k], base, resolve) == element[k]
    {
      FailedElementKeeps(element[k], base, resolve);
    }
  }

  lemma FailedElementKeeps(e: Element, base: string, resolve: Resolver)
    requires forall u :: resolve(u, base).None?
    ensures ScriptElement(e, base, resolve) == e
  {
    assert ImageStep(e, base, resolve) == e;
    assert LinkStep(e, base, resolve) == e;
    FailedBackgroundKeeps(e, base, resolve);
    FailedUrlAttrsKeep(e, UrlAttributes, base, resolve);
  }

  lemma FailedBackgroundKeeps(e: Element, base: string, resolve: Resolver)
    requires forall u :: resolve(u, base).None?
    ensures BackgroundStep(e, base, resolve) == e
  {
    var style := GetAttr(e.attrs, "style");
    if style.Some? && Contains(style.value, "background") && Contains(style.value, "url(") {
      CssUrlAtSound(style.value);
      ReplaceAllKeeps(style.value, 0, CssUrlAt, BackgroundCallback(base, resolve));
      SetAttrSame(e.attrs, "style");
    }
  }

  lemma {:induction false} FailedUrlAttrsKeep(e: Element, names: seq<string>, base: string, resolve: Resolver)
    requires forall u :: resolve(u, base).None?
    ensures UrlAttrSteps(e, names, base, resolve) == e
  {
    if names != [] {
      FailedUrlAttrsKeep(e, names[..|names| - 1], base, resolve);
      var name := names[|names| - 1];
      var value := GetAttr(e.attrs, name);
      if value.Some? && value.value != "" && !IsKeptUrl(value.value) && name == "srcset" {
        SrcsetCandidateAtSound(value.value);
        ReplaceAllKeeps(value.value, 0, SrcsetCandidateAt, CandidateCallback(base, resolve));
        SetAttrSame(e.attrs, name);
      }
    }
  }

  /** Attributes other than `src`, `href`, `style` and the lazy-loading
      ones are never touched. */
  lemma ScriptElementOthers(e: Element, other: string, base: string, resolve: Resolver)
    requires other !in ["src", "href", "style"] + UrlAttributes
    ensures GetAttr(ScriptElement(e, base, resolve).attrs, other) == GetAttr(e.attrs, other)
  {
    var e1 := ImageStep(e, base, resolve);
    ImageStepOthers(e, other, base, resolve);
    var e2 := LinkStep(e1, base, resolve);
    LinkStepOthers(e1, other, base, resolve);
    var e3 := BackgroundStep(e2, base, resolve);
    BackgroundStepOthers(e2, other, base, resolve);
    UrlAttrStepsOthers(e3, UrlAttributes, other, base, resolve);
  }

  lemma SetResolvedOthers(attrs: seq<Attr>, name: string, other: string, value: string, base: string, resolve: Resolver)
    requires other != name
    ensures GetAttr(SetResolved(attrs, name, value, base, resolve), other) == GetAttr(attrs, other)
  {
    if resolve(value, base).Some? {
      GetSetAttr(attrs, name, resolve(value, base).value, other);
    }
  }

  lemma ImageStepOthers(e: Element, other: string, base: string, resolve: Resolver)
    requires other != "src"
    ensures GetAttr(ImageStep(e, base, resolve).attrs, other) == GetAttr(e.attrs, other)
  {
    var src := GetAttr(e.attrs, "src");
    if src.Some? {
      SetResolvedOthers(e.attrs, "src", other, src.value, base, resolve);
    }
  }

  lemma LinkStepOthers(e: Element, other: string, base: string, resolve: Resolver)
    requires other != "href"
    ensures GetAttr(LinkStep(e, base, resolve).attrs, other) == GetAttr(e.attrs, other)
  {
    var href := GetAttr(e.attrs, "href");
    if href.Some? {
      SetResolvedOthers(e.attrs, "href", other, href.value, base, resolve);
    }
  }

  lemma BackgroundStepOthers(e: Element, other: string, base: string, resolve: Resolver)
    requires other != "style"
    ensures GetAttr(BackgroundStep(e, base, resolve).attrs, other) == GetAttr(e.attrs, other)
  {
    var style := GetAttr(e.attrs, "style");
    if style.Some? && Contains(style.value, "background") && Contains(style.value, "url(") {
      CssUrlAtSound(style.value);
      GetSetAttr(e.attrs, "style", ReplaceAll(style.value, 0, CssUrlAt, BackgroundCallback(base, resolve)), other);
    }
  }

  lemma UrlAttrStepOthers(e: Element, name: string, other: string, base: string, resolve: Resolver)
    requires other != name
    ensures GetAttr(UrlAttrStep(e, name, base, resolve).attrs, other) == GetAttr(e.attrs, other)
  {
    var value := GetAttr(e.attrs, name);
    if value.Some? && value.value != "" && !IsKeptUrl(value.value) {
      if name == "srcset" {
        SrcsetCandidateAtSound(value.value);
        GetSetAttr(e.attrs, name, ReplaceAll(value.value, 0, SrcsetCandidateAt, CandidateCallback(base, resolve)), other);
      } else {
        SetResolvedOthers(e.attrs, name, other, value.value, base, resolve);
      }
    }
  }

  lemma {:induction false} UrlAttrStepsOthers(e: Element, names: seq<string>, other: string, base: string, resolve: Resolver)
    requires other !in names
    ensures GetAttr(UrlAttrSteps(e, names, base, resolve).attrs, other) == GetAttr(e.attrs, other)
  {
    if names != [] {
      var init := names[..|names| - 1];
      assert forall n :: n in init ==> n in names;
      UrlAttrStepsOthers(e, init, other, base, resolve);
      UrlAttrStepOthers(UrlAttrSteps(e, init, base, resolve), names[|names| - 1], other, base, resolve);
    }
  }

  /** A link target is only ever replaced, never added or removed. */
  lemma ScriptElementKeepsHref(e: Element, base: string, resolve: Resolver)
    ensures SameCounted(ScriptElement(e, base, resolve), e, "href")
  {
    var e1 := ImageStep(e, base, resolve);
    ImageStepOthers(e, "href", base, resolve);
    var e2 := LinkStep(e1, base, resolve);
    var href := GetAttr(e1.attrs, "href");
    if e1.tag == A && href.Some? && href.value != "" && !IsKeptHref(href.value) && resolve(href.value, base).Some? {
      GetSetAttr(e1.attrs, "href", resolve(href.value, base).value, "href");
    }
    var e3 := BackgroundStep(e2, base, resolve);
    BackgroundStepOthers(e2, "href", base, resolve);
    UrlAttrStepsOthers(e3, UrlAttributes, "href", base, resolve);
  }

  // ---------------------------------------------------------------------
  // The `linkStats` summary

  /** The summary the click handler sends with a capture. */
  datatype ClickLinkStats = ClickLinkStats(totalImages: nat, totalLinks: nat, hasBackgroundImages: bool)

  /** The inline style names a background (`[style*="background"]`). */
  predicate StyleMentionsBackground(e: Element) {
    GetAttr(e.attrs, "style").Some? && Contains(GetAttr(e.attrs, "style").value, "background")
  }

  /** The summary of the processed clone: its descendant images, its
      descendant links carrying `href`, and whether a descendant's style
      names a background. */
  function ClickStats(processed: seq<Element>): (r: ClickLinkStats)
    requires |processed| > 0
    ensures r.totalLinks <= TagCount(processed[1..], A) && r.totalImages <= |processed| - 1
    ensures r.hasBackgroundImages <==> exists k :: 1 <= k < |processed| && StyleMentionsBackground(processed[k])
  {
    var d := processed[1..];
    assert forall k :: 1 <= k < |processed| ==> processed[k] == d[k - 1];
    ClickLinkStats(TagCount(d, IMG), TagAttrCount(d, A, "href"), exists k :: 0 <= k < |d| && StyleMentionsBackground(d[k]))
  }

  /** The image and link counts do not depend on the rewriting: they are
      those of the clicked element's descendants. */
  lemma ClickStatsBeforeRewriting(element: seq<Element>, base: string, resolve: Resolver)
    requires |element| > 0
    ensures var s := ClickStats(ScriptPass(element, base, resolve));
      s.totalImages == TagCount(element[1..], IMG) && s.totalLinks == TagAttrCount(element[1..], A, "href")
  {
    var processed := ScriptPass(element, base, resolve);
    forall k | 0 <= k < |element| - 1
      ensures SameCounted(processed[1..][k], element[1..][k], "href")
    {
      ScriptElementKeepsHref(element[k + 1], base, resolve);
    }
    CountsAgree(processed[1..], element[1..], IMG, "href");
    CountsAgree(processed[1..], element[1..], A, "href");
  }
}
