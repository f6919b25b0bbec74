/** The style pass of content/style-extractor.js: computed styles are
    copied onto the captured clone as inline `style` attributes, `::before`
    and `::after` content becomes real spans, `class` and `id` are removed,
    and the page's keyframe rules are prepended to the serialised clone.

    The browser is an input. `getComputedStyle` of source element `i` (and
    of its two pseudo-elements) is `computed[i]`, `document.styleSheets` is
    a sequence of sheets, and `outerHTML` is a function parameter. Source
    and clone elements are paired by arena index, exactly as the two
    `[root, ...querySelectorAll('*')]` lists are paired by position. */
module StyleExtractor {
  import opened Wrappers
  import opened Strings
  import opened Dom
  import opened Styles

  /** A computed style: property name to value. */
  type Style = map<string, string>

  /** `getPropertyValue`: a property the style does not define reads as "". */
  function PropertyValue(style: Style, property: string): string {
    if property in style then style[property] else ""
  }

  /** The computed styles of one source element and of its `::before` and
      `::after` pseudo-elements. */
  datatype Computed = Computed(style: Style, before: Style, after: Style)

  /** A CSS rule: whether it is a `@keyframes` rule, and its `cssText`. */
  datatype Rule = Rule(isKeyframes: bool, cssText: string)

  /** A stylesheet whose `cssRules` can be read, or one whose rules are out
      of reach (a cross-origin sheet throws, a sheet without rules reads
      as null): either way the latter contributes nothing. */
  datatype Sheet = Readable(rules: seq<Rule>) | Unreadable

  datatype Stats = Stats(styledElements: nat, pseudoElements: nat, animatedElements: nat, hasKeyframes: bool)

  datatype StyleResult = StyleResult(html: string, stats: Stats)

  /** One inline declaration, `${property}: ${value}`. */
  function Declaration(property: string, value: string): string {
    property + ": " + value
  }

  // ---------------------------------------------------------------------
  // Collecting declarations

  /** A check run on each property and its value: keep the declaration,
      drop it, or throw. */
  type Check = (string, string) -> Outcome

  /** A significance check that reads the element's tag, as
      `isSignificantStyleValue(property, value, element)` does. The pass
      below is stated for any such check and run with that one. */
  type Significance = (string, string, Tag) -> Outcome

  /** The check for an element with tag `tag`. */
  function ForTag(sig: Significance, tag: Tag): Check {
    (p: string, v: string) => sig(p, v, tag)
  }

  /** The declarations a loop running `check` over `props` collects, in
      order, or None when one of the calls throws (the exception leaves
      the loop at once). */
  function Collect(props: seq<string>, style: Style, check: Check): (r: Option<seq<string>>)
    ensures r.Some? ==> |r.value| <= |props|
    decreases |props|
  {
    if props == [] then Some([])
    else
      match Collect(props[..|props| - 1], style, check)
      case None => None
      case Some(ds) =>
        var p := props[|props| - 1];
        match check(p, PropertyValue(style, p))
        case Throws => None
        case Value(b) => Some(if b then ds + [Declaration(p, PropertyValue(style, p))] else ds)
  }

  /** The check of the `k`th property throws. */
  predicate ThrowsAt(props: seq<string>, k: int, style: Style, check: Check) {
    0 <= k < |props| && check(props[k], PropertyValue(style, props[k])).Throws?
  }

  /** The check of the `k`th property keeps `d`, its declaration. */
  predicate KeepsAt(props: seq<string>, k: int, style: Style, check: Check, d: string) {
    0 <= k < |props| && check(props[k], PropertyValue(style, props[k])) == Value(true)
    && d == Declaration(props[k], PropertyValue(style, props[k]))
  }

  /** The loop fails exactly when the check of some listed property throws. */
  lemma {:induction false} CollectThrows(props: seq<string>, style: Style, check: Check)
    ensures Collect(props, style, check).None? <==> exists k :: ThrowsAt(props, k, style, check)
    decreases |props|
  {
    if props != [] {
      var init := props[..|props| - 1];
      var last := |props| - 1;
      CollectThrows(init, style, check);
      assert ThrowsAt(props, last, style, check) <==> check(props[last], PropertyValue(style, props[last])).Throws?;
      if exists k :: ThrowsAt(init, k, style, check) {
        var k :| ThrowsAt(init, k, style, check);
        assert props[k] == init[k];
        assert ThrowsAt(props, k, style, check);
      }
      if exists k :: ThrowsAt(props, k, style, check) {
        var k :| ThrowsAt(props, k, style, check);
        if k < |init| {
          assert init[k] == props[k];
          assert ThrowsAt(init, k, style, check);
        } else {
          assert props[|props| - 1] == props[k];
        }
      }
    }
  }

  /** When the loop completes, it has kept exactly the declarations of the
      properties whose check answered true. */
  lemma {:induction false} CollectMembers(props: seq<string>, style: Style, check: Check, d: string)
    requires Collect(props, style, check).Some?
    ensures d in Collect(props, style, check).value <==> exists k :: KeepsAt(props, k, style, check, d)
    decreases |props|
  {
    if props != [] {
      var init := props[..|props| - 1];
      var last := |props| - 1;
      CollectMembers(init, style, check, d);
      assert KeepsAt(props, last, style, check, d) <==>
        check(props[last], PropertyValue(style, props[last])) == Value(true) && d == Declaration(props[last], PropertyValue(style, props[last]));
      if exists k :: KeepsAt(init, k, style, check, d) {
        var k :| KeepsAt(init, k, style, check, d);
        assert props[k] == init[k];
        assert KeepsAt(props, k, style, check, d);
      }
      if exists k :: KeepsAt(props, k, style, check, d) {
        var k :| KeepsAt(props, k, style, check, d);
        if k < |init| {
          assert init[k] == props[k];
          assert KeepsAt(init, k, style, check, d);
        } else {
          assert props[|props| - 1] == props[k];
        }
      }
    }
  }

  /** The `display` check throws for this element. */
  predicate DisplayThrows(style: Style, tag: Tag) {
    var v := PropertyValue(style, "display");
    !IsKeyword(v) && DisplayEntry(tag, v)
  }

  /** Over a list naming `display`, the significance loop fails exactly
      when the `display` check throws: every other check returns a value. */
  lemma ThrowsOnlyOnDisplay(props: seq<string>, style: Style, tag: Tag)
    requires "display" in props
    ensures Collect(props, style, ForTag(IsSignificantStyleValue, tag)).None? <==> DisplayThrows(style, tag)
  {
    var check := ForTag(IsSignificantStyleValue, tag);
    CollectThrows(props, style, check);
    forall k | 0 <= k < |props|
      ensures ThrowsAt(props, k, style, check) <==> props[k] == "display" && DisplayThrows(style, tag)
    {
      var v := PropertyValue(style, props[k]);
      assert check(props[k], v) == IsSignificantStyleValue(props[k], v, tag);
    }
    var k :| 0 <= k < |props| && props[k] == "display";
  }

  /** The loop over `IMPORTANT_STYLE_PROPERTIES` fails exactly when the
      element's `display` check throws: a paragraph shown as `block`, a
      DIV shown as `flex`, any element other than a DIV or SPAN with a
      non-keyword display. */
  lemma ImportantDeclsFailOnDisplay(style: Style, tag: Tag)
    ensures Collect(ImportantStyleProperties, style, ForTag(IsSignificantStyleValue, tag)).None? <==> DisplayThrows(style, tag)
  {
    ImportantPropertiesShape();
    assert ImportantStyleProperties[0] in ImportantStyleProperties;
    ThrowsOnlyOnDisplay(ImportantStyleProperties, style, tag);
  }

  // ---------------------------------------------------------------------
  // Animation declarations (`extractAnimationStyles`)

  const AnimationProperties: seq<string> := [
    "animation", "animation-name", "animation-duration",
    "animation-timing-function", "animation-delay",
    "animation-iteration-count", "animation-direction",
    "animation-fill-mode", "animation-play-state",
    "transition", "transition-property", "transition-duration",
    "transition-timing-function", "transition-delay"
  ]

  /** An animation value worth keeping: not empty, `none`, `all 0s ease 0s`
      or `0s`. */
  predicate KeepsAnimationValue(v: string) {
    v != "" && v != "none" && v != "all 0s ease 0s" && v != "0s"
  }

  /** The animation filter as a check that never throws. */
  function AnimationCheck(): Check {
    (p: string, v: string) => Value(KeepsAnimationValue(v))
  }

  /** A check that never throws lets the loop complete. */
  lemma NeverThrows(props: seq<string>, style: Style, check: Check)
    requires forall p, v :: check(p, v).Value?
    ensures Collect(props, style, check).Some?
  {
    CollectThrows(props, style, check);
  }

  /** The declarations of `extractAnimationStyles` over `props`, in list
      order: those of the properties whose value is kept. */
  function AnimationDecls(props: seq<string>, style: Style): (r: seq<string>)
    ensures Collect(props, style, AnimationCheck()) == Some(r)
  {
    NeverThrows(props, style, AnimationCheck());
    Collect(props, style, AnimationCheck()).value
  }

  /** The animation declarations: exactly those of the listed properties
      with a kept value. */
  lemma AnimationDeclsMembers(props: seq<string>, style: Style, d: string)
    ensures d in AnimationDecls(props, style) <==>
              exists k :: 0 <= k < |props| && KeepsAnimationValue(PropertyValue(style, props[k]))
                          && d == Declaration(props[k], PropertyValue(style, props[k]))
  {
    var r := AnimationDecls(props, style);
    CollectMembers(props, style, AnimationCheck(), d);
    forall k | 0 <= k < |props|
      ensures KeepsAt(props, k, style, AnimationCheck(), d) <==>
                KeepsAnimationValue(PropertyValue(style, props[k]))
                && d == Declaration(props[k], PropertyValue(style, props[k]))
    {
      var v := PropertyValue(style, props[k]);
      assert AnimationCheck()(props[k], v) == Value(KeepsAnimationValue(v));
    }
  }

  /** The declarations follow the list order: those of a list's two
      halves, one after the other. */
  lemma {:induction false} CollectConcat(a: seq<string>, b: seq<string>, style: Style, check: Check)
    requires Collect(a + b, style, check).Some?
    ensures Collect(a, style, check).Some? && Collect(b, style, check).Some?
    ensures Collect(a + b, style, check).value == Collect(a, style, check).value + Collect(b, style, check).value
    decreases |b|
  {
    if b != [] {
      var init := b[..|b| - 1];
      assert (a + b)[..|a + b| - 1] == a + init;
      CollectConcat(a, init, style, check);
    } else {
      assert a + b == a;
    }
  }

  /** `extractAnimationStyles`: the loop over the fourteen properties. */
  method ExtractAnimationStyles(style: Style) returns (r: seq<string>)
    ensures r == AnimationDecls(AnimationProperties, style)
  {
    r := [];
    var k := 0;
    while k < |AnimationProperties|
      invariant 0 <= k <= |AnimationProperties|
      invariant Collect(AnimationProperties[..k], style, AnimationCheck()) == Some(r)
    {
      var value := PropertyValue(style, AnimationProperties[k]);
      if value != "" && value != "none" && value != "all 0s ease 0s" && value != "0s" {
        r := r + [Declaration(AnimationProperties[k], value)];
      }
      assert AnimationProperties[..k + 1][..k] == AnimationProperties[..k];
      k := k + 1;
    }
    assert AnimationProperties[..k] == AnimationProperties;
  }

  /** The `isSignificantStyleValue` loops of `extractAndInlineStyles` and
      `extractPseudoElementStyles`. None stands for the exception a
      throwing check raises. */
  method CollectSignificant(props: seq<string>, style: Style, tag: Tag) returns (r: Option<seq<string>>)
    ensures r == Collect(props, style, ForTag(IsSignificantStyleValue, tag))
  {
    var decls := [];
    var k := 0;
    while k < |props|
      invariant 0 <= k <= |props|
      invariant Collect(props[..k], style, ForTag(IsSignificantStyleValue, tag)) == Some(decls)
    {
      var value := PropertyValue(style, props[k]);
      var outcome := IsSignificantStyleValue(props[k], value, tag);
      if outcome.Throws? {
        CollectThrows(props, style, ForTag(IsSignificantStyleValue, tag));
        assert ThrowsAt(props, k, style, ForTag(IsSignificantStyleValue, tag));
        return None;
      }
      if outcome.significant {
        decls := decls + [Declaration(props[k], value)];
      }
      assert props[..k + 1][..k] == props[..k];
      k := k + 1;
    }
    assert props[..k] == props;
    return Some(decls);
  }

  // ---------------------------------------------------------------------
  // Keyframes (`extractKeyframes`)

  /** The `cssText` of the keyframes rules among `rules`, in order. */
  function RuleKeyframes(rules: seq<Rule>): (r: seq<string>)
    ensures |r| <= |rules|
    decreases |rules|
  {
    if rules == [] then []
    else
      var rule := rules[|rules| - 1];
      RuleKeyframes(rules[..|rules| - 1]) + (if rule.isKeyframes then [rule.cssText] else [])
  }

  function SheetKeyframes(sheet: Sheet): seq<string> {
    match sheet
    case Unreadable => []
    case Readable(rules) => RuleKeyframes(rules)
  }

  /** The keyframes rules of all sheets, sheet by sheet. */
  function KeyframesOf(sheets: seq<Sheet>): seq<string>
    decreases |sheets|
  {
    if sheets == [] then []
    else KeyframesOf(sheets[..|sheets| - 1]) + SheetKeyframes(sheets[|sheets| - 1])
  }

  /** A text is collected from a sheet's rules exactly when a keyframes
      rule of that sheet has it. */
  lemma {:induction false} RuleKeyframesMembers(rules: seq<Rule>, t: string)
    ensures t in RuleKeyframes(rules) <==> exists k :: 0 <= k < |rules| && rules[k] == Rule(true, t)
    decreases |rules|
  {
    if rules != [] {
      var init := rules[..|rules| - 1];
      RuleKeyframesMembers(init, t);
      if exists k :: 0 <= k < |init| && init[k] == Rule(true, t) {
        var k :| 0 <= k < |init| && init[k] == Rule(true, t);
        assert rules[k] == init[k];
      }
      if exists k :: 0 <= k < |rules| && rules[k] == Rule(true, t) {
        var k :| 0 <= k < |rules| && rules[k] == Rule(true, t);
        if k < |init| {
          assert init[k] == rules[k];
        }
      }
    }
  }

  /** Sheets are read in order: the keyframes of two runs of sheets are
      those of the first followed by those of the second. */
  lemma {:induction false} KeyframesOfConcat(a: seq<Sheet>, b: seq<Sheet>)
    ensures KeyframesOf(a + b) == KeyframesOf(a) + KeyframesOf(b)
    decreases |b|
  {
    if b != [] {
      var init := b[..|b| - 1];
      assert (a + b)[..|a + b| - 1] == a + init;
      KeyframesOfConcat(a, init);
    } else {
      assert a + b == a;
    }
  }

  /** `extractKeyframes`: the nested loops over sheets and rules. */
  method ExtractKeyframes(sheets: seq<Sheet>) returns (keyframes: seq<string>)
    ensures keyframes == KeyframesOf(sheets)
  {
    keyframes := [];
    var s := 0;
    while s < |sheets|
      invariant 0 <= s <= |sheets|
      invariant keyframes == KeyframesOf(sheets[..s])
    {
      assert sheets[..s + 1][..s] == sheets[..s];
      if sheets[s].Readable? {
        var rules := sheets[s].rules;
        var k := 0;
        ghost var before := keyframes;
        while k < |rules|
          invariant 0 <= k <= |rules|
          invariant keyframes == before + RuleKeyframes(rules[..k])
        {
          if rules[k].isKeyframes {
            keyframes := keyframes + [rules[k].cssText];
          }
          assert rules[..k + 1][..k] == rules[..k];
          k := k + 1;
        }
        assert rules[..k] == rules;
      }
      s := s + 1;
    }
    assert sheets[..s] == sheets;
  }

  /** The `<style>` block prepended to the html: the rules one per line,
      and nothing at all when there are none. */
  function KeyframesBlock(keyframes: seq<string>): (r: string)
    ensures r == "" <==> keyframes == []
    ensures keyframes != [] ==> StartsWith(r, "<style>\n")
  {
    if keyframes == [] then "" else "<style>\n" + Join(keyframes, "\n") + "\n</style>\n"
  }

  // ---------------------------------------------------------------------
  // Pseudo-elements (`extractPseudoElementStyles`)

  /** The properties copied onto a pseudo-element span. */
  const PseudoProperties: seq<string> := [
    "display", "position", "top", "left", "right", "bottom",
    "width", "height", "margin", "padding", "border",
    "background", "color", "font-size", "font-weight",
    "text-decoration", "opacity", "z-index", "transform",
    "box-shadow", "border-radius"
  ]

  datatype Pseudo = Before | After

  /** The pseudo-element's name without its `::`. */
  function PseudoName(which: Pseudo): string {
    match which
    case Before => "before"
    case After => "after"
  }

  /** The `content` values that create a span. */
  predicate HasContent(content: string) {
    content != "" && content != "none" && content != "normal" && content != "\"\"" && content != "''"
  }

  predicate IsQuote(c: char) {
    c == '"' || c == '\''
  }

  /** `content.replace(/^["']|["']$/g, '')`: one quote removed at the
      start and one at the end. A lone quote is removed once: after the
      first match the scan resumes past it. */
  function StripQuotes(content: string): (r: string)
    ensures |content| - 2 <= |r| <= |content|
  {
    var s := if content != [] && IsQuote(content[0]) then content[1..] else content;
    if s != [] && IsQuote(s[|s| - 1]) then s[..|s| - 1] else s
  }

  /** A quoted string loses exactly its quotes. */
  lemma StripQuotesQuoted(q: char, m: string, q': char)
    requires IsQuote(q) && IsQuote(q')
    ensures StripQuotes([q] + m + [q']) == m
  {
    assert ([q] + m + [q'])[1..] == m + [q'];
    assert (m + [q'])[..|m|] == m;
  }

  /** Content that neither starts nor ends with a quote is kept as is. */
  lemma StripQuotesPlain(content: string)
    requires content == [] || (!IsQuote(content[0]) && !IsQuote(content[|content| - 1]))
    ensures StripQuotes(content) == content
  {
  }

  /** The span that materialises a pseudo-element: class
      `pseudo-before`/`pseudo-after`, a `style` attribute only when a
      declaration was kept, and the stripped content as its text. */
  function PseudoSpan(which: Pseudo, text: string, decls: seq<string>): (r: Element)
    ensures r.tag == SPAN && |r.attrs| > 0 && r.attrs[0] == ("class", "pseudo-" + PseudoName(which))
    ensures GetAttr(r.attrs, "style").Some? <==> decls != []
    ensures forall k :: 0 <= k < |r.children| ==> r.children[k].TextChild?
  {
    var classAttr := ("class", "pseudo-" + PseudoName(which));
    var attrs := if decls == [] then [classAttr] else [classAttr, ("style", Join(decls, "; "))];
    Element(SPAN, attrs, if text == "" then [] else [TextChild(text)])
  }

  /** What the pass runs on: the property lists it reads and the
      significance check it applies. */
  datatype Policy = Policy(important: seq<string>, animation: seq<string>, pseudo: seq<string>, sig: Significance)

  /** The policy of content/style-extractor.js. */
  const Extractor: Policy := Policy(ImportantStyleProperties, AnimationProperties, PseudoProperties, IsSignificantStyleValue)

  /** Element `i` with one pseudo-element processed: unchanged, or the
      span appended to the arena and referenced as first (`::before`) or
      last (`::after`) child. `props` are the pseudo-element properties
      copied, `sig` the significance check, and `tag` the source element's
      tag, which the check reads. */
  function AddPseudo(elems: seq<Element>, i: nat, which: Pseudo, pstyle: Style, tag: Tag, props: seq<string>, sig: Significance): (r: seq<Element>)
    requires i < |elems|
    ensures |elems| <= |r| <= |elems| + 1
  {
    var content := PropertyValue(pstyle, "content");
    if !HasContent(content) then elems
    else
      match Collect(props, pstyle, ForTag(sig, tag))
      case None => elems
      case Some(decls) =>
        var span := PseudoSpan(which, StripQuotes(content), decls);
        var e := elems[i];
        var children := if which == Before then [ElemRef(|elems|)] + e.children else e.children + [ElemRef(|elems|)];
        elems[i := e.(children := children)] + [span]
  }

  /** Both pseudo-elements of element `i`, `::before` first. */
  function AddPseudos(elems: seq<Element>, i: nat, c: Computed, tag: Tag, props: seq<string>, sig: Significance): (r: seq<Element>)
    requires i < |elems|
    ensures |elems| <= |r| <= |elems| + 2
  {
    AddPseudo(AddPseudo(elems, i, Before, c.before, tag, props, sig), i, After, c.after, tag, props, sig)
  }

  /** A span is created exactly when the content is real and the checks of
      the pseudo-element's properties all return. It becomes the first
      child (`::before`) or the last child (`::after`), the other children
      keep their order, and no other element changes. */
  lemma AddPseudoPlacement(elems: seq<Element>, i: nat, which: Pseudo, pstyle: Style, tag: Tag, props: seq<string>, sig: Significance)
    requires i < |elems|
    ensures var r := AddPseudo(elems, i, which, pstyle, tag, props, sig);
      (|r| == |elems| + 1 <==> HasContent(PropertyValue(pstyle, "content")) && Collect(props, pstyle, ForTag(sig, tag)).Some?)
      && (|r| == |elems| + 1 ==>
            r[|elems|].tag == SPAN
            && (forall k :: 0 <= k < |r[|elems|].children| ==> r[|elems|].children[k].TextChild?)
            && (which == Before ==> r[i].children == [ElemRef(|elems|)] + elems[i].children)
            && (which == After ==> r[i].children == elems[i].children + [ElemRef(|elems|)]))
      && (forall j :: 0 <= j < |elems| && j != i ==> r[j] == elems[j])
      && r[i].tag == elems[i].tag && r[i].attrs == elems[i].attrs
  {
  }

  /** With `isSignificantStyleValue`, a span is created exactly when the
      content is real and the pseudo-element's `display` check does not
      throw: a `::before` of a paragraph shown as `block` is lost. */
  lemma PseudoCreatedUnlessDisplayThrows(elems: seq<Element>, i: nat, which: Pseudo, pstyle: Style, tag: Tag)
    requires i < |elems|
    ensures |AddPseudo(elems, i, which, pstyle, tag, PseudoProperties, IsSignificantStyleValue)| == |elems| + 1
            <==> HasContent(PropertyValue(pstyle, "content")) && !DisplayThrows(pstyle, tag)
  {
    AddPseudoPlacement(elems, i, which, pstyle, tag, PseudoProperties, IsSignificantStyleValue);
    assert PseudoProperties[0] in PseudoProperties;
    ThrowsOnlyOnDisplay(PseudoProperties, pstyle, tag);
  }

  // ---------------------------------------------------------------------
  // One element of the pass, and the pass

  /** Element `i` with `style` set to the joined declarations, when there
      are any (`cloneEl.style.cssText = styleString`). */
  function WithStyle(elems: seq<Element>, i: nat, decls: seq<string>): (r: seq<Element>)
    requires i < |elems|
    ensures |r| == |elems| && r[i].tag == elems[i].tag && r[i].children == elems[i].children
    ensures decls != [] ==> GetAttr(r[i].attrs, "style") == Some(Join(decls, "; "))
  {
    if decls == [] then elems
    else
      GetSetAttr(elems[i].attrs, "style", Join(decls, "; "), "style");
      elems[i := elems[i].(attrs := SetAttr(elems[i].attrs, "style", Join(decls, "; ")))]
  }

  /** Element `i` without its `class` and `id` attributes. */
  function WithoutIds(elems: seq<Element>, i: nat): (r: seq<Element>)
    requires i < |elems|
    ensures |r| == |elems| && r[i].tag == elems[i].tag && r[i].children == elems[i].children
    ensures GetAttr(r[i].attrs, "class").None? && GetAttr(r[i].attrs, "id").None?
    ensures GetAttr(r[i].attrs, "style") == GetAttr(elems[i].attrs, "style")
  {
    var a := RemoveAttr(elems[i].attrs, "class");
    GetRemoveAttr(elems[i].attrs, "class", "id");
    GetRemoveAttr(elems[i].attrs, "class", "style");
    GetRemoveAttr(a, "id", "class");
    GetRemoveAttr(a, "id", "style");
    elems[i := elems[i].(attrs := RemoveAttr(a, "id"))]
  }

  /** Element `i` after the body of the `forEach` callback, with the
      counters it adds. */
  datatype Step = Step(elems: seq<Element>, styled: nat, pseudo: nat, animated: nat)

  function InlineStep(elems: seq<Element>, i: nat, c: Computed, pol: Policy): (r: Step)
    requires i < |elems|
    ensures |r.elems| == |elems| + r.pseudo && r.pseudo <= 2
    ensures r.animated <= r.styled <= 1
  {
    var tag := elems[i].tag;
    match Collect(pol.important, c.style, ForTag(pol.sig, tag))
    case None => Step(elems, 0, 0, 0)
    case Some(important) =>
      var animation := AnimationDecls(pol.animation, c.style);
      var decls := important + animation;
      var withPseudo := AddPseudos(WithStyle(elems, i, decls), i, c, tag, pol.pseudo, pol.sig);
      Step(WithoutIds(withPseudo, i), if decls == [] then 0 else 1, |withPseudo| - |elems|, if animation == [] then 0 else 1)
  }

  /** A step of a pass over the arena: element `i` of `elems` processed
      with its computed styles, and the counters it adds. */
  type Stepper = (seq<Element>, nat, Computed) -> Step

  /** The first `k` elements processed in order by `step`, with the
      counters summed. */
  function Fold(elems: seq<Element>, computed: seq<Computed>, k: nat, step: Stepper): Step
    requires k <= |computed|
    decreases k
  {
    if k == 0 then Step(elems, 0, 0, 0)
    else
      var p := Fold(elems, computed, k - 1, step);
      var s := step(p.elems, k - 1, computed[k - 1]);
      Step(s.elems, p.styled + s.styled, p.pseudo + s.pseudo, p.animated + s.animated)
  }

  /** A step that appends at most two spans, counts them, styles and
      animates at most its own element, and changes no other element. */
  ghost predicate Confined(step: Stepper) {
    (forall e, i, c :: |step(e, i, c).elems| == |e| + step(e, i, c).pseudo && step(e, i, c).pseudo <= 2
                       && step(e, i, c).animated <= step(e, i, c).styled <= 1)
    && (forall e, i, c, j :: 0 <= j < |e| && j != i ==> step(e, i, c).elems[j] == e[j])
  }

  /** The step of the pass under a policy; an index past the arena names
      no element and changes nothing. */
  function StepOf(pol: Policy): Stepper {
    (e: seq<Element>, i: nat, c: Computed) => if i < |e| then InlineStep(e, i, c, pol) else Step(e, 0, 0, 0)
  }

  /** The first `k` elements of the pass processed in order, with the
      counters summed. The spans created so far sit past the original
      elements and are counted by `pseudo`. */
  function InlineUpTo(elems: seq<Element>, computed: seq<Computed>, k: nat, pol: Policy): (r: Step)
    requires k <= |computed|
    ensures |r.elems| == |elems| + r.pseudo
    ensures r.animated <= r.styled <= k && r.pseudo <= 2 * k
  {
    StepOfConfined(pol);
    FoldCounts(elems, computed, k, StepOf(pol));
    Fold(elems, computed, k, StepOf(pol))
  }

  /** One more element of the pass is one more step. */
  lemma InlineUpToNext(elems: seq<Element>, computed: seq<Computed>, k: nat, pol: Policy)
    requires k < |computed| && k < |elems|
    ensures var p := InlineUpTo(elems, computed, k, pol);
      var s := InlineStep(p.elems, k, computed[k], pol);
      InlineUpTo(elems, computed, k + 1, pol) == Step(s.elems, p.styled + s.styled, p.pseudo + s.pseudo, p.animated + s.animated)
  {
    var p := InlineUpTo(elems, computed, k, pol);
    assert StepOf(pol)(p.elems, k, computed[k]) == InlineStep(p.elems, k, computed[k], pol);
  }

  /** `extractPseudoElementStyles` for one pseudo-element: the body of its
      `forEach` callback. A throwing check skips the insertion. */
  method InsertPseudo(clone: Clone, i: nat, which: Pseudo, pstyle: Style, tag: Tag) returns (created: nat)
    requires i < |clone.elems|
    modifies clone
    ensures clone.elems == AddPseudo(old(clone.elems), i, which, pstyle, tag, PseudoProperties, IsSignificantStyleValue)
    ensures created == |clone.elems| - |old(clone.elems)|
  {
    created := 0;
    var content := PropertyValue(pstyle, "content");
    if HasContent(content) {
      var decls := CollectSignificant(PseudoProperties, pstyle, tag);
      if decls.Some? {
        var span := PseudoSpan(which, StripQuotes(content), decls.value);
        var e := clone.elems[i];
        var j := |clone.elems|;
        var children := if which == Before then [ElemRef(j)] + e.children else e.children + [ElemRef(j)];
        clone.elems := clone.elems[i := e.(children := children)] + [span];
        created := 1;
      }
    }
  }

  /** `extractPseudoElementStyles`: `::before`, then `::after`; returns
      how many spans it created. */
  method ExtractPseudoElementStyles(clone: Clone, i: nat, c: Computed, tag: Tag) returns (created: nat)
    requires i < |clone.elems|
    modifies clone
    ensures clone.elems == AddPseudos(old(clone.elems), i, c, tag, PseudoProperties, IsSignificantStyleValue)
    ensures created == |clone.elems| - |old(clone.elems)| && created <= 2
  {
    var b := InsertPseudo(clone, i, Before, c.before, tag);
    var a := InsertPseudo(clone, i, After, c.after, tag);
    created := b + a;
  }

  /** The body of the `forEach` callback for element `i`. The exception
      of a throwing `display` check skips everything after it, the
      removal of `class` and `id` included. */
  method InlineElement(clone: Clone, i: nat, c: Computed) returns (styled: nat, pseudo: nat, animated: nat)
    requires i < |clone.elems|
    modifies clone
    ensures InlineStep(old(clone.elems), i, c, Extractor) == Step(clone.elems, styled, pseudo, animated)
  {
    var tag := clone.elems[i].tag;
    var important := CollectSignificant(ImportantStyleProperties, c.style, tag);
    if important.None? {
      return 0, 0, 0;
    }
    var inlineStyles := important.value;
    var animation := ExtractAnimationStyles(c.style);
    assert Extractor.animation == AnimationProperties && Extractor.important == ImportantStyleProperties;
    assert Extractor.pseudo == PseudoProperties && Extractor.sig == IsSignificantStyleValue;
    animated := 0;
    if |animation| > 0 {
      inlineStyles := inlineStyles + animation;
      animated := 1;
    }
    assert inlineStyles == important.value + animation;
    styled := 0;
    if |inlineStyles| > 0 {
      var e := clone.elems[i];
      clone.elems := clone.elems[i := e.(attrs := SetAttr(e.attrs, "style", Join(inlineStyles, "; ")))];
      styled := 1;
    }
    ghost var styledElems := clone.elems;
    assert styledElems == WithStyle(old(clone.elems), i, inlineStyles);
    pseudo := ExtractPseudoElementStyles(clone, i, c, tag);
    var e := clone.elems[i];
    clone.elems := clone.elems[i := e.(attrs := RemoveAttr(RemoveAttr(e.attrs, "class"), "id"))];
  }

  /** Changing the attributes of one element keeps every reference. */
  lemma AttrsForward(elems: seq<Element>, r: seq<Element>)
    requires |r| == |elems| && RefsForward(elems)
    requires forall j :: 0 <= j < |elems| ==> r[j].children == elems[j].children
    ensures RefsForward(r)
  {
    forall j, k | 0 <= j < |r| && 0 <= k < |r[j].children| && r[j].children[k].ElemRef?
      ensures j < r[j].children[k].index < |r|
    {
      assert r[j].children == elems[j].children;
    }
  }

  /** Appending an element without element children, referenced first or
      last from element `i`, keeps every reference pointing forward. */
  lemma AppendForward(elems: seq<Element>, r: seq<Element>, i: nat, first: bool)
    requires i < |elems| && RefsForward(elems) && |r| == |elems| + 1
    requires forall k :: 0 <= k < |r[|elems|].children| ==> r[|elems|].children[k].TextChild?
    requires first ==> r[i].children == [ElemRef(|elems|)] + elems[i].children
    requires !first ==> r[i].children == elems[i].children + [ElemRef(|elems|)]
    requires forall j :: 0 <= j < |elems| && j != i ==> r[j] == elems[j]
    ensures RefsForward(r)
  {
    forall j, k | 0 <= j < |r| && 0 <= k < |r[j].children| && r[j].children[k].ElemRef?
      ensures j < r[j].children[k].index < |r|
    {
      if j == i && first && k > 0 {
        assert r[j].children[k] == elems[i].children[k - 1];
      } else if j == i && !first && k < |elems[i].children| {
        assert r[j].children[k] == elems[i].children[k];
      }
    }
  }

  /** A pseudo span, appended past every element, keeps every reference
      pointing forward. */
  lemma AddPseudoForward(elems: seq<Element>, i: nat, which: Pseudo, pstyle: Style, tag: Tag, props: seq<string>, sig: Significance)
    requires i < |elems| && RefsForward(elems)
    ensures RefsForward(AddPseudo(elems, i, which, pstyle, tag, props, sig))
  {
    var r := AddPseudo(elems, i, which, pstyle, tag, props, sig);
    AddPseudoPlacement(elems, i, which, pstyle, tag, props, sig);
    if |r| == |elems| + 1 {
      AppendForward(elems, r, i, which == Before);
    }
  }

  /** One step of the pass keeps every reference pointing forward. */
  lemma InlineStepForward(elems: seq<Element>, i: nat, c: Computed, pol: Policy)
    requires i < |elems| && RefsForward(elems)
    ensures RefsForward(InlineStep(elems, i, c, pol).elems)
  {
    var tag := elems[i].tag;
    if Collect(pol.important, c.style, ForTag(pol.sig, tag)).Some? {
      var decls := Collect(pol.important, c.style, ForTag(pol.sig, tag)).value + AnimationDecls(pol.animation, c.style);
      var styled := WithStyle(elems, i, decls);
      AttrsForward(elems, styled);
      var once := AddPseudo(styled, i, Before, c.before, tag, pol.pseudo, pol.sig);
      AddPseudoForward(styled, i, Before, c.before, tag, pol.pseudo, pol.sig);
      var twice := AddPseudo(once, i, After, c.after, tag, pol.pseudo, pol.sig);
      AddPseudoForward(once, i, After, c.after, tag, pol.pseudo, pol.sig);
      AttrsForward(twice, WithoutIds(twice, i));
    }
  }

  /** The `forEach` loop of `extractAndInlineStyles` over the snapshot
      `[clone, ...clone.querySelectorAll('*')]` taken before the loop, so
      the spans the loop appends are never visited. Returns the three
      counters. */
  method InlineElements(clone: Clone, computed: seq<Computed>) returns (styled: nat, pseudo: nat, animated: nat)
    requires clone.Valid() && |computed| == |clone.elems|
    modifies clone
    ensures clone.Valid()
    ensures InlineUpTo(old(clone.elems), computed, |computed|, Extractor) == Step(clone.elems, styled, pseudo, animated)
  {
    ghost var elems0 := clone.elems;
    var n := |clone.elems|;
    styled, pseudo, animated := 0, 0, 0;
    var i := 0;
    while i < n
      invariant 0 <= i <= n && n == |elems0| == |computed|
      invariant InlineUpTo(elems0, computed, i, Extractor) == Step(clone.elems, styled, pseudo, animated)
      invariant RefsForward(clone.elems)
    {
      InlineStepForward(clone.elems, i, computed[i], Extractor);
      InlineUpToNext(elems0, computed, i, Extractor);
      var s, p, a := InlineElement(clone, i, computed[i]);
      styled, pseudo, animated := styled + s, pseudo + p, animated + a;
      i := i + 1;
    }
  }

  /** `extractAndInlineStyles(element, clone)`: keyframes first, then the
      pass over the elements, then the HTML of the clone after the
      keyframes block. */
  method ExtractAndInlineStyles(clone: Clone, computed: seq<Computed>, sheets: seq<Sheet>,
                                serialize: seq<Element> -> string) returns (result: StyleResult)
    requires clone.Valid() && |computed| == |clone.elems|
    modifies clone
    ensures clone.Valid()
    ensures var pass := InlineUpTo(old(clone.elems), computed, |computed|, Extractor);
      clone.elems == pass.elems
      && result.stats == Stats(pass.styled, pass.pseudo, pass.animated, KeyframesOf(sheets) != [])
    ensures result.html == KeyframesBlock(KeyframesOf(sheets)) + serialize(clone.elems)
  {
    var keyframes := ExtractKeyframes(sheets);
    var extractedKeyframes := "";
    if |keyframes| > 0 {
      extractedKeyframes := "<style>\n" + Join(keyframes, "\n") + "\n</style>\n";
    }
    var processedCount, pseudoElementsCount, animatedElementsCount := InlineElements(clone, computed);
    result := StyleResult(extractedKeyframes + serialize(clone.elems),
                          Stats(processedCount, pseudoElementsCount, animatedElementsCount, |keyframes| > 0));
  }

  // ---------------------------------------------------------------------
  // What the pass promises

  /** A step touches element `i` and appends; every other element stays. */
  lemma InlineStepFrame(elems: seq<Element>, i: nat, c: Computed, pol: Policy, j: nat)
    requires i < |elems| && j < |elems| && j != i
    ensures InlineStep(elems, i, c, pol).elems[j] == elems[j]
  {
    var tag := elems[i].tag;
    if Collect(pol.important, c.style, ForTag(pol.sig, tag)).Some? {
      var decls := Collect(pol.important, c.style, ForTag(pol.sig, tag)).value + AnimationDecls(pol.animation, c.style);
      var styled := WithStyle(elems, i, decls);
      AddPseudoPlacement(styled, i, Before, c.before, tag, pol.pseudo, pol.sig);
      AddPseudoPlacement(AddPseudo(styled, i, Before, c.before, tag, pol.pseudo, pol.sig), i, After, c.after, tag, pol.pseudo, pol.sig);
    }
  }

  /** What a step does to its own element: nothing when a check throws;
      otherwise `class` and `id` are gone, and the joined declarations are
      the `style` when there are any. */
  lemma InlineStepOwn(elems: seq<Element>, i: nat, c: Computed, pol: Policy)
    requires i < |elems|
    ensures var e := InlineStep(elems, i, c, pol).elems[i];
      var decls := Collect(pol.important, c.style, ForTag(pol.sig, elems[i].tag));
      (decls.None? ==> e == elems[i])
      && (decls.Some? ==>
            GetAttr(e.attrs, "class").None? && GetAttr(e.attrs, "id").None? && e.tag == elems[i].tag
            && var all := decls.value + AnimationDecls(pol.animation, c.style);
               all != [] ==> GetAttr(e.attrs, "style") == Some(Join(all, "; ")))
  {
    var tag := elems[i].tag;
    var decls := Collect(pol.important, c.style, ForTag(pol.sig, tag));
    if decls.Some? {
      var all := decls.value + AnimationDecls(pol.animation, c.style);
      var styled := WithStyle(elems, i, all);
      var once := AddPseudo(styled, i, Before, c.before, tag, pol.pseudo, pol.sig);
      AddPseudoPlacement(styled, i, Before, c.before, tag, pol.pseudo, pol.sig);
      AddPseudoPlacement(once, i, After, c.after, tag, pol.pseudo, pol.sig);
    }
  }

  /** The step of the pass keeps to its own element and counts what it
      appends. */
  lemma StepOfConfined(pol: Policy)
    ensures Confined(StepOf(pol))
  {
    forall e: seq<Element>, i: nat, c: Computed, j | 0 <= j < |e| && j != i
      ensures StepOf(pol)(e, i, c).elems[j] == e[j]
    {
      if i < |e| {
        InlineStepFrame(e, i, c, pol, j);
      }
    }
  }

  /** A fold of a confined step counts the spans it appends, and styles
      and animates at most one element per step. */
  lemma {:induction false} FoldCounts(elems: seq<Element>, computed: seq<Computed>, k: nat, step: Stepper)
    requires Confined(step) && k <= |computed|
    ensures var r := Fold(elems, computed, k, step);
      |r.elems| == |elems| + r.pseudo && r.animated <= r.styled <= k && r.pseudo <= 2 * k
    decreases k
  {
    if k > 0 {
      FoldCounts(elems, computed, k - 1, step);
    }
  }

  /** A fold of a confined step leaves the elements it has not reached yet
      alone. */
  lemma {:induction false} FoldAhead(elems: seq<Element>, computed: seq<Computed>, k: nat, step: Stepper, j: nat)
    requires Confined(step) && k <= j < |elems| && k <= |computed|
    ensures j < |Fold(elems, computed, k, step).elems| && Fold(elems, computed, k, step).elems[j] == elems[j]
    decreases k
  {
    FoldCounts(elems, computed, k, step);
    if k > 0 {
      FoldAhead(elems, computed, k - 1, step, j);
    }
  }

  /** Once a fold of a confined step has processed element `j`, later
      steps do not touch it again. */
  lemma {:induction false} FoldBehind(elems: seq<Element>, computed: seq<Computed>, k: nat, step: Stepper, j: nat)
    requires Confined(step) && j < k <= |computed| && j < |elems|
    ensures var s := step(Fold(elems, computed, j, step).elems, j, computed[j]).elems;
      j < |s| && j < |Fold(elems, computed, k, step).elems| && Fold(elems, computed, k, step).elems[j] == s[j]
    decreases k
  {
    FoldCounts(elems, computed, k, step);
    FoldCounts(elems, computed, j, step);
    if k > j + 1 {
      FoldBehind(elems, computed, k - 1, step, j);
    }
  }

  /** After the pass, each original element is either untouched (a check
      threw) or has lost `class` and `id` and carries its significant and
      animation declarations as `style`. */
  lemma StylePassOutcome(elems: seq<Element>, computed: seq<Computed>, pol: Policy, j: nat)
    requires |computed| == |elems| && j < |elems|
    ensures var e := InlineUpTo(elems, computed, |elems|, pol).elems[j];
      var decls := Collect(pol.important, computed[j].style, ForTag(pol.sig, elems[j].tag));
      (decls.None? ==> e == elems[j])
      && (decls.Some? ==>
            GetAttr(e.attrs, "class").None? && GetAttr(e.attrs, "id").None?
            && var all := decls.value + AnimationDecls(pol.animation, computed[j].style);
               all != [] ==> GetAttr(e.attrs, "style") == Some(Join(all, "; ")))
  {
    StepOfConfined(pol);
    FoldBehind(elems, computed, |elems|, StepOf(pol), j);
    FoldAhead(elems, computed, j, StepOf(pol), j);
    var before := Fold(elems, computed, j, StepOf(pol)).elems;
    assert StepOf(pol)(before, j, computed[j]) == InlineStep(before, j, computed[j], pol);
    InlineStepOwn(before, j, computed[j], pol);
  }

  /** The `display` quirk in the pass: a paragraph whose computed display
      is `block` is skipped entirely and keeps its `class` and `id`. */
  lemma BlockParagraphSkipped(elems: seq<Element>, computed: seq<Computed>, j: nat)
    requires |computed| == |elems| && j < |elems|
    requires elems[j].tag == P && PropertyValue(computed[j].style, "display") == "block"
    ensures InlineUpTo(elems, computed, |elems|, Extractor).elems[j] == elems[j]
  {
    ImportantDeclsFailOnDisplay(computed[j].style, P);
    StylePassOutcome(elems, computed, Extractor, j);
  }

  /** A DIV shown as `block` is processed: it loses `class` and `id`. */
  lemma BlockDivProcessed(elems: seq<Element>, computed: seq<Computed>, j: nat)
    requires |computed| == |elems| && j < |elems|
    requires elems[j].tag == DIV && PropertyValue(computed[j].style, "display") == "block"
    ensures GetAttr(InlineUpTo(elems, computed, |elems|, Extractor).elems[j].attrs, "class").None?
    ensures GetAttr(InlineUpTo(elems, computed, |elems|, Extractor).elems[j].attrs, "id").None?
  {
    ImportantDeclsFailOnDisplay(computed[j].style, DIV);
    StylePassOutcome(elems, computed, Extractor, j);
  }
}
