/** The style significance filter of content/styles.js: which computed
    style declarations are worth copying onto the captured clone, and the
    ordered list of properties the style pass reads.

    Computed styles are strings, as `getPropertyValue` returns them; a
    property the style does not define reads as "". */
module Styles {
  import opened Strings
  import opened Dom

  /** `IMPORTANT_STYLE_PROPERTIES`, in order: layout, text, background,
      visual effects, flexbox and grid properties. `text-shadow` is listed
      twice, under text and under visual effects. */
  const ImportantStyleProperties: seq<string> :=
    LayoutProperties + TextProperties + BackgroundProperties + VisualProperties + FlexProperties + GridProperties

  const LayoutProperties: seq<string> := [
    "display", "position", "top", "left", "right", "bottom",
    "width", "height", "min-width", "min-height", "max-width", "max-height",
    "margin", "margin-top", "margin-right", "margin-bottom", "margin-left",
    "padding", "padding-top", "padding-right", "padding-bottom", "padding-left",
    "border", "border-width", "border-style", "border-color",
    "border-top", "border-right", "border-bottom", "border-left",
    "border-radius", "box-sizing", "overflow", "overflow-x", "overflow-y",
    "float", "clear", "z-index"
  ]

  const TextProperties: seq<string> := [
    "font-family", "font-size", "font-weight", "font-style", "font-variant",
    "line-height", "text-align", "text-decoration", "text-transform",
    "text-indent", "text-shadow", "letter-spacing", "word-spacing",
    "color", "white-space", "word-wrap", "word-break"
  ]

  const BackgroundProperties: seq<string> := [
    "background", "background-color", "background-image", "background-repeat",
    "background-position", "background-size", "background-attachment"
  ]

  const VisualProperties: seq<string> := [
    "opacity", "visibility", "transform", "transform-origin",
    "box-shadow", "text-shadow", "filter"
  ]

  const FlexProperties: seq<string> := [
    "flex", "flex-direction", "flex-wrap", "flex-basis", "flex-grow", "flex-shrink",
    "justify-content", "align-items", "align-self", "align-content"
  ]

  const GridProperties: seq<string> := [
    "grid", "grid-template-columns", "grid-template-rows", "grid-gap",
    "grid-column", "grid-row", "grid-area"
  ]

  /** What a call of `isSignificantStyleValue` does: return a boolean, or
      throw (the `display` entry is not a function). */
  datatype Outcome = Value(significant: bool) | Throws

  /** The values that are insignificant for every property. */
  predicate IsKeyword(value: string) {
    value == "" || value == "none" || value == "auto" || value == "normal"
    || value == "initial" || value == "unset" || value == "inherit"
  }

  /** The properties with an entry in `specialChecks`. */
  predicate HasSpecialCheck(property: string) {
    property in {"margin", "padding", "border", "border-width", "border-radius", "background",
                 "background-color", "background-image", "transform", "box-shadow",
                 "text-shadow", "opacity", "z-index", "display"}
  }

  /** The `display` entry: the value of an immediately invoked function,
      false for a DIV shown as `block` or a SPAN shown as `inline`, true
      for every other element. */
  predicate DisplayEntry(tag: Tag, value: string) {
    !((tag == DIV && value == "block") || (tag == SPAN && value == "inline"))
  }

  /** `isSignificantStyleValue(property, value, element)` for an element
      with tag `tag`. A keyword value is insignificant; a property without
      an entry is significant; the checks of the other entries are run.
      The `display` entry holds a boolean: when it is false the lookup
      falls back to `true`, and when it is true calling it throws. */
  function IsSignificantStyleValue(property: string, value: string, tag: Tag): (r: Outcome)
    ensures r.Throws? <==> property == "display" && !IsKeyword(value) && DisplayEntry(tag, value)
    ensures IsKeyword(value) ==> r == Value(false)
    ensures !IsKeyword(value) && !HasSpecialCheck(property) ==> r == Value(true)
    ensures property == "display" && !IsKeyword(value) && !DisplayEntry(tag, value) ==> r == Value(true)
  {
    if IsKeyword(value) then Value(false)
    else
      match property
      case "margin" | "padding" | "border-width" | "border-radius" => Value(value != "0px")
      case "border" => Value(value != "0px none rgb(0, 0, 0)" && value != "medium none currentcolor")
      case "background" => Value(!Contains(value, "rgba(0, 0, 0, 0)") && value != "none")
      case "background-color" => Value(!Contains(value, "rgba(0, 0, 0, 0)"))
      case "background-image" | "box-shadow" | "text-shadow" => Value(value != "none")
      case "transform" => Value(value != "none" && value != "matrix(1, 0, 0, 1, 0, 0)")
      case "opacity" => Value(value != "1")
      case "z-index" => Value(value != "auto")
      case "display" => if DisplayEntry(tag, value) then Throws else Value(true)
      case _ => Value(true)
  }

  // ---------------------------------------------------------------------
  // What the filter promises

  /** Box measures are insignificant exactly when zero (or a keyword). */
  lemma ZeroBoxInsignificant(property: string, value: string, tag: Tag)
    requires property in {"margin", "padding", "border-width", "border-radius"}
    ensures IsSignificantStyleValue(property, value, tag) == Value(!(value == "0px" || IsKeyword(value)))
  {
  }

  /** The two default borders are insignificant; any other non-keyword
      border is significant. */
  lemma DefaultBorderInsignificant(value: string, tag: Tag)
    ensures IsSignificantStyleValue("border", value, tag)
      == Value(!(IsKeyword(value) || value == "0px none rgb(0, 0, 0)" || value == "medium none currentcolor"))
  {
  }

  /** A background mentioning the transparent colour is insignificant,
      whatever else it says. */
  lemma TransparentBackgroundInsignificant(property: string, value: string, tag: Tag)
    requires property == "background" || property == "background-color"
    requires Contains(value, "rgba(0, 0, 0, 0)")
    ensures IsSignificantStyleValue(property, value, tag) == Value(false)
  {
  }

  /** The identity transform and full opacity are insignificant; half
      opacity is significant. */
  lemma IdentityTransformAndOpacity(tag: Tag)
    ensures IsSignificantStyleValue("transform", "matrix(1, 0, 0, 1, 0, 0)", tag) == Value(false)
    ensures IsSignificantStyleValue("opacity", "1", tag) == Value(false)
    ensures IsSignificantStyleValue("opacity", "0.5", tag) == Value(true)
  {
  }

  /** Properties without an entry (`color`, `font-weight`, `text-align`)
      are significant for every non-keyword value. */
  lemma UncheckedPropertiesSignificant(value: string, tag: Tag)
    requires !IsKeyword(value)
    ensures IsSignificantStyleValue("color", value, tag) == Value(true)
    ensures IsSignificantStyleValue("font-weight", value, tag) == Value(true)
    ensures IsSignificantStyleValue("text-align", value, tag) == Value(true)
  {
  }

  /** The `display` quirk on concrete elements: a DIV shown as `block` is
      significant, a paragraph shown as `block` makes the call throw, and
      `display: none` is insignificant without reaching the entry. */
  lemma DisplayQuirk()
    ensures IsSignificantStyleValue("display", "block", DIV) == Value(true)
    ensures IsSignificantStyleValue("display", "inline", SPAN) == Value(true)
    ensures IsSignificantStyleValue("display", "block", P).Throws?
    ensures IsSignificantStyleValue("display", "flex", DIV).Throws?
    ensures IsSignificantStyleValue("display", "none", P) == Value(false)
  {
  }

  /** The property list starts with `display` and names `text-shadow`
      twice, so its declaration can be emitted twice. */
  lemma ImportantPropertiesShape()
    ensures |ImportantStyleProperties| == 86
    ensures ImportantStyleProperties[0] == "display"
    ensures ImportantStyleProperties[48] == "text-shadow" && ImportantStyleProperties[67] == "text-shadow"
  {
    assert |LayoutProperties| == 38 && |TextProperties| == 17 && |BackgroundProperties| == 7;
    assert |VisualProperties| == 7 && |FlexProperties| == 10 && |GridProperties| == 7;
    assert LayoutProperties[0] == "display";
    assert TextProperties[10] == "text-shadow";
    assert VisualProperties[5] == "text-shadow";
  }
}
