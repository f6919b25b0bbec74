/** The DOM as the capture pipeline sees it.

    `Node` is the tree the Markdown converter walks: text nodes, element
    nodes and every other node kind (comments, processing instructions),
    which contribute nothing. Tag names are a datatype, so the source's
    `tagName === 'IMG'` and `tagName.toLowerCase() === 'img'` tests both
    read `tag == IMG` here.

    `Clone` is the deep copy of the captured element that the style and
    link passes mutate in place. Its elements sit in an arena, index 0
    being the root; a child is either a text node or a reference to a
    later arena slot. The arena stands for the list
    `[clone, ...clone.querySelectorAll('*')]` in document order, and the
    spans the style pass creates for pseudo-elements are appended after
    it, so the arena, unlike `querySelectorAll`, does not keep them in
    document order. `Clone.Valid` checks only that the arena is non-empty
    and that every reference points forward: it does not check that each
    slot but the root has exactly one parent or that the slots are in
    pre-order. The counts taken over the arena (`TagCount`,
    `TagAttrCount`, the link counters) are the DOM's counts for arenas of
    that shape only; the model takes the shape as given by the parser. */
module Dom {
  import opened Wrappers

  /** The tag of an element, as `tagName` reports it: one value per tag
      name the capture pipeline tests for, and `OTHER` for all the rest. */
  datatype Tag =
    | H1 | H2 | H3 | H4 | H5 | H6 | P | STRONG | B | EM | I | CODE | PRE | BR
    | A | IMG | UL | OL | LI | BLOCKQUOTE | TABLE | THEAD | TBODY | TFOOT | TR | TH | TD
    | DIV | SECTION | ARTICLE | MAIN | HEADER | FOOTER | NAV | ASIDE | SPAN
    | OTHER

  /** An attribute: name and value. */
  type Attr = (string, string)

  datatype Node =
    | Text(text: string)
    | Elem(tag: Tag, attrs: seq<Attr>, children: seq<Node>)
    | Other

  /** `getAttribute(name)`: the value of the first attribute with that
      name, or None (`null`) when the element has none. */
  function GetAttr(attrs: seq<Attr>, name: string): Option<string>
  {
    if attrs == [] then None
    else if attrs[0].0 == name then Some(attrs[0].1)
    else GetAttr(attrs[1..], name)
  }

  /** `getAttribute` finds a value exactly when an attribute has that
      name, and the value it finds is the first such attribute's. */
  lemma {:induction false} GetAttrFound(attrs: seq<Attr>, name: string)
    ensures GetAttr(attrs, name).None? <==> forall k :: 0 <= k < |attrs| ==> attrs[k].0 != name
    ensures GetAttr(attrs, name).Some? ==> exists k :: 0 <= k < |attrs| && attrs[k] == (name, GetAttr(attrs, name).value)
                                                    && forall j :: 0 <= j < k ==> attrs[j].0 != name
  {
    if attrs != [] && attrs[0].0 != name {
      GetAttrFound(attrs[1..], name);
      if GetAttr(attrs, name).Some? {
        var k :| 0 <= k < |attrs| - 1 && attrs[1..][k] == (name, GetAttr(attrs, name).value)
                 && forall j :: 0 <= j < k ==> attrs[1..][j].0 != name;
        assert attrs[k + 1] == (name, GetAttr(attrs, name).value);
      }
    } else if attrs != [] {
      assert attrs[0] == (name, GetAttr(attrs, name).value);
    }
  }

  /** `setAttribute(name, value)`: overwrite the value of the attribute in
      place when it exists, else append it. */
  function SetAttr(attrs: seq<Attr>, name: string, value: string): (r: seq<Attr>)
    ensures |r| == |attrs| || |r| == |attrs| + 1
  {
    if attrs == [] then [(name, value)]
    else if attrs[0].0 == name then [(name, value)] + attrs[1..]
    else [attrs[0]] + SetAttr(attrs[1..], name, value)
  }

  /** `removeAttribute(name)`. */
  function RemoveAttr(attrs: seq<Attr>, name: string): (r: seq<Attr>)
    ensures |r| <= |attrs|
    ensures forall a :: a in r ==> a in attrs && a.0 != name
  {
    if attrs == [] then []
    else if attrs[0].0 == name then RemoveAttr(attrs[1..], name)
    else [attrs[0]] + RemoveAttr(attrs[1..], name)
  }

  /** After `setAttribute(name, v)`, `getAttribute` returns `v` for that
      name and what it returned before for every other name. */
  lemma {:induction false} GetSetAttr(attrs: seq<Attr>, name: string, value: string, other: string)
    ensures GetAttr(SetAttr(attrs, name, value), name) == Some(value)
    ensures other != name ==> GetAttr(SetAttr(attrs, name, value), other) == GetAttr(attrs, other)
  {
    if attrs != [] && attrs[0].0 != name {
      GetSetAttr(attrs[1..], name, value, other);
    }
  }

  /** Setting an attribute to the value it already has changes nothing. */
  lemma {:induction false} SetAttrSame(attrs: seq<Attr>, name: string)
    requires GetAttr(attrs, name).Some?
    ensures SetAttr(attrs, name, GetAttr(attrs, name).value) == attrs
  {
    assert attrs == [attrs[0]] + attrs[1..];
    if attrs[0].0 != name {
      SetAttrSame(attrs[1..], name);
    }
  }

  /** After `removeAttribute(name)` the name is gone and every other name
      reads as before. */
  lemma {:induction false} GetRemoveAttr(attrs: seq<Attr>, name: string, other: string)
    ensures GetAttr(RemoveAttr(attrs, name), name).None?
    ensures other != name ==> GetAttr(RemoveAttr(attrs, name), other) == GetAttr(attrs, other)
  {
    if attrs != [] {
      GetRemoveAttr(attrs[1..], name, other);
    }
  }

  /** A child of an arena element. */
  datatype Child = TextChild(text: string) | ElemRef(index: nat)

  /** One element of the clone: tag, attributes in order, children. */
  datatype Element = Element(tag: Tag, attrs: seq<Attr>, children: seq<Child>)

  /** Every element reference points to a later slot of the arena, so the
      references form a forest rooted at slot 0 read in document order. */
  ghost predicate RefsForward(elems: seq<Element>) {
    forall i, k :: 0 <= i < |elems| && 0 <= k < |elems[i].children| && elems[i].children[k].ElemRef? ==>
      i < elems[i].children[k].index < |elems|
  }

  /** `querySelectorAll(t).length` over a list of elements: how many
      have tag `t`. */
  function TagCount(elems: seq<Element>, t: Tag): (r: nat)
    ensures r <= |elems|
  {
    if elems == [] then 0
    else TagCount(elems[..|elems| - 1], t) + (if elems[|elems| - 1].tag == t then 1 else 0)
  }

  /** How many of the elements with tag `t` carry attribute `name`, as
      `querySelectorAll('a[href]').length` counts links. */
  function TagAttrCount(elems: seq<Element>, t: Tag, name: string): (r: nat)
    ensures r <= TagCount(elems, t)
  {
    if elems == [] then 0
    else
      var last := elems[|elems| - 1];
      TagAttrCount(elems[..|elems| - 1], t, name) + (if last.tag == t && GetAttr(last.attrs, name).Some? then 1 else 0)
  }

  /** Same tag, and `name` present on both or on neither. */
  predicate SameCounted(x: Element, y: Element, name: string) {
    x.tag == y.tag && GetAttr(x.attrs, name).Some? == GetAttr(y.attrs, name).Some?
  }

  /** Two lists that agree element by element on tags and on which
      elements carry `name` give the same counts. */
  lemma CountsAgree(a: seq<Element>, b: seq<Element>, t: Tag, name: string)
    requires |a| == |b| && forall k :: 0 <= k < |a| ==> SameCounted(a[k], b[k], name)
    ensures TagCount(a, t) == TagCount(b, t) && TagAttrCount(a, t, name) == TagAttrCount(b, t, name)
  {
    TagCountsAgree(a, b, t, name);
    TagAttrCountsAgree(a, b, t, name);
  }

  lemma {:induction false} TagCountsAgree(a: seq<Element>, b: seq<Element>, t: Tag, name: string)
    requires |a| == |b| && forall k :: 0 <= k < |a| ==> SameCounted(a[k], b[k], name)
    ensures TagCount(a, t) == TagCount(b, t)
  {
    if a != [] {
      var n := |a| - 1;
      forall k | 0 <= k < n
        ensures SameCounted(a[..n][k], b[..n][k], name)
      {
        assert a[..n][k] == a[k] && b[..n][k] == b[k];
      }
      TagCountsAgree(a[..n], b[..n], t, name);
      assert a[n].tag == b[n].tag;
    }
  }

  lemma {:induction false} TagAttrCountsAgree(a: seq<Element>, b: seq<Element>, t: Tag, name: string)
    requires |a| == |b| && forall k :: 0 <= k < |a| ==> SameCounted(a[k], b[k], name)
    ensures TagAttrCount(a, t, name) == TagAttrCount(b, t, name)
  {
    if a != [] {
      var n := |a| - 1;
      forall k | 0 <= k < n
        ensures SameCounted(a[..n][k], b[..n][k], name)
      {
        assert a[..n][k] == a[k] && b[..n][k] == b[k];
      }
      TagAttrCountsAgree(a[..n], b[..n], t, name);
      assert SameCounted(a[n], b[n], name);
    }
  }

  /** The deep copy (`cloneNode(true)`) of a captured element. */
  class Clone {
    var elems: seq<Element>

    /** A non-empty arena whose references point forward. The tree
        shape (one parent per slot, pre-order) is not part of it. */
    ghost predicate Valid()
      reads this
    {
      |elems| > 0 && RefsForward(elems)
    }

    /** `element.cloneNode(true)`: an arena holding the same elements. */
    constructor (source: seq<Element>)
      requires |source| > 0 && RefsForward(source)
      ensures Valid() && elems == source
    {
      elems := source;
    }
  }
}
