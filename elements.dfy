/**
 * The persisted element tree as values: PersistedElement and its four kinds,
 * their checked constructors, and their conversions to and from DOM nodes.
 */
module Elements {
  import opened Failures
  import opened XmlNames
  import opened Dom

  /** NullElement, TextElement, ParentElement and ToplevelElement (a ParentElement with an id and a root flag). */
  datatype Element =
    | NullEl(tag: string)
    | TextEl(tag: string, text: string)
    | ParentEl(tag: string, children: seq<Element>)
    | ToplevelEl(tag: string, id: string, root: bool, children: seq<Element>)
  {
    /** `instanceof ParentElement` */
    predicate IsParent() { ParentEl? || ToplevelEl? }
  }

  /** The PersistedElement invariant, through the whole tree: every tag passed the constructor's check. */
  predicate ValidTags(e: Element)
  {
    IsValidXmlTag(e.tag) && (e.IsParent() ==> forall c :: c in e.children ==> ValidTags(c))
  }

  // ---- constructors (PersistedElement validates the tag before anything else) ----

  function NewNull(tag: string): (r: Result<Element>)
    ensures r.Ok? <==> IsValidXmlTag(tag)
    ensures r.Ok? ==> r.value == NullEl(tag) && ValidTags(r.value)
    ensures r.Err? ==> r.failure == PersistenceFailure(InvalidTagName(tag))
  {
    if !IsValidXmlTag(tag) then Err(PersistenceFailure(InvalidTagName(tag))) else Ok(NullEl(tag))
  }

  function NewText(tag: string, text: Option<string>): (r: Result<Element>)
    ensures r.Ok? <==> IsValidXmlTag(tag) && text.Some?
    ensures r.Ok? ==> r.value == TextEl(tag, text.value) && ValidTags(r.value)
    ensures !IsValidXmlTag(tag) ==> r == Err(PersistenceFailure(InvalidTagName(tag)))
    ensures IsValidXmlTag(tag) && text.None? ==> r == Err(NullPointer)
  {
    if !IsValidXmlTag(tag) then Err(PersistenceFailure(InvalidTagName(tag)))
    else if text.None? then Err(NullPointer)
    else Ok(TextEl(tag, text.value))
  }

  function NewToplevel(tag: string, id: Option<string>, root: bool): (r: Result<Element>)
    ensures r.Ok? <==> IsValidXmlTag(tag) && id.Some?
    ensures r.Ok? ==> r.value == ToplevelEl(tag, id.value, root, []) && ValidTags(r.value)
    ensures !IsValidXmlTag(tag) ==> r == Err(PersistenceFailure(InvalidTagName(tag)))
    ensures IsValidXmlTag(tag) && id.None? ==> r == Err(NullPointer)
  {
    if !IsValidXmlTag(tag) then Err(PersistenceFailure(InvalidTagName(tag)))
    else if id.None? then Err(NullPointer)
    else Ok(ToplevelEl(tag, id.value, root, []))
  }

  // ---- toXmlElement ----

  /** The DOM element each kind of element produces. */
  function ToXmlElement(e: Element): (x: XmlElement)
    ensures x.tag == e.tag
    decreases e, 1
  {
    match e
    case NullEl(t) => Element(t, map["null" := "true"], [])
    case TextEl(t, s) => SetTextContent(Element(t, map[], []), s)
    case ParentEl(t, cs) => Element(t, map[], ChildrenToXml(cs))
    case ToplevelEl(t, id, root, cs) =>
      Element(t, if root then map["id" := id, "root" := "true"] else map["id" := id], ChildrenToXml(cs))
  }

  /** The children's DOM elements, appended in order. */
  function ChildrenToXml(cs: seq<Element>): (r: seq<XmlNode>)
    ensures |r| == |cs|
    ensures forall k :: 0 <= k < |cs| ==> r[k] == ToXmlElement(cs[k])
    decreases cs, 0
  {
    if cs == [] then [] else [ToXmlElement(cs[0])] + ChildrenToXml(cs[1..])
  }

  /** Every element keeps its tag in the DOM; a toplevel element always has an id and has `root` exactly when it is the root. */
  lemma ToXmlShape(e: Element)
    ensures ToXmlElement(e).tag == e.tag
    ensures e.IsParent() ==> ToXmlElement(e).children == ChildrenToXml(e.children)
    ensures e.ToplevelEl? ==> "id" in ToXmlElement(e).attributes && ToXmlElement(e).attributes["id"] == e.id
    ensures e.ToplevelEl? ==> ("root" in ToXmlElement(e).attributes <==> e.root)
    ensures e.ParentEl? ==> ToXmlElement(e).attributes == map[]
    ensures e.NullEl? ==> ToXmlElement(e).attributes == map["null" := "true"] && ToXmlElement(e).children == []
  {
  }

  // ---- fromXmlElement ----

  /** NullElement.fromXmlElement: no children, no text, a `null` attribute and nothing else. */
  function NullFromXml(x: XmlElement): (r: Result<Element>)
  {
    if HasChildNodes(x) then Err(RegenerationFailure(NullHasChildren))
    else if TextContent(x) != "" then Err(RegenerationFailure(NullHasText))
    else if "null" !in x.attributes then Err(RegenerationFailure(NullMissingAttribute))
    else if |x.attributes| > 1 then Err(RegenerationFailure(NullTooManyAttributes))
    else NewNull(x.tag)
  }

  /**
   * What NullFromXml accepts: exactly the childless elements whose only
   * attribute is `null`, whatever its value. The text check can never fire,
   * since an element without children has no text.
   */
  lemma NullFromXmlAccepts(x: XmlElement)
    ensures NullFromXml(x).Ok? <==> (!HasChildNodes(x) && "null" in x.attributes && |x.attributes| == 1 && IsValidXmlTag(x.tag))
    ensures NullFromXml(x).Ok? ==> NullFromXml(x).value == NullEl(x.tag)
    ensures NullFromXml(x) != Err(RegenerationFailure(NullHasText))
  {
    if !HasChildNodes(x) {
      assert TextContent(x) == NodesText([]) == [];
    }
    if "null" in x.attributes {
      assert |x.attributes| >= 1 by {
        assert "null" in x.attributes.Keys;
      }
    }
  }

  /** A NullElement survives the trip through its DOM element. */
  lemma NullRoundTrip(tag: string)
    requires IsValidXmlTag(tag)
    ensures NullFromXml(ToXmlElement(NullEl(tag))) == Ok(NullEl(tag))
  {
    var x := ToXmlElement(NullEl(tag));
    assert |x.attributes| == 1 by {
      assert x.attributes.Keys == {"null"};
    }
    NullFromXmlAccepts(x);
  }

  /**
   * TextElement.fromXmlElement as written: any child node is refused. A
   * TextElement's own DOM element holds its text as a child text node.
   */
  function TextFromXmlAsWritten(x: XmlElement): (r: Result<Element>)
    ensures HasChildNodes(x) ==> r == Err(RegenerationFailure(TextHasChildren))
    ensures r.Ok? ==> r.value == TextEl(x.tag, "")
  {
    if HasChildNodes(x) then Err(RegenerationFailure(TextHasChildren))
    else if HasAttributes(x) then Err(RegenerationFailure(TextHasAttributes))
    else
      assert TextContent(x) == NodesText([]) == "";
      NewText(x.tag, Some(TextContent(x)))
  }

  /** So every TextElement with non-empty text fails to come back from its own DOM element. */
  lemma TextRoundTripFailsAsWritten(tag: string, text: string)
    requires text != ""
    ensures TextFromXmlAsWritten(ToXmlElement(TextEl(tag, text))) == Err(RegenerationFailure(TextHasChildren))
  {
  }

  /** The evident intent: refuse element children only, and take the text content. */
  function TextFromXml(x: XmlElement): (r: Result<Element>)
    ensures r.Ok? ==> r.value == TextEl(x.tag, TextContent(x))
    ensures ElementChildren(x.children) != [] ==> r == Err(RegenerationFailure(TextHasChildren))
  {
    if ElementChildren(x.children) != [] then Err(RegenerationFailure(TextHasChildren))
    else if HasAttributes(x) then Err(RegenerationFailure(TextHasAttributes))
    else NewText(x.tag, Some(TextContent(x)))
  }

  /** With that reading a TextElement survives the trip through its DOM element. */
  lemma TextRoundTrip(tag: string, text: string)
    requires IsValidXmlTag(tag)
    ensures TextFromXml(ToXmlElement(TextEl(tag, text))) == Ok(TextEl(tag, text))
  {
    var x := ToXmlElement(TextEl(tag, text));
    assert TextContent(x) == text;
    assert ElementChildren(x.children) == [];
  }

  /**
   * ToplevelElement.fromXmlElement. ParentElement.fromXmlElement, which parses
   * the children, is not part of this model: it is the parameter `parseChildren`.
   */
  function ToplevelFromXml(x: XmlElement, parseChildren: XmlElement -> Result<seq<Element>>): (r: Result<Element>)
    ensures "id" !in x.attributes ==> r == Err(RegenerationFailure(MissingIdAttribute))
    ensures r.Ok? ==> r.value.ToplevelEl? && r.value.tag == x.tag && "id" in x.attributes
                      && r.value.id == x.attributes["id"]
    ensures r.Ok? ==> (r.value.root <==> "root" in x.attributes)
    ensures r.Ok? ==> IsValidXmlTag(r.value.tag)
  {
    if "id" !in x.attributes then Err(RegenerationFailure(MissingIdAttribute))
    else
      var shell :- NewToplevel(x.tag, Some(x.attributes["id"]), false);
      var children :- parseChildren(x);
      Ok(shell.(children := children, root := "root" in x.attributes))
  }

  /** A toplevel element survives the trip when the children parser undoes ChildrenToXml. */
  lemma ToplevelRoundTrip(e: Element, parseChildren: XmlElement -> Result<seq<Element>>)
    requires e.ToplevelEl? && IsValidXmlTag(e.tag)
    requires parseChildren(ToXmlElement(e)) == Ok(e.children)
    ensures ToplevelFromXml(ToXmlElement(e), parseChildren) == Ok(e)
  {
    ToXmlShape(e);
  }

  /**
   * The children carrying a given tag, in order: the lookup fillInRegenerated
   * performs through getChildrenByTag, whose own source is not part of this model.
   */
  function ChildrenByTag(cs: seq<Element>, tag: string): (r: seq<Element>)
    ensures |r| <= |cs|
    ensures forall c :: c in r ==> c in cs && c.tag == tag
    ensures forall c :: c in cs && c.tag == tag ==> c in r
  {
    if cs == [] then []
    else if cs[0].tag == tag then [cs[0]] + ChildrenByTag(cs[1..], tag)
    else ChildrenByTag(cs[1..], tag)
  }
}
