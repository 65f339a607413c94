/**
 * ParentElement and its subclass ToplevelElement as a mutable object: the
 * children list grows and shrinks in place and the root flag can be reset,
 * which the persisting side relies on (an element is reserved in the
 * toplevel list first and filled in afterwards).
 */
module ParentElements {
  import opened Failures
  import opened XmlNames
  import opened Dom
  import opened Elements

  /** List.remove(Object): the sequence without its first occurrence of `x`, if any. */
  function RemoveFirst(s: seq<Element>, x: Element): seq<Element>
  {
    if s == [] then []
    else if s[0] == x then s[1..]
    else [s[0]] + RemoveFirst(s[1..], x)
  }

  /** List.indexOf: the position of the first occurrence of `x`. */
  function IndexOf(s: seq<Element>, x: Element): (i: nat)
    requires x in s
    ensures i < |s| && s[i] == x && x !in s[..i]
  {
    if s[0] == x then 0
    else
      var j := IndexOf(s[1..], x);
      assert s[..j + 1] == [s[0]] + s[1..][..j];
      j + 1
  }

  /** Removing an element that is present cuts it out at its first position, keeping the order of the rest. */
  lemma {:induction false} RemoveFirstAt(s: seq<Element>, x: Element)
    requires x in s
    ensures RemoveFirst(s, x) == s[..IndexOf(s, x)] + s[IndexOf(s, x) + 1..]
  {
    if s[0] != x {
      RemoveFirstAt(s[1..], x);
      var j := IndexOf(s[1..], x);
      assert s[..j + 1] == [s[0]] + s[1..][..j];
      assert s[j + 2..] == s[1..][j + 1..];
    }
  }

  /** Removing an element that is absent changes nothing. */
  lemma {:induction false} RemoveFirstAbsent(s: seq<Element>, x: Element)
    requires x !in s
    ensures RemoveFirst(s, x) == s
  {
    if s != [] {
      assert x !in s[1..];
      RemoveFirstAbsent(s[1..], x);
    }
  }

  /** Exactly one copy of `x` goes when there is one, and the length drops by one. */
  lemma {:induction false} RemoveFirstCount(s: seq<Element>, x: Element)
    ensures multiset(RemoveFirst(s, x)) == multiset(s) - multiset{x}
    ensures |RemoveFirst(s, x)| == if x in s then |s| - 1 else |s|
  {
    if x in s {
      var i := IndexOf(s, x);
      RemoveFirstAt(s, x);
      var front, back := s[..i], s[i + 1..];
      assert s == front + [x] + back;
      assert multiset(s) == multiset(front) + multiset{x} + multiset(back);
      assert multiset(RemoveFirst(s, x)) == multiset(front) + multiset(back);
    } else {
      RemoveFirstAbsent(s, x);
      assert x !in multiset(s);
      assert multiset(s) - multiset{x} == multiset(s);
    }
  }

  /** A ParentElement; with `id` present it is a ToplevelElement. */
  class ParentElement {
    const tag: string
    const id: Option<string>
    var root: bool
    var children: seq<Element>

    /** The tag passed the constructor's check, and only a toplevel element is ever root. */
    ghost predicate Valid()
      reads this`root
    {
      IsValidXmlTag(tag) && (id.None? ==> !root)
    }

    /** The element this object currently stands for. */
    function Value(): (e: Element)
      reads this
      ensures e.tag == tag && e.IsParent() && e.children == children
      ensures e.ToplevelEl? <==> id.Some?
      ensures Valid() && (forall c :: c in children ==> ValidTags(c)) ==> ValidTags(e)
    {
      if id.Some? then ToplevelEl(tag, id.value, root, children) else ParentEl(tag, children)
    }

    /** new ParentElement(tag), once the tag is known to be valid. */
    constructor Parent(tag: string)
      requires IsValidXmlTag(tag)
      ensures Valid() && Value() == ParentEl(tag, [])
    {
      this.tag := tag;
      this.id := None;
      this.root := false;
      this.children := [];
    }

    /** new ToplevelElement(tag, id, root), once the tag is known to be valid. */
    constructor Toplevel(tag: string, id: string, root: bool)
      requires IsValidXmlTag(tag)
      ensures Valid() && Value() == ToplevelEl(tag, id, root, [])
    {
      this.tag := tag;
      this.id := Some(id);
      this.root := root;
      this.children := [];
    }

    /** addChild: a null child throws NullPointerException; otherwise it is appended. */
    method AddChild(child: Option<Element>) returns (r: Result<()>)
      requires Valid()
      modifies this`children
      ensures Valid()
      ensures child.None? ==> r == Err(NullPointer) && children == old(children)
      ensures child.Some? ==> r == Ok(()) && children == old(children) + [child.value]
    {
      if child.None? {
        return Err(NullPointer);
      }
      children := children + [child.value];
      r := Ok(());
    }

    /** getChildren: the children added so far, in order. */
    method GetChildren() returns (cs: seq<Element>)
      ensures cs == children
    {
      cs := children;
    }

    /** removeChild: drops the first equal child and reports whether there was one. */
    method RemoveChild(child: Element) returns (removed: bool)
      requires Valid()
      modifies this`children
      ensures Valid()
      ensures removed <==> child in old(children)
      ensures children == RemoveFirst(old(children), child)
    {
      RemoveFirstCount(children, child);
      removed := child in children;
      children := RemoveFirst(children, child);
    }

    /** isRoot */
    method IsRoot() returns (b: bool)
      requires id.Some?
      ensures b == root
    {
      b := root;
    }

    /** setRoot */
    method SetRoot(b: bool)
      requires Valid() && id.Some?
      modifies this`root
      ensures Valid() && root == b
    {
      root := b;
    }

    /** getId */
    method GetId() returns (i: string)
      requires id.Some?
      ensures i == id.value
    {
      i := id.value;
    }

    /**
     * toXmlElement: an element with the tag, each child's DOM element appended
     * in turn, and for a toplevel element the `id` attribute and `root="true"`
     * when it is the root.
     */
    method ToXmlElement() returns (x: XmlElement)
      ensures x == Elements.ToXmlElement(Value())
    {
      var nodes: seq<XmlNode> := [];
      var i := 0;
      while i < |children|
        invariant 0 <= i <= |children|
        invariant nodes == ChildrenToXml(children[..i])
      {
        PrefixToXml(children, i);
        nodes := nodes + [Elements.ToXmlElement(children[i])];
        i := i + 1;
      }
      assert children[..i] == children;
      var attributes: map<string, string> := map[];
      if id.Some? {
        attributes := attributes["id" := id.value];
        if root {
          attributes := attributes["root" := "true"];
        }
      }
      x := Element(tag, attributes, nodes);
    }
  }

  /** One more child converted extends the converted prefix by that child's element. */
  lemma PrefixToXml(cs: seq<Element>, i: nat)
    requires i < |cs|
    ensures ChildrenToXml(cs[..i + 1]) == ChildrenToXml(cs[..i]) + [Elements.ToXmlElement(cs[i])]
  {
    var a := ChildrenToXml(cs[..i + 1]);
    var b := ChildrenToXml(cs[..i]) + [Elements.ToXmlElement(cs[i])];
    assert |a| == |b|;
    forall k | 0 <= k < |a|
      ensures a[k] == b[k]
    {
      if k < i {
        assert cs[..i + 1][k] == cs[..i][k];
      }
    }
  }

  /** ParentElement's constructor: the tag is checked first. */
  method NewParentElement(tag: string) returns (r: Result<ParentElement>)
    ensures r.Ok? <==> IsValidXmlTag(tag)
    ensures r.Ok? ==> fresh(r.value) && r.value.Valid() && r.value.Value() == ParentEl(tag, [])
    ensures r.Err? ==> r.failure == PersistenceFailure(InvalidTagName(tag))
  {
    if !IsValidXmlTag(tag) {
      return Err(PersistenceFailure(InvalidTagName(tag)));
    }
    var p := new ParentElement.Parent(tag);
    r := Ok(p);
  }

  /** ToplevelElement's constructor: the tag is checked first, then a null id throws NullPointerException. */
  method NewToplevelElement(tag: string, id: Option<string>, root: bool) returns (r: Result<ParentElement>)
    ensures r.Ok? <==> IsValidXmlTag(tag) && id.Some?
    ensures r.Ok? ==> fresh(r.value) && r.value.Valid() && r.value.Value() == ToplevelEl(tag, id.value, root, [])
    ensures !IsValidXmlTag(tag) ==> r == Err(PersistenceFailure(InvalidTagName(tag)))
    ensures IsValidXmlTag(tag) && id.None? ==> r == Err(NullPointer)
  {
    if !IsValidXmlTag(tag) {
      return Err(PersistenceFailure(InvalidTagName(tag)));
    }
    if id.None? {
      return Err(NullPointer);
    }
    var p := new ParentElement.Toplevel(tag, id.value, root);
    r := Ok(p);
  }
}
