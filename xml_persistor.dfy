/**
 * XmlPersistor: a persistor for one toplevel root class. toXml turns the
 * object graph reachable from a root object into a "persisted" document
 * whose children are the toplevel elements; fromXml reads those elements
 * back and regenerates the root from the one marked `root`.
 */
module XmlPersistence {
  import opened Failures
  import opened XmlNames
  import opened Dom
  import opened ItemIds
  import opened Descriptors
  import opened PersistenceUtil
  import opened Primitives
  import opened Elements
  import opened ParentElements
  import opened Tables
  import opened PersistEngine
  import opened RegenEngine

  /** The tag of the document element. */
  const ROOT_ELEMENT_NAME: string := "persisted"

  /** The @Persist value the root object is persisted under; its text reference is thrown away. */
  const ROOT_PERSIST_TAG: string := "root-persist-tag-YOU-SHOULD-NOT-SEE-THIS"

  /** Both fixed tags pass the tag check, so neither can make a persist fail. */
  lemma FixedTagsAreValid()
    ensures IsValidXmlTag(ROOT_ELEMENT_NAME) && IsValidXmlTag(ROOT_PERSIST_TAG)
  {
    NameIsValidTag(ROOT_ELEMENT_NAME);
    NameIsValidTag(ROOT_PERSIST_TAG);
  }

  /** An XmlPersistor: the classes it reflects on and its checked root class. */
  datatype XmlPersistor = XmlPersistor(classes: ClassTable, rootClass: string, rootAnnotation: Annotation)
  {
    /** What the constructor establishes: the root class is a well-formed toplevel @Persistable. */
    predicate Valid()
    {
      VerifyAndGetPersistable(classes, rootClass) == Ok(rootAnnotation) && rootAnnotation.toplevel
    }
  }

  /**
   * The XmlPersistor constructor: a null class throws NullPointerException,
   * then the class is verified, then a non-toplevel class is refused.
   */
  function NewXmlPersistor(classes: ClassTable, rootClass: Option<string>): (r: Result<XmlPersistor>)
    ensures rootClass.None? ==> r == Err(NullPointer)
    ensures r.Ok? <==> rootClass.Some? && IsToplevelClass(classes, rootClass.value)
                       && WellFormedPersistable(classes, rootClass.value)
    ensures r.Ok? ==> r.value.Valid() && r.value.classes == classes && r.value.rootClass == rootClass.value
    ensures rootClass.Some? && !WellFormedPersistable(classes, rootClass.value) ==>
              r == Err(VerifyAndGetPersistable(classes, rootClass.value).failure)
    ensures rootClass.Some? && WellFormedPersistable(classes, rootClass.value) && !IsToplevelClass(classes, rootClass.value) ==>
              r == Err(PersistenceFailure(RootNotToplevel(rootClass.value)))
  {
    if rootClass.None? then Err(NullPointer)
    else
      var a :- VerifyAndGetPersistable(classes, rootClass.value);
      if !a.toplevel then Err(PersistenceFailure(RootNotToplevel(rootClass.value)))
      else Ok(XmlPersistor(classes, rootClass.value, a))
  }

  /** A DOM node that is a toplevel element filed under `key`. */
  predicate IsKeyed(n: XmlNode, key: ItemID)
  {
    n.Element? && n.tag == key.name && "id" in n.attributes && n.attributes["id"] == key.id
  }

  /** A DOM node that is an element carrying the `root` attribute. */
  predicate MarkedRoot(n: XmlNode)
  {
    n.Element? && "root" in n.attributes
  }

  /**
   * The children of a persisted document: elements, each with an id, no two
   * under the same (tag, id), and `root` on exactly the one filed under
   * `rootKey`, which is among them.
   */
  predicate DocumentChildren(nodes: seq<XmlNode>, rootKey: ItemID)
  {
    (forall k :: 0 <= k < |nodes| ==> nodes[k].Element? && "id" in nodes[k].attributes)
    && (forall j, k :: 0 <= j < k < |nodes| ==> !IsKeyed(nodes[k], ItemID(nodes[j].tag, nodes[j].attributes["id"])))
    && (forall k :: 0 <= k < |nodes| ==> (MarkedRoot(nodes[k]) <==> IsKeyed(nodes[k], rootKey)))
    && exists k :: 0 <= k < |nodes| && IsKeyed(nodes[k], rootKey)
  }

  /** setRoot(true) on a toplevel element, as a value. */
  function MarkRoot(e: Element): (m: Element)
    ensures e.ToplevelEl? ==> m == e.(root := true)
  {
    if e.ToplevelEl? then e.(root := true) else e
  }

  /**
   * What toXml publishes, as values: the toplevel elements filed while
   * persisting the root under the fixed tag, by key, with the root's own
   * element marked root. getElement returning null would make setRoot throw
   * NullPointerException; the cast of the root's element to a TextElement
   * fails with ClassCastException, modelled as an illegal state.
   */
  function ToXmlF(p: XmlPersistor, heap: Heap, root: Ref, fuel: nat): (r: Result<map<ItemID, Element>>)
    ensures r.Ok? ==> WellKeyed(r.value)
  {
    var out :- PersistObjectF(p.classes, heap, p.rootClass, ROOT_PERSIST_TAG, RefV(root), fuel, PState({}, map[]));
    if !out.element.TextEl? then Err(IllegalState)
    else
      var key := ItemID(p.rootAnnotation.tag, out.element.text);
      if key !in out.filed then Err(NullPointer)
      else Ok(out.filed[key := MarkRoot(out.filed[key])])
  }

  /** The (tag, id) key of a toplevel element's DOM element. */
  function NodeKey(n: XmlNode): (k: ItemID)
    requires n.Element? && "id" in n.attributes
    ensures IsKeyed(n, k)
  {
    ItemID(n.tag, n.attributes["id"])
  }

  /**
   * The children of the document are the DOM elements of the given toplevel
   * elements: each element's DOM element is among them, and each of them is
   * the DOM element of the element filed under its own tag and id.
   */
  predicate DocumentOf(nodes: seq<XmlNode>, m: map<ItemID, Element>)
  {
    (forall k :: k in m ==> Elements.ToXmlElement(m[k]) in nodes)
    && forall j :: 0 <= j < |nodes| ==>
         nodes[j].Element? && "id" in nodes[j].attributes && NodeKey(nodes[j]) in m
         && nodes[j] == Elements.ToXmlElement(m[NodeKey(nodes[j])])
  }

  /**
   * toXml: a null root throws NullPointerException; otherwise the root is
   * persisted under the fixed tag, its toplevel element is marked root, and
   * every toplevel element of the list becomes a child of the document
   * element, once.
   */
  method ToXml(p: XmlPersistor, heap: Heap, root: Option<Ref>, fuel: nat) returns (r: Result<XmlElement>)
    requires p.Valid()
    ensures root.None? ==> r == Err(NullPointer)
    ensures root.Some? ==> (r.Ok? <==> ToXmlF(p, heap, root.value, fuel).Ok?)
    ensures root.Some? && r.Err? ==> r.failure == ToXmlF(p, heap, root.value, fuel).failure
    ensures r.Ok? ==> root.Some? && r.value.tag == ROOT_ELEMENT_NAME && r.value.attributes == map[]
                      && DocumentOf(r.value.children, ToXmlF(p, heap, root.value, fuel).value)
    ensures r.Ok? ==> KeyOf(p.classes, heap, p.rootClass, root.value).Ok?
                      && DocumentChildren(r.value.children, KeyOf(p.classes, heap, p.rootClass, root.value).value)
  {
    if root.None? {
      return Err(NullPointer);
    }
    var published, list, key := PublishRoot(p, heap, root.value, fuel);
    if published.Err? {
      return Err(published.failure);
    }
    var document := Assemble(list, published.value, key, ToXmlF(p, heap, root.value, fuel).value);
    r := Ok(document);
  }

  /**
   * toXml up to the document: the root persisted under the fixed tag, then
   * its toplevel element (found through the cast text element's id) marked
   * root. The list then holds exactly what toXml publishes.
   */
  method PublishRoot(p: XmlPersistor, heap: Heap, root: Ref, fuel: nat)
    returns (r: Result<ParentElement>, list: ToplevelList, ghost key: ItemID)
    requires p.Valid()
    ensures (r.Ok? <==> ToXmlF(p, heap, root, fuel).Ok?) && (r.Err? ==> r.failure == ToXmlF(p, heap, root, fuel).failure)
    ensures r.Ok? ==> KeyOf(p.classes, heap, p.rootClass, root) == Ok(key)
    ensures r.Ok? ==> list.Valid() && key in list.entries && list.entries[key] == r.value && r.value.root
                      && (forall e :: e in list.entries.Values && e != r.value ==> !e.root)
                      && list.Contents() == ToXmlF(p, heap, root, fuel).value
  {
    var persisted;
    persisted, list := PersistRoot(p, heap, root, fuel);
    if persisted.Err? {
      return Err(persisted.failure), list, ItemID("", "");
    }
    RootPersisted(p, heap, root, fuel);
    ghost var filed := PersistObjectF(p.classes, heap, p.rootClass, ROOT_PERSIST_TAG, RefV(root), fuel, PState({}, map[])).value.filed;
    key := KeyOf(p.classes, heap, p.rootClass, root).value;
    var rootElement := list.GetElement(p.rootAnnotation.tag, persisted.value.text);
    assert rootElement in list.entries.Values;
    MarkRootEntry(list, rootElement, key, filed);
    r := Ok(rootElement);
  }

  /** setRoot(true) on the root's element, filed in the list under `key`: the list then holds `filed` with that one element marked root. */
  method MarkRootEntry(list: ToplevelList, rootElement: ParentElement, ghost key: ItemID, ghost filed: map<ItemID, Element>)
    requires list.Valid() && key in list.entries && list.entries[key] == rootElement && list.Contents() == filed
    requires forall e :: e in list.entries.Values ==> e.Valid() && !e.root
    modifies rootElement`root
    ensures list.Valid() && list.entries == old(list.entries) && rootElement.root
    ensures forall e :: e in list.entries.Values && e != rootElement ==> !e.root
    ensures list.Contents() == filed[key := MarkRoot(filed[key])]
  {
    rootElement.SetRoot(true);
    MarkedIsPublished(list, key, filed, filed[key := MarkRoot(filed[key])]);
  }

  /** The persisting half of toXml: a new persisting state, and the root persisted into it under the fixed tag. */
  method PersistRoot(p: XmlPersistor, heap: Heap, root: Ref, fuel: nat) returns (r: Result<Element>, list: ToplevelList)
    requires p.Valid()
    ensures fresh(list) && forall e :: e in list.entries.Values ==> fresh(e)
    ensures var f := PersistObjectF(p.classes, heap, p.rootClass, ROOT_PERSIST_TAG, RefV(root), fuel, PState({}, map[]));
            (r.Ok? <==> f.Ok?) && (r.Err? ==> r.failure == f.failure)
            && (r.Ok? ==> r.value == f.value.element && list.Valid() && list.Contents() == f.value.filed
                          && forall e :: e in list.entries.Values ==> e.Valid() && !e.root)
  {
    var state := new Persisting(p.classes, heap);
    list := state.list;
    assert state.Now() == PState({}, map[]);
    r := state.PersistObject(p.rootClass, ROOT_PERSIST_TAG, RefV(root), fuel);
    if r.Ok? {
      FiledIsContents(list, PersistObjectF(p.classes, heap, p.rootClass, ROOT_PERSIST_TAG, RefV(root), fuel, PState({}, map[])).value.filed);
    }
  }

  /**
   * When the root persists, its own toplevel element is filed under its key,
   * not yet root, and the text element standing in for it holds its id; what
   * toXml publishes is what was filed with that element marked root.
   */
  lemma RootPersisted(p: XmlPersistor, heap: Heap, root: Ref, fuel: nat)
    requires p.Valid()
    requires PersistObjectF(p.classes, heap, p.rootClass, ROOT_PERSIST_TAG, RefV(root), fuel, PState({}, map[])).Ok?
    ensures var out := PersistObjectF(p.classes, heap, p.rootClass, ROOT_PERSIST_TAG, RefV(root), fuel, PState({}, map[])).value;
            KeyOf(p.classes, heap, p.rootClass, root).Ok?
            && var key := KeyOf(p.classes, heap, p.rootClass, root).value;
               out.element == TextEl(ROOT_PERSIST_TAG, key.id) && key.name == p.rootAnnotation.tag
               && key in out.filed && out.filed[key].ToplevelEl? && !out.filed[key].root
               && ToXmlF(p, heap, root, fuel) == Ok(out.filed[key := out.filed[key].(root := true)])
  {
    PersistObjectShape(p.classes, heap, p.rootClass, ROOT_PERSIST_TAG, RefV(root), fuel, PState({}, map[]));
  }

  /** A list that started empty holds exactly what was filed. */
  lemma FiledIsContents(list: ToplevelList, filed: map<ItemID, Element>)
    requires list.entries.Keys == filed.Keys
    requires forall k :: k in filed ==> list.entries[k].Value() == filed[k]
    ensures list.Contents() == filed
  {
  }

  /** Once the root's element is marked, the list holds what toXml publishes. */
  lemma MarkedIsPublished(list: ToplevelList, key: ItemID, filed: map<ItemID, Element>, published: map<ItemID, Element>)
    requires list.Valid() && key in list.entries && list.entries[key].root
    requires filed.Keys == list.entries.Keys && key in filed && filed[key].ToplevelEl?
    requires forall k :: k in filed && k != key ==> list.entries[k].Value() == filed[k]
    requires list.entries[key].Value() == filed[key].(root := true)
    requires published == filed[key := MarkRoot(filed[key])]
    ensures list.Contents() == published
  {
  }

  /**
   * The end of toXml: each toplevel element's DOM element is appended, in the
   * collection's order, to a new document element.
   */
  method Assemble(list: ToplevelList, rootElement: ParentElement, ghost key: ItemID, ghost contents: map<ItemID, Element>)
    returns (document: XmlElement)
    requires list.Valid() && key in list.entries && list.entries[key] == rootElement && contents == list.Contents()
    requires rootElement.root && forall e :: e in list.entries.Values && e != rootElement ==> !e.root
    ensures document.tag == ROOT_ELEMENT_NAME && document.attributes == map[]
    ensures DocumentOf(document.children, contents)
    ensures DocumentChildren(document.children, key)
  {
    var nodes, done := EntryElements(list);
    DocumentOfEntries(list, rootElement, key, done, nodes);
    EntriesDocument(list, contents, done, nodes);
    document := Element(ROOT_ELEMENT_NAME, map[], nodes);
  }

  /** Each of `entries`' elements appears in `done` exactly once, and `nodes` runs alongside `done`. */
  ghost predicate EachOnce(entries: map<ItemID, ParentElement>, done: seq<ParentElement>, nodes: seq<XmlNode>)
  {
    |nodes| == |done|
    && (forall e :: e in entries.Values ==> e in done)
    && (forall j :: 0 <= j < |done| ==> done[j] in entries.Values)
    && (forall j, k :: 0 <= j < k < |done| ==> done[j] != done[k])
  }

  /** The loop of toXml over getAsCollection: each toplevel element, once, turned into its DOM element. */
  method EntryElements(list: ToplevelList) returns (nodes: seq<XmlNode>, ghost done: seq<ParentElement>)
    ensures EachOnce(list.entries, done, nodes)
    ensures forall j :: 0 <= j < |done| ==> nodes[j] == Elements.ToXmlElement(done[j].Value())
  {
    var remaining := list.GetAsCollection();
    nodes, done := [], [];
    while remaining != {}
      invariant Enumerating(list.entries.Values, remaining, done)
      invariant |nodes| == |done|
      invariant forall j :: 0 <= j < |done| ==> nodes[j] == Elements.ToXmlElement(done[j].Value())
      decreases remaining
    {
      var e :| e in remaining;
      EnumerateOne(list.entries.Values, remaining, done, e);
      var x := e.ToXmlElement();
      nodes := nodes + [x];
      done := done + [e];
      remaining := remaining - {e};
    }
  }

  /** Enumerating every entry once gives the DOM elements of exactly the list's contents. */
  lemma EntriesDocument(list: ToplevelList, contents: map<ItemID, Element>, done: seq<ParentElement>, nodes: seq<XmlNode>)
    requires list.Valid() && contents == list.Contents() && EachOnce(list.entries, done, nodes)
    requires forall j :: 0 <= j < |done| ==> nodes[j] == Elements.ToXmlElement(done[j].Value())
    ensures DocumentOf(nodes, contents)
  {
    forall k | k in contents
      ensures Elements.ToXmlElement(contents[k]) in nodes
    {
      assert list.entries[k] in list.entries.Values;
      var j :| 0 <= j < |done| && done[j] == list.entries[k];
      assert nodes[j] == Elements.ToXmlElement(contents[k]);
    }
    forall j | 0 <= j < |nodes|
      ensures nodes[j].Element? && "id" in nodes[j].attributes && NodeKey(nodes[j]) in contents
      ensures nodes[j] == Elements.ToXmlElement(contents[NodeKey(nodes[j])])
    {
      NodeOfEntry(list, contents, done[j], nodes[j]);
    }
  }

  /** The DOM element of a filed entry carries the key the entry is filed under. */
  lemma NodeOfEntry(list: ToplevelList, contents: map<ItemID, Element>, e: ParentElement, node: XmlNode)
    requires list.Valid() && contents == list.Contents()
    requires e in list.entries.Values && node == Elements.ToXmlElement(e.Value())
    ensures node.Element? && "id" in node.attributes && NodeKey(node) in contents
    ensures node == Elements.ToXmlElement(contents[NodeKey(node)])
  {
    var k :| k in list.entries && list.entries[k] == e;
    ToXmlShape(e.Value());
    assert NodeKey(node) == k;
  }

  /**
   * Partway through iterating over the set `all`: the elements `done` came
   * out in order, each once, and `remaining` is the rest.
   */
  ghost predicate Enumerating(all: set<ParentElement>, remaining: set<ParentElement>, done: seq<ParentElement>)
  {
    remaining <= all
    && (forall e :: e in all ==> e in remaining || e in done)
    && (forall j :: 0 <= j < |done| ==> done[j] in all && done[j] !in remaining)
    && (forall j, k :: 0 <= j < k < |done| ==> done[j] != done[k])
  }

  lemma EnumerateOne(all: set<ParentElement>, remaining: set<ParentElement>, done: seq<ParentElement>, e: ParentElement)
    requires Enumerating(all, remaining, done) && e in remaining
    ensures Enumerating(all, remaining - {e}, done + [e])
  {
  }

  /** The DOM elements of all the toplevel elements, each once, make a well-formed document body. */
  lemma DocumentOfEntries(list: ToplevelList, rootElement: ParentElement, key: ItemID,
                          done: seq<ParentElement>, nodes: seq<XmlNode>)
    requires list.Valid() && key in list.entries && list.entries[key] == rootElement
    requires rootElement.root && forall e :: e in list.entries.Values && e != rootElement ==> !e.root
    requires EachOnce(list.entries, done, nodes)
    requires forall j :: 0 <= j < |done| ==> nodes[j] == Elements.ToXmlElement(done[j].Value())
    ensures DocumentChildren(nodes, key)
  {
    var entries := list.entries;
    forall j | 0 <= j < |done|
      ensures done[j].id.Some? && entries[ItemID(done[j].tag, done[j].id.value)] == done[j]
      ensures IsKeyed(nodes[j], ItemID(done[j].tag, done[j].id.value))
      ensures MarkedRoot(nodes[j]) <==> done[j] == rootElement
    {
      var k :| k in entries && entries[k] == done[j];
      ToXmlShape(done[j].Value());
    }
    forall j, k | 0 <= j < k < |nodes|
      ensures !IsKeyed(nodes[k], ItemID(nodes[j].tag, nodes[j].attributes["id"]))
    {
      assert done[j] != done[k];
    }
    forall k | 0 <= k < |nodes|
      ensures MarkedRoot(nodes[k]) <==> IsKeyed(nodes[k], key)
    {
      if IsKeyed(nodes[k], key) {
        assert ItemID(done[k].tag, done[k].id.value) == key;
      }
    }
    assert rootElement in entries.Values;
    var i :| 0 <= i < |done| && done[i] == rootElement;
    assert IsKeyed(nodes[i], key);
  }

  /** fromXml rethrows every PersistenceException as a RegenerationException with the same message. */
  function AsRegeneration(f: Failure): (g: Failure)
    ensures !g.PersistenceFailure?
  {
    if f.PersistenceFailure? then RegenerationFailure(f.cause) else f
  }

  // ---- fromXml as values ----

  /** Loading the document's children: the toplevel elements filed so far, by key, and the root found so far. */
  datatype Loading = Loading(toplevels: map<ItemID, Element>, root: Option<Element>)

  /** ToplevelElement.fromXmlElement as fromXml sees it: its PersistenceExceptions come out as RegenerationExceptions. */
  function ParseToplevel(x: XmlElement, parseChildren: XmlElement -> Result<seq<Element>>): (r: Result<Element>)
    ensures r.Ok? ==> r == ToplevelFromXml(x, parseChildren)
    ensures r.Err? ==> ToplevelFromXml(x, parseChildren).Err? && r.failure == AsRegeneration(ToplevelFromXml(x, parseChildren).failure)
  {
    match ToplevelFromXml(x, parseChildren)
    case Ok(t) => Ok(t)
    case Err(f) => Err(AsRegeneration(f))
  }

  /**
   * The loading loop of fromXml from child `i` on: a node that is not an
   * element is skipped; an element is parsed as a toplevel element and filed
   * under its (tag, id); a second root fails at once.
   */
  function LoadF(children: seq<XmlNode>, parseChildren: XmlElement -> Result<seq<Element>>, i: nat, acc: Loading)
    : (r: Result<Loading>)
    requires i <= |children|
    ensures WellKeyed(acc.toplevels) && r.Ok? ==> WellKeyed(r.value.toplevels)
    ensures r.Err? ==> !r.failure.PersistenceFailure?
    decreases |children| - i
  {
    if i == |children| then Ok(acc)
    else if !children[i].Element? then LoadF(children, parseChildren, i + 1, acc)
    else
      var t :- ParseToplevel(children[i], parseChildren);
      if t.root && acc.root.Some? then Err(RegenerationFailure(MultipleRoots))
      else
        LoadF(children, parseChildren, i + 1,
              Loading(acc.toplevels[ItemID(t.tag, t.id) := t], if t.root then Some(t) else acc.root))
  }

  /** All of the loading, then the check that a root was found. */
  function LoadToplevelsF(children: seq<XmlNode>, parseChildren: XmlElement -> Result<seq<Element>>): (r: Result<Loading>)
    ensures r.Ok? ==> WellKeyed(r.value.toplevels) && r.value.root.Some?
    ensures r.Err? ==> !r.failure.PersistenceFailure?
  {
    var loaded :- LoadF(children, parseChildren, 0, Loading(map[], None));
    if loaded.root.None? then Err(RegenerationFailure(NoRoot)) else Ok(loaded)
  }

  /** A child node that fromXml can read: anything but an element is skipped, an element must parse as a toplevel element. */
  predicate Parses(n: XmlNode, parseChildren: XmlElement -> Result<seq<Element>>)
  {
    n.Element? ==> ToplevelFromXml(n, parseChildren).Ok?
  }

  /**
   * A load that succeeds read every element child, met at most one root
   * (none at all when one was already found), and kept the root it met.
   */
  lemma {:induction false} LoadOkRoots(children: seq<XmlNode>, parseChildren: XmlElement -> Result<seq<Element>>, i: nat, acc: Loading)
    requires i <= |children| && LoadF(children, parseChildren, i, acc).Ok?
    ensures forall k :: i <= k < |children| ==> Parses(children[k], parseChildren)
    ensures forall j, k :: i <= j < k < |children| && MarkedRoot(children[j]) ==> !MarkedRoot(children[k])
    ensures acc.root.Some? ==> (forall k :: i <= k < |children| ==> !MarkedRoot(children[k]))
                               && LoadF(children, parseChildren, i, acc).value.root == acc.root
    ensures forall k :: i <= k < |children| && MarkedRoot(children[k]) ==>
              ToplevelFromXml(children[k], parseChildren).Ok?
              && LoadF(children, parseChildren, i, acc).value.root == Some(ToplevelFromXml(children[k], parseChildren).value)
    ensures acc.root.None? && (forall k :: i <= k < |children| ==> !MarkedRoot(children[k])) ==>
              LoadF(children, parseChildren, i, acc).value.root.None?
    decreases |children| - i
  {
    if i < |children| {
      if !children[i].Element? {
        LoadOkRoots(children, parseChildren, i + 1, acc);
      } else {
        var t := ToplevelFromXml(children[i], parseChildren).value;
        LoadOkRoots(children, parseChildren, i + 1,
                    Loading(acc.toplevels[ItemID(t.tag, t.id) := t], if t.root then Some(t) else acc.root));
      }
    }
  }

  /** A load that succeeds filed every element child under its (tag, id), kept what was filed before, and filed nothing else. */
  lemma {:induction false} LoadOkKeys(children: seq<XmlNode>, parseChildren: XmlElement -> Result<seq<Element>>, i: nat, acc: Loading)
    requires i <= |children| && LoadF(children, parseChildren, i, acc).Ok?
    ensures var out := LoadF(children, parseChildren, i, acc).value.toplevels;
            (forall k, key :: i <= k < |children| && IsKeyed(children[k], key) ==> key in out)
            && (forall key :: key in acc.toplevels ==> key in out)
            && (forall key :: key in out ==> key in acc.toplevels || exists k :: i <= k < |children| && IsKeyed(children[k], key))
    decreases |children| - i
  {
    if i < |children| {
      if !children[i].Element? {
        LoadOkKeys(children, parseChildren, i + 1, acc);
      } else {
        var t := ToplevelFromXml(children[i], parseChildren).value;
        var next := Loading(acc.toplevels[ItemID(t.tag, t.id) := t], if t.root then Some(t) else acc.root);
        LoadOkKeys(children, parseChildren, i + 1, next);
        assert IsKeyed(children[i], ItemID(t.tag, t.id));
      }
    }
  }

  /** An entry filed before the load keeps its element unless some child later carries the same key. */
  lemma {:induction false} LoadOkKeeps(children: seq<XmlNode>, parseChildren: XmlElement -> Result<seq<Element>>, i: nat, acc: Loading,
                                      key: ItemID)
    requires i <= |children| && LoadF(children, parseChildren, i, acc).Ok?
    requires key in acc.toplevels && forall k :: i <= k < |children| ==> !IsKeyed(children[k], key)
    ensures key in LoadF(children, parseChildren, i, acc).value.toplevels
    ensures LoadF(children, parseChildren, i, acc).value.toplevels[key] == acc.toplevels[key]
    decreases |children| - i
  {
    if i < |children| {
      if !children[i].Element? {
        LoadOkKeeps(children, parseChildren, i + 1, acc, key);
      } else {
        var t := ToplevelFromXml(children[i], parseChildren).value;
        assert IsKeyed(children[i], ItemID(t.tag, t.id));
        LoadOkKeeps(children, parseChildren, i + 1,
                    Loading(acc.toplevels[ItemID(t.tag, t.id) := t], if t.root then Some(t) else acc.root), key);
      }
    }
  }

  /** Of the children carrying one key, the last one is what the load files under it. */
  lemma {:induction false} LoadOkLastWins(children: seq<XmlNode>, parseChildren: XmlElement -> Result<seq<Element>>, i: nat, acc: Loading,
                                         k: nat, key: ItemID)
    requires i <= k < |children| && LoadF(children, parseChildren, i, acc).Ok?
    requires IsKeyed(children[k], key) && forall j :: k < j < |children| ==> !IsKeyed(children[j], key)
    ensures ToplevelFromXml(children[k], parseChildren).Ok?
    ensures key in LoadF(children, parseChildren, i, acc).value.toplevels
    ensures LoadF(children, parseChildren, i, acc).value.toplevels[key] == ToplevelFromXml(children[k], parseChildren).value
    decreases |children| - i
  {
    LoadOkRoots(children, parseChildren, i, acc);
    if !children[i].Element? {
      LoadOkLastWins(children, parseChildren, i + 1, acc, k, key);
    } else {
      var t := ToplevelFromXml(children[i], parseChildren).value;
      var next := Loading(acc.toplevels[ItemID(t.tag, t.id) := t], if t.root then Some(t) else acc.root);
      if k == i {
        assert key == ItemID(t.tag, t.id);
        LoadOkKeeps(children, parseChildren, i + 1, next, key);
      } else {
        LoadOkLastWins(children, parseChildren, i + 1, next, k, key);
      }
    }
  }

  /** When every element child parses and at most one root is met (none when one was already found), the load succeeds. */
  lemma {:induction false} LoadSucceeds(children: seq<XmlNode>, parseChildren: XmlElement -> Result<seq<Element>>, i: nat, acc: Loading)
    requires i <= |children|
    requires forall k :: i <= k < |children| ==> Parses(children[k], parseChildren)
    requires forall j, k :: i <= j < k < |children| && MarkedRoot(children[j]) ==> !MarkedRoot(children[k])
    requires acc.root.Some? ==> forall k :: i <= k < |children| ==> !MarkedRoot(children[k])
    ensures LoadF(children, parseChildren, i, acc).Ok?
    decreases |children| - i
  {
    if i < |children| {
      if !children[i].Element? {
        LoadSucceeds(children, parseChildren, i + 1, acc);
      } else {
        var t := ToplevelFromXml(children[i], parseChildren).value;
        LoadSucceeds(children, parseChildren, i + 1,
                     Loading(acc.toplevels[ItemID(t.tag, t.id) := t], if t.root then Some(t) else acc.root));
      }
    }
  }

  /** A second root that is reached (every element child up to it parses) fails the load with MultipleRoots. */
  lemma {:induction false} LoadMultipleRoots(children: seq<XmlNode>, parseChildren: XmlElement -> Result<seq<Element>>,
                                            i: nat, acc: Loading, k: nat)
    requires i <= k < |children| && MarkedRoot(children[k])
    requires forall m :: i <= m <= k ==> Parses(children[m], parseChildren)
    requires acc.root.Some? || exists j :: i <= j < k && MarkedRoot(children[j])
    ensures LoadF(children, parseChildren, i, acc) == Err(RegenerationFailure(MultipleRoots))
    decreases |children| - i
  {
    if !children[i].Element? {
      LoadMultipleRoots(children, parseChildren, i + 1, acc, k);
    } else {
      var t := ToplevelFromXml(children[i], parseChildren).value;
      if !(t.root && acc.root.Some?) {
        LoadMultipleRoots(children, parseChildren, i + 1,
                          Loading(acc.toplevels[ItemID(t.tag, t.id) := t], if t.root then Some(t) else acc.root), k);
      }
    }
  }

  /** An element child that does not parse, reached before any second root, fails the load with its own failure. */
  lemma {:induction false} LoadParseFailure(children: seq<XmlNode>, parseChildren: XmlElement -> Result<seq<Element>>,
                                           i: nat, acc: Loading, k: nat)
    requires i <= k < |children| && children[k].Element? && ToplevelFromXml(children[k], parseChildren).Err?
    requires forall m :: i <= m < k ==> Parses(children[m], parseChildren)
    requires forall j, m :: i <= j < m < k && MarkedRoot(children[j]) ==> !MarkedRoot(children[m])
    requires acc.root.Some? ==> forall m :: i <= m < k ==> !MarkedRoot(children[m])
    ensures LoadF(children, parseChildren, i, acc) == Err(AsRegeneration(ToplevelFromXml(children[k], parseChildren).failure))
    decreases |children| - i
  {
    if i < k {
      if !children[i].Element? {
        LoadParseFailure(children, parseChildren, i + 1, acc, k);
      } else {
        var t := ToplevelFromXml(children[i], parseChildren).value;
        LoadParseFailure(children, parseChildren, i + 1,
                         Loading(acc.toplevels[ItemID(t.tag, t.id) := t], if t.root then Some(t) else acc.root), k);
      }
    }
  }

  /** Exactly one child of the document is marked root. */
  predicate OneRoot(children: seq<XmlNode>)
  {
    (exists k :: 0 <= k < |children| && MarkedRoot(children[k]))
    && forall j, k :: 0 <= j < k < |children| && MarkedRoot(children[j]) ==> !MarkedRoot(children[k])
  }

  /**
   * Loading succeeds exactly when every element child parses as a toplevel
   * element and exactly one is marked root; the root found is that child.
   */
  lemma LoadToplevelsSucceedsIff(children: seq<XmlNode>, parseChildren: XmlElement -> Result<seq<Element>>)
    ensures LoadToplevelsF(children, parseChildren).Ok? <==>
              (forall k :: 0 <= k < |children| ==> Parses(children[k], parseChildren)) && OneRoot(children)
    ensures forall k :: 0 <= k < |children| && MarkedRoot(children[k]) && LoadToplevelsF(children, parseChildren).Ok? ==>
              ToplevelFromXml(children[k], parseChildren).Ok?
              && LoadToplevelsF(children, parseChildren).value.root == Some(ToplevelFromXml(children[k], parseChildren).value)
  {
    var start := Loading(map[], None);
    if LoadF(children, parseChildren, 0, start).Ok? {
      LoadOkRoots(children, parseChildren, 0, start);
    }
    if (forall k :: 0 <= k < |children| ==> Parses(children[k], parseChildren)) && OneRoot(children) {
      LoadSucceeds(children, parseChildren, 0, start);
      LoadOkRoots(children, parseChildren, 0, start);
    }
  }

  /** After a successful load the toplevel list holds every element child under its (tag, id) and nothing else. */
  lemma LoadToplevelsFiles(children: seq<XmlNode>, parseChildren: XmlElement -> Result<seq<Element>>)
    requires LoadToplevelsF(children, parseChildren).Ok?
    ensures forall key :: key in LoadToplevelsF(children, parseChildren).value.toplevels <==>
              exists k :: 0 <= k < |children| && IsKeyed(children[k], key)
  {
    LoadOkKeys(children, parseChildren, 0, Loading(map[], None));
  }

  /** Of two element children with the same key, the later one is what the toplevel list holds. */
  lemma LoadToplevelsLastWins(children: seq<XmlNode>, parseChildren: XmlElement -> Result<seq<Element>>, k: nat, key: ItemID)
    requires LoadToplevelsF(children, parseChildren).Ok?
    requires k < |children| && IsKeyed(children[k], key)
    requires forall j :: k < j < |children| ==> !IsKeyed(children[j], key)
    ensures ToplevelFromXml(children[k], parseChildren).Ok?
    ensures key in LoadToplevelsF(children, parseChildren).value.toplevels
    ensures LoadToplevelsF(children, parseChildren).value.toplevels[key] == ToplevelFromXml(children[k], parseChildren).value
  {
    LoadOkLastWins(children, parseChildren, 0, Loading(map[], None), k, key);
  }

  /** With every element child readable and none marked root, loading fails with "No root toplevel node". */
  lemma LoadToplevelsNoRoot(children: seq<XmlNode>, parseChildren: XmlElement -> Result<seq<Element>>)
    requires forall k :: 0 <= k < |children| ==> Parses(children[k], parseChildren)
    requires forall k :: 0 <= k < |children| ==> !MarkedRoot(children[k])
    ensures LoadToplevelsF(children, parseChildren) == Err(RegenerationFailure(NoRoot))
  {
    var start := Loading(map[], None);
    LoadSucceeds(children, parseChildren, 0, start);
    LoadOkRoots(children, parseChildren, 0, start);
  }

  /** Two children marked root, every element child up to the second readable: "Multiple toplevel nodes marked `root`". */
  lemma LoadToplevelsMultipleRoots(children: seq<XmlNode>, parseChildren: XmlElement -> Result<seq<Element>>, j: nat, k: nat)
    requires j < k < |children| && MarkedRoot(children[j]) && MarkedRoot(children[k])
    requires forall m :: 0 <= m <= k ==> Parses(children[m], parseChildren)
    ensures LoadToplevelsF(children, parseChildren) == Err(RegenerationFailure(MultipleRoots))
  {
    LoadMultipleRoots(children, parseChildren, 0, Loading(map[], None), k);
  }

  /**
   * The first element child that does not parse as a toplevel element (a
   * missing id, an invalid tag, children that do not parse) fails loading
   * with its own failure, as a RegenerationException, unless a second root
   * came before it.
   */
  lemma LoadToplevelsParseFailure(children: seq<XmlNode>, parseChildren: XmlElement -> Result<seq<Element>>, k: nat)
    requires k < |children| && children[k].Element? && ToplevelFromXml(children[k], parseChildren).Err?
    requires forall m :: 0 <= m < k ==> Parses(children[m], parseChildren)
    requires forall j, m :: 0 <= j < m < k && MarkedRoot(children[j]) ==> !MarkedRoot(children[m])
    ensures LoadToplevelsF(children, parseChildren) == Err(AsRegeneration(ToplevelFromXml(children[k], parseChildren).failure))
  {
    LoadParseFailure(children, parseChildren, 0, Loading(map[], None), k);
  }

  /** What fromXml hands back: the root object, the objects regenerated, and the keys of toplevel elements never regenerated. */
  datatype Restored = Restored(root: Value, objects: seq<Obj>, unused: set<ItemID>)

  /**
   * fromXml as a value: a null document throws NullPointerException; the
   * toplevel elements are loaded and the root found; the root is
   * regenerated with the root class from an empty registry; every
   * PersistenceException comes out as a RegenerationException.
   */
  function FromXmlF(p: XmlPersistor, doc: Option<XmlElement>, parseChildren: XmlElement -> Result<seq<Element>>, fuel: nat)
    : (r: Result<Restored>)
    ensures r.Err? ==> !r.failure.PersistenceFailure?
  {
    if doc.None? then Err(NullPointer)
    else
      var loaded :- LoadToplevelsF(doc.value.children, parseChildren);
      var out := RegenObjectF(p.classes, loaded.toplevels, p.rootClass, loaded.root.value, fuel, RState([], map[]));
      if out.Err? then Err(AsRegeneration(out.failure))
      else Ok(Restored(out.value.value, out.value.state.arena, loaded.toplevels.Keys - out.value.state.registry.Keys))
  }

  /**
   * What a successful fromXml means: the document has exactly one root and
   * every element child reads as a toplevel element; the root object is the
   * first object regenerated, of the root class, holding the root element's
   * id read back as its id field's type (unless a @Persist field of that
   * name overwrites it); the root element counts as used, and only keys of
   * the document's children can be reported unused.
   */
  lemma FromXmlSucceeds(p: XmlPersistor, doc: Option<XmlElement>, parseChildren: XmlElement -> Result<seq<Element>>, fuel: nat)
    requires p.Valid() && FromXmlF(p, doc, parseChildren, fuel).Ok?
    ensures doc.Some? && OneRoot(doc.value.children)
    ensures forall k :: 0 <= k < |doc.value.children| ==> Parses(doc.value.children[k], parseChildren)
    ensures var out := FromXmlF(p, doc, parseChildren, fuel).value;
            out.root == RefV(0) && |out.objects| > 0 && out.objects[0].cls == p.rootClass
    ensures var out := FromXmlF(p, doc, parseChildren, fuel).value;
            forall k, key :: (0 <= k < |doc.value.children| && MarkedRoot(doc.value.children[k])
                              && IsKeyed(doc.value.children[k], key)) ==> key !in out.unused
    ensures var out := FromXmlF(p, doc, parseChildren, fuel).value;
            forall key :: key in out.unused ==> exists k :: 0 <= k < |doc.value.children| && IsKeyed(doc.value.children[k], key)
    ensures (forall f :: f in FieldsToPersist(p.classes, p.rootClass) ==> f.name != p.rootAnnotation.idField) ==>
              var out := FromXmlF(p, doc, parseChildren, fuel).value;
              forall k, key :: (0 <= k < |doc.value.children| && MarkedRoot(doc.value.children[k])
                                && IsKeyed(doc.value.children[k], key)) ==>
                ConformIdTo(IdField(p.classes, p.rootClass, p.rootAnnotation).kind, key.id).Ok?
                && p.rootAnnotation.idField in out.objects[0].fields
                && out.objects[0].fields[p.rootAnnotation.idField]
                   == ConformIdTo(IdField(p.classes, p.rootClass, p.rootAnnotation).kind, key.id).value
  {
    var children := doc.value.children;
    var loaded := LoadToplevelsF(children, parseChildren).value;
    LoadToplevelsSucceedsIff(children, parseChildren);
    LoadToplevelsFiles(children, parseChildren);
    var root := loaded.root.value;
    var k0 :| 0 <= k0 < |children| && MarkedRoot(children[k0]);
    assert root == ToplevelFromXml(children[k0], parseChildren).value;
    var s0 := RState([], map[]);
    assert RegenObjectF(p.classes, loaded.toplevels, p.rootClass, root, fuel, s0)
           == RegenToplevelF(p.classes, loaded.toplevels, p.rootClass, p.rootAnnotation, root.tag, root.id, root.children, fuel, s0);
    forall k | 0 <= k < |children| && MarkedRoot(children[k])
      ensures k == k0
    {
    }
    if forall f :: f in FieldsToPersist(p.classes, p.rootClass) ==> f.name != p.rootAnnotation.idField {
      ToplevelIdField(p.classes, loaded.toplevels, p.rootClass, p.rootAnnotation, root.tag, root.id, root.children, fuel, s0);
    }
  }

  /**
   * How fromXml fails before any object is made: a null document; no child
   * marked root; two marked root; an element child that does not read as a
   * toplevel element, met before any second root.
   */
  lemma FromXmlLoadFailures(p: XmlPersistor, doc: Option<XmlElement>, parseChildren: XmlElement -> Result<seq<Element>>, fuel: nat)
    ensures doc.None? ==> FromXmlF(p, doc, parseChildren, fuel) == Err(NullPointer)
    ensures (doc.Some? && (forall k :: 0 <= k < |doc.value.children| ==> Parses(doc.value.children[k], parseChildren))
             && (forall k :: 0 <= k < |doc.value.children| ==> !MarkedRoot(doc.value.children[k]))) ==>
              FromXmlF(p, doc, parseChildren, fuel) == Err(RegenerationFailure(NoRoot))
    ensures doc.Some? ==>
              forall j, k :: (0 <= j < k < |doc.value.children| && MarkedRoot(doc.value.children[j]) && MarkedRoot(doc.value.children[k])
                              && (forall m :: 0 <= m <= k ==> Parses(doc.value.children[m], parseChildren))) ==>
                FromXmlF(p, doc, parseChildren, fuel) == Err(RegenerationFailure(MultipleRoots))
    ensures doc.Some? ==>
              forall k :: (0 <= k < |doc.value.children| && doc.value.children[k].Element?
                           && ToplevelFromXml(doc.value.children[k], parseChildren).Err?
                           && (forall m :: 0 <= m < k ==> Parses(doc.value.children[m], parseChildren))
                           && (forall j, m :: 0 <= j < m < k && MarkedRoot(doc.value.children[j]) ==> !MarkedRoot(doc.value.children[m]))) ==>
                FromXmlF(p, doc, parseChildren, fuel) == Err(AsRegeneration(ToplevelFromXml(doc.value.children[k], parseChildren).failure))
  {
    if doc.Some? {
      var children := doc.value.children;
      if (forall k :: 0 <= k < |children| ==> Parses(children[k], parseChildren))
         && (forall k :: 0 <= k < |children| ==> !MarkedRoot(children[k])) {
        LoadToplevelsNoRoot(children, parseChildren);
      }
      forall j, k | 0 <= j < k < |children| && MarkedRoot(children[j]) && MarkedRoot(children[k])
                    && (forall m :: 0 <= m <= k ==> Parses(children[m], parseChildren))
        ensures FromXmlF(p, doc, parseChildren, fuel) == Err(RegenerationFailure(MultipleRoots))
      {
        LoadToplevelsMultipleRoots(children, parseChildren, j, k);
      }
      forall k | 0 <= k < |children| && children[k].Element? && ToplevelFromXml(children[k], parseChildren).Err?
                 && (forall m :: 0 <= m < k ==> Parses(children[m], parseChildren))
                 && (forall j, m :: 0 <= j < m < k && MarkedRoot(children[j]) ==> !MarkedRoot(children[m]))
        ensures FromXmlF(p, doc, parseChildren, fuel) == Err(AsRegeneration(ToplevelFromXml(children[k], parseChildren).failure))
      {
        LoadToplevelsParseFailure(children, parseChildren, k);
      }
    }
  }

  /** One element child of the document: parsed as a toplevel element and filed in `list`. */
  method FileToplevel(list: ToplevelList, child: XmlElement, parseChildren: XmlElement -> Result<seq<Element>>)
    returns (r: Result<Element>)
    requires list.Valid()
    modifies list
    ensures list.Valid()
    ensures r == ParseToplevel(child, parseChildren)
    ensures r.Err? ==> list.entries == old(list.entries)
    ensures r.Ok? ==> list.Contents() == old(list.Contents())[ItemID(r.value.tag, r.value.id) := r.value]
  {
    ghost var before := list.Contents();
    ghost var entries := list.entries;
    var parsed := ToplevelFromXml(child, parseChildren);
    if parsed.Err? {
      return Err(AsRegeneration(parsed.failure));
    }
    var t := parsed.value;
    var element := new ParentElement.Toplevel(t.tag, t.id, t.root);
    // ParentElement.fromXmlElement fills the children in
    element.children := t.children;
    assert element.Value() == t;
    var _ := list.AddElement(element);
    assert ValuesOf(entries) == before;
    ValuesOfPut(entries, ItemID(t.tag, t.id), element);
    r := Ok(t);
  }

  /**
   * The first half of fromXml: every element child of the document parsed as
   * a toplevel element and filed in a new toplevel list, and the one marked
   * root found.
   */
  method LoadToplevels(children: seq<XmlNode>, parseChildren: XmlElement -> Result<seq<Element>>)
    returns (r: Result<Element>, list: ToplevelList)
    ensures fresh(list) && list.Valid()
    ensures match LoadToplevelsF(children, parseChildren)
            case Ok(loaded) => r == Ok(loaded.root.value) && list.Contents() == loaded.toplevels
            case Err(f) => r == Err(f)
  {
    list := new ToplevelList();
    var root: Option<Element> := None;
    ghost var whole := LoadF(children, parseChildren, 0, Loading(map[], None));
    var i := 0;
    while i < |children|
      invariant 0 <= i <= |children|
      invariant fresh(list) && list.Valid()
      invariant whole == LoadF(children, parseChildren, i, Loading(list.Contents(), root))
    {
      if children[i].Element? {
        var parsed := FileToplevel(list, children[i], parseChildren);
        if parsed.Err? {
          return Err(parsed.failure), list;
        }
        var t := parsed.value;
        if t.root {
          if root.Some? {
            return Err(RegenerationFailure(MultipleRoots)), list;
          }
          root := Some(t);
        }
      }
      i := i + 1;
    }
    if root.None? {
      return Err(RegenerationFailure(NoRoot)), list;
    }
    r := Ok(root.value);
  }

  /**
   * fromXml: a null document throws NullPointerException; every element child
   * of the document element is read as a toplevel element into the list; more
   * than one root, or none, is refused; the root element is regenerated with
   * the root class. Alongside the root object come the objects regenerated
   * (the heap built) and the keys of toplevel elements never regenerated,
   * which the library only warns about.
   */
  method FromXml(p: XmlPersistor, doc: Option<XmlElement>, parseChildren: XmlElement -> Result<seq<Element>>, fuel: nat)
    returns (r: Result<Value>, objects: seq<Obj>, unused: set<ItemID>)
    ensures match FromXmlF(p, doc, parseChildren, fuel)
            case Ok(out) => r == Ok(out.root) && objects == out.objects && unused == out.unused
            case Err(f) => r == Err(f)
  {
    if doc.None? {
      return Err(NullPointer), [], {};
    }
    var loaded, list := LoadToplevels(doc.value.children, parseChildren);
    if loaded.Err? {
      return Err(loaded.failure), [], {};
    }
    var root := loaded.value;
    var state := new Regenerating(p.classes, list);
    var regenerated := state.RegenerateObject(p.rootClass, root, fuel);
    objects := state.arena;
    unused := list.entries.Keys - state.registry.objects.Keys;
    r := if regenerated.Err? then Err(AsRegeneration(regenerated.failure)) else regenerated;
  }
}
