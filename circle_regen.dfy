/**
 * The library's self-referencing regeneration example: a class tagged
 * "singleCircle" with a String id field `id`, a @Persist field
 * "heyLookItsMe" of its own class and a @Persist String field
 * "dogInFrenchIs". The document holds one toplevel element, marked root,
 * whose "heyLookItsMe" child is a text element naming the element's own id.
 * Regenerating it yields one object whose `me` field is that very object.
 */
module CircleRegen {
  import opened Failures
  import opened XmlNames
  import opened ItemIds
  import opened Descriptors
  import opened Dom
  import opened Elements
  import opened Tables
  import opened PersistenceUtil
  import opened Primitives
  import opened PersistEngine
  import opened RegenEngine
  import opened XmlPersistence

  const RegenClass: string := "SingleCircularToplevelRegenTest"
  const RegenAnnotation: Annotation := Annotation(true, "id", "singleCircle")
  const IdDecl: FieldDecl := FieldDecl("id", StringK, None)
  const MeDecl: FieldDecl := FieldDecl("me", ClassK(RegenClass), Some("heyLookItsMe"))
  const OnceDecl: FieldDecl := FieldDecl("once", StringK, Some("dogInFrenchIs"))

  const RegenClasses: ClassTable := map[RegenClass := ClassDecl([IdDecl, MeDecl, OnceDecl], [], Some(RegenAnnotation))]

  const CircleKey: ItemID := ItemID("singleCircle", "foobar")

  /** The toplevel element of the document. */
  const CircleElement: Element :=
    ToplevelEl("singleCircle", "foobar", true, [TextEl("heyLookItsMe", "foobar"), TextEl("dogInFrenchIs", "chien")])

  /** The object as it stands once registered, before its @Persist fields are filled in. */
  const Registered0: Obj := Obj(RegenClass, map["id" := PrimV(StrP("foobar"))], "")

  /** The object as it stands after `me` is filled in. */
  const Registered1: Obj := Obj(RegenClass, map["id" := PrimV(StrP("foobar")), "me" := RefV(0)], "")

  /** The regenerated object: `me` refers to the object itself. */
  const CircleObject: Obj :=
    Obj(RegenClass, map["id" := PrimV(StrP("foobar")), "me" := RefV(0), "once" := PrimV(StrP("chien"))], "")

  /** The persistor for the class builds, and is well formed. */
  lemma RegenPersistorBuilds()
    ensures VerifyAndGetPersistable(RegenClasses, RegenClass) == Ok(RegenAnnotation)
    ensures XmlPersistor(RegenClasses, RegenClass, RegenAnnotation).Valid()
  {
    NameIsValidTag("singleCircle");
    assert IdDecl in RegenClasses[RegenClass].fields;
  }

  /** Both @Persist fields, in declaration order, and the id field `id`. */
  lemma RegenFields()
    ensures FieldsToPersist(RegenClasses, RegenClass) == [MeDecl, OnceDecl]
    ensures IdField(RegenClasses, RegenClass, RegenAnnotation) == IdDecl
  {
    assert FieldsOf(RegenClasses, []) == [];
    assert AllDeclaredFields(RegenClasses, RegenClass) == [IdDecl, MeDecl, OnceDecl];
    assert [IdDecl, MeDecl, OnceDecl][1..] == [MeDecl, OnceDecl];
    assert [MeDecl, OnceDecl][1..] == [OnceDecl];
    assert [OnceDecl][1..] == [];
    assert PersistFields([OnceDecl]) == [OnceDecl];
    assert PersistFields([MeDecl, OnceDecl]) == [MeDecl, OnceDecl];
    assert DeclaredFieldKind([IdDecl, MeDecl, OnceDecl], "id") == Some(StringK);
  }

  /**
   * The example's class table and toplevel list. The lemmas below take them
   * as parameters equal to the constants, so that the solver does not
   * evaluate the regenerating functions on the constants eagerly.
   */
  predicate IsCircle(classes: ClassTable, toplevels: map<ItemID, Element>)
  {
    classes == RegenClasses && toplevels == map[CircleKey := CircleElement]
  }

  /** The document's one child loads as the one toplevel element and is the root. */
  lemma LoadCircle(children: seq<XmlNode>, parseChildren: XmlElement -> Result<seq<Element>>)
    requires children == [ToXmlElement(CircleElement)]
    requires parseChildren(ToXmlElement(CircleElement)) == Ok(CircleElement.children)
    ensures LoadToplevelsF(children, parseChildren) == Ok(Loading(map[CircleKey := CircleElement], Some(CircleElement)))
  {
    NameIsValidTag("singleCircle");
    LoadOneRoot(CircleElement, children, parseChildren);
  }

  /** A document whose one child is the DOM element of a root toplevel element loads as that element alone. */
  lemma LoadOneRoot(e: Element, children: seq<XmlNode>, parseChildren: XmlElement -> Result<seq<Element>>)
    requires e.ToplevelEl? && e.root && IsValidXmlTag(e.tag)
    requires children == [ToXmlElement(e)]
    requires parseChildren(ToXmlElement(e)) == Ok(e.children)
    ensures LoadToplevelsF(children, parseChildren) == Ok(Loading(map[ItemID(e.tag, e.id) := e], Some(e)))
  {
    ToplevelRoundTrip(e, parseChildren);
    var start := Loading(map[], None);
    var filed := Loading(map[ItemID(e.tag, e.id) := e], Some(e));
    assert LoadF(children, parseChildren, 1, filed) == Ok(filed);
    assert LoadF(children, parseChildren, 0, start) == LoadF(children, parseChildren, 1, filed);
  }

  /** The text child "foobar" of `me`, met while the object is registered, refers back to the object itself. */
  lemma MeRefersBack(classes: ClassTable, toplevels: map<ItemID, Element>, k: Kind, child: Element, fuel: nat, s: RState)
    requires IsCircle(classes, toplevels) && Live(s)
    requires k == ClassK(RegenClass) && child == TextEl("heyLookItsMe", "foobar")
    requires CircleKey in s.registry && s.registry[CircleKey] == 0
    ensures RegenValueF(classes, toplevels, k, child, fuel, s) == Ok(Regenerated(RefV(0), s))
  {
    RegenPersistorBuilds();
    ReferenceResolves(classes, toplevels, RegenClass, RegenAnnotation, "foobar", fuel, s);
  }

  /** The text child "chien" of `once` reads back as the string "chien", state unchanged. */
  lemma OnceIsChien(classes: ClassTable, toplevels: map<ItemID, Element>, fuel: nat, s: RState)
    requires IsCircle(classes, toplevels) && Live(s)
    ensures RegenValueF(classes, toplevels, StringK, TextEl("dogInFrenchIs", "chien"), fuel, s)
            == Ok(Regenerated(PrimV(StrP("chien")), s))
  {
  }

  /** Filling in `me` stores the reference to object 0 in object 0. */
  lemma FillMe(classes: ClassTable, toplevels: map<ItemID, Element>, f: FieldDecl, child: Element, fuel: nat, s: RState)
    requires IsCircle(classes, toplevels) && f == MeDecl && child == TextEl("heyLookItsMe", "foobar") && fuel > 0
    requires Live(s) && s.arena == [Registered0] && CircleKey in s.registry && s.registry[CircleKey] == 0
    ensures FillFieldF(classes, toplevels, 0, f, child, fuel, s) == Ok(RState([Registered1], s.registry))
  {
    MeRefersBack(classes, toplevels, f.kind, child, fuel - 1, s);
    SetInOnlyObject(s.arena, Registered0, f.name, RefV(0), Registered1);
    FillFieldStores(classes, toplevels, 0, f, child, fuel, s, RefV(0), [Registered1]);
  }

  /** Filling in `once` stores "chien". */
  lemma FillOnce(classes: ClassTable, toplevels: map<ItemID, Element>, fuel: nat, s: RState)
    requires IsCircle(classes, toplevels) && fuel > 0
    requires s == RState([Registered1], map[CircleKey := 0])
    ensures FillFieldF(classes, toplevels, 0, OnceDecl, TextEl("dogInFrenchIs", "chien"), fuel, s)
            == Ok(RState([CircleObject], map[CircleKey := 0]))
  {
    OnceIsChien(classes, toplevels, fuel - 1, s);
    SetInOnlyObject(s.arena, Registered1, OnceDecl.name, PrimV(StrP("chien")), CircleObject);
    FillFieldStores(classes, toplevels, 0, OnceDecl, TextEl("dogInFrenchIs", "chien"), fuel, s, PrimV(StrP("chien")), [CircleObject]);
  }

  /** Setting `me` and then `once` in the registered object gives the object after each step. */
  lemma SetInOnlyObject(arena: seq<Obj>, o: Obj, name: string, v: Value, o': Obj)
    requires arena == [o] && ((o == Registered0 && name == "me" && v == RefV(0) && o' == Registered1)
                              || (o == Registered1 && name == "once" && v == PrimV(StrP("chien")) && o' == CircleObject))
    ensures arena[0 := WithField(arena[0], name, v)] == [o']
  {
    assert WithField(o, name, v) == o';
  }

  /** A field whose child regenerates to a value the field accepts, leaving the state as it was, is set to that value. */
  lemma FillFieldStores(classes: ClassTable, toplevels: map<ItemID, Element>, ref: Ref, f: FieldDecl, child: Element,
                        fuel: nat, s: RState, v: Value, arena: seq<Obj>)
    requires Live(s) && WellKeyed(toplevels) && ref < |s.arena| && fuel > 0
    requires RegenValueF(classes, toplevels, f.kind, child, fuel - 1, s) == Ok(Regenerated(v, s))
    requires !(v.NullV? && f.kind.IsPrimitive()) && arena == s.arena[ref := WithField(s.arena[ref], f.name, v)]
    ensures FillFieldF(classes, toplevels, ref, f, child, fuel, s) == Ok(RState(arena, s.registry))
  {
  }

  /** Each @Persist field finds exactly its one child. */
  lemma CircleChildren()
    ensures ChildrenByTag(CircleElement.children, "heyLookItsMe") == [TextEl("heyLookItsMe", "foobar")]
    ensures ChildrenByTag(CircleElement.children, "dogInFrenchIs") == [TextEl("dogInFrenchIs", "chien")]
  {
    assert CircleElement.children[1..] == [TextEl("dogInFrenchIs", "chien")];
  }

  /** Filling in from `once` on, after `me`. */
  lemma FillFromOnce(classes: ClassTable, toplevels: map<ItemID, Element>, fields: seq<FieldDecl>, children: seq<Element>,
                     fuel: nat, s: RState)
    requires IsCircle(classes, toplevels) && fuel > 0 && fields == [MeDecl, OnceDecl] && children == CircleElement.children
    requires s == RState([Registered1], map[CircleKey := 0])
    ensures FillF(classes, toplevels, fields, 1, 0, children, fuel, s) == Ok(RState([CircleObject], map[CircleKey := 0]))
  {
    CircleChildren();
    var s2 := RState([CircleObject], map[CircleKey := 0]);
    FillOnce(classes, toplevels, fuel, s);
    assert FillF(classes, toplevels, fields, 2, 0, children, fuel, s2) == Ok(s2);
  }

  /** Filling in both fields of the registered object. */
  lemma FillCircle(classes: ClassTable, toplevels: map<ItemID, Element>, fields: seq<FieldDecl>, children: seq<Element>,
                   fuel: nat, s: RState)
    requires IsCircle(classes, toplevels) && fuel > 0 && fields == [MeDecl, OnceDecl] && children == CircleElement.children
    requires s == RState([Registered0], map[CircleKey := 0])
    ensures FillF(classes, toplevels, fields, 0, 0, children, fuel, s) == Ok(RState([CircleObject], map[CircleKey := 0]))
  {
    CircleChildren();
    var s1 := RState([Registered1], map[CircleKey := 0]);
    FillMe(classes, toplevels, MeDecl, TextEl("heyLookItsMe", "foobar"), fuel, s);
    FillFromOnce(classes, toplevels, fields, children, fuel, s1);
  }

  /** The id "foobar" read back as the String id field. */
  lemma CircleIdConforms()
    ensures ConformIdTo(IdField(RegenClasses, RegenClass, RegenAnnotation).kind, "foobar") == Ok(PrimV(StrP("foobar")))
  {
    RegenFields();
  }

  /** The registered state: the new object with only its id set, filed under (singleCircle, foobar). */
  lemma CircleRegistered(classes: ClassTable, s: RState)
    requires classes == RegenClasses && s == RState([], map[])
    ensures Registered(classes, RegenClass, RegenAnnotation, "singleCircle", "foobar", PrimV(StrP("foobar")), s)
            == RState([Registered0], map[CircleKey := 0])
  {
    assert WithField(Obj(RegenClass, map[], ""), "id", PrimV(StrP("foobar"))) == Registered0;
  }

  /** regenerateToplevel on the element, from an empty state. */
  lemma RegenCircleToplevel(classes: ClassTable, toplevels: map<ItemID, Element>, fuel: nat, s: RState)
    requires IsCircle(classes, toplevels) && fuel > 0 && s == RState([], map[])
    ensures VerifyAndGetPersistable(classes, RegenClass) == Ok(RegenAnnotation)
    ensures RegenToplevelF(classes, toplevels, RegenClass, RegenAnnotation, "singleCircle", "foobar", CircleElement.children, fuel, s)
            == Ok(Regenerated(RefV(0), RState([CircleObject], map[CircleKey := 0])))
  {
    RegenPersistorBuilds();
    RegenFields();
    CircleIdConforms();
    RegisteredBeforeFill(classes, toplevels, RegenClass, RegenAnnotation, "foobar", CircleElement.children, fuel, 0, s);
    CircleRegistered(classes, s);
    FillCircle(classes, toplevels, FieldsToPersist(classes, RegenClass), CircleElement.children, fuel,
               RState([Registered0], map[CircleKey := 0]));
  }

  /** Regenerating the root element from an empty state makes the one object, registered, with `me` referring to itself. */
  lemma RegenCircle(classes: ClassTable, toplevels: map<ItemID, Element>, fuel: nat, e: Element)
    requires IsCircle(classes, toplevels) && fuel > 0 && e == CircleElement
    ensures RegenObjectF(classes, toplevels, RegenClass, e, fuel, RState([], map[]))
            == Ok(Regenerated(RefV(0), RState([CircleObject], map[CircleKey := 0])))
  {
    RegenCircleToplevel(classes, toplevels, fuel, RState([], map[]));
  }

  /** fromXml once the document has loaded as the one toplevel element, marked root. */
  lemma FromLoadedCircle(p: XmlPersistor, doc: XmlElement, parseChildren: XmlElement -> Result<seq<Element>>, fuel: nat)
    requires p == XmlPersistor(RegenClasses, RegenClass, RegenAnnotation) && fuel > 0
    requires LoadToplevelsF(doc.children, parseChildren) == Ok(Loading(map[CircleKey := CircleElement], Some(CircleElement)))
    ensures FromXmlF(p, Some(doc), parseChildren, fuel) == Ok(Restored(RefV(0), [CircleObject], {}))
  {
    var toplevels := map[CircleKey := CircleElement];
    RegenCircle(p.classes, toplevels, fuel, CircleElement);
    var out := RegenObjectF(p.classes, toplevels, p.rootClass, CircleElement, fuel, RState([], map[]));
    assert out.value.state.registry.Keys == toplevels.Keys;
    assert toplevels.Keys - out.value.state.registry.Keys == {};
  }

  /**
   * singleCircularToplevelFromXml: the document of the one element
   * regenerates, with any fuel above zero, to object 0 whose `me` field is
   * object 0 itself, whose `once` field is "chien" and whose `id` is
   * "foobar"; every toplevel element was used.
   */
  lemma SingleCircularToplevelFromXml(p: XmlPersistor, doc: XmlElement, parseChildren: XmlElement -> Result<seq<Element>>, fuel: nat)
    requires p == XmlPersistor(RegenClasses, RegenClass, RegenAnnotation) && fuel > 0
    requires doc.children == [ToXmlElement(CircleElement)]
    requires parseChildren(ToXmlElement(CircleElement)) == Ok(CircleElement.children)
    ensures FromXmlF(p, Some(doc), parseChildren, fuel) == Ok(Restored(RefV(0), [CircleObject], {}))
    ensures CircleObject.fields["me"] == RefV(0) && CircleObject.fields["once"] == PrimV(StrP("chien"))
    ensures CircleObject.fields["id"] == PrimV(StrP("foobar"))
  {
    LoadCircle(doc.children, parseChildren);
    FromLoadedCircle(p, doc, parseChildren, fuel);
  }
}
