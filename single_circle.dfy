/**
 * The library's self-referencing toplevel example: a class tagged
 * "singleCircle" whose id field holds "foobar", whose @Persist field
 * "heyLookItsMe" points back at the object itself and whose @Persist field
 * "dogInFrenchIs" holds "chien". Persisting it files one toplevel element; the
 * reference back to the object becomes a text element holding its id.
 */
module SingleCircle {
  import opened Failures
  import opened XmlNames
  import opened ItemIds
  import opened Descriptors
  import opened PersistenceUtil
  import opened Dom
  import opened Elements
  import opened Tables
  import opened Primitives
  import opened PersistEngine
  import opened XmlPersistence

  const CircleClass: string := "SingleCircularToplevelTest"
  const CircleAnnotation: Annotation := Annotation(true, "id", "singleCircle")
  const IdDecl: FieldDecl := FieldDecl("id", StringK, None)
  const MeDecl: FieldDecl := FieldDecl("me", ClassK(CircleClass), Some("heyLookItsMe"))
  const DogDecl: FieldDecl := FieldDecl("dog", StringK, Some("dogInFrenchIs"))

  const CircleClasses: ClassTable := map[CircleClass := ClassDecl([IdDecl, MeDecl, DogDecl], [], Some(CircleAnnotation))]

  /** The one object, at reference 0, whose `me` field refers to itself. */
  const CircleHeap: Heap :=
    map[0 := Obj(CircleClass, map["id" := PrimV(StrP("foobar")), "me" := RefV(0), "dog" := PrimV(StrP("chien"))], "")]

  const CircleKey: ItemID := ItemID("singleCircle", "foobar")

  /** The class passes verifyAndGetPersistable, so an XmlPersistor for it can be built. */
  lemma CirclePersistorBuilds()
    ensures VerifyAndGetPersistable(CircleClasses, CircleClass) == Ok(CircleAnnotation)
    ensures NewXmlPersistor(CircleClasses, Some(CircleClass)) == Ok(XmlPersistor(CircleClasses, CircleClass, CircleAnnotation))
  {
    NameIsValidTag("singleCircle");
    assert IdDecl in CircleClasses[CircleClass].fields;
  }

  /** Both @Persist fields, in declaration order; `id` carries no @Persist. */
  lemma CircleFields()
    ensures FieldsToPersist(CircleClasses, CircleClass) == [MeDecl, DogDecl]
  {
    assert FieldsOf(CircleClasses, []) == [];
    assert AllDeclaredFields(CircleClasses, CircleClass) == [IdDecl, MeDecl, DogDecl];
    assert [IdDecl, MeDecl, DogDecl][1..] == [MeDecl, DogDecl];
    assert [MeDecl, DogDecl][1..] == [DogDecl];
    assert [DogDecl][1..] == [];
    assert PersistFields([DogDecl]) == [DogDecl];
    assert PersistFields([MeDecl, DogDecl]) == [MeDecl, DogDecl];
  }

  /** The id field is the class's own String field `id`. */
  lemma CircleIdField()
    ensures IdField(CircleClasses, CircleClass, CircleAnnotation) == IdDecl
  {
    assert DeclaredFieldKind([IdDecl, MeDecl, DogDecl], "id") == Some(StringK);
  }

  /** The object's id field holds "foobar". */
  lemma CircleId()
    ensures FieldValue(CircleHeap[0], IdDecl) == PrimV(StrP("foobar"))
  {
    assert "id" in CircleHeap[0].fields;
  }

  /**
   * The class table and object graph of the example. The lemmas below take
   * them as parameters equal to the constants, so that the solver does not
   * evaluate the persisting functions on the constants eagerly.
   */
  predicate IsCircle(classes: ClassTable, heap: Heap)
  {
    classes == CircleClasses && heap == CircleHeap
  }

  /** The text of the object's id: the String "foobar" itself. */
  lemma CircleIdText(classes: ClassTable, heap: Heap)
    requires IsCircle(classes, heap)
    ensures IdText(heap, FieldValue(heap[0], IdField(classes, CircleClass, CircleAnnotation))) == Ok("foobar")
  {
    CircleIdField();
    CircleId();
  }

  /** The object's key: the class's tag and the text of its id field. */
  lemma CircleKeyOf(classes: ClassTable, heap: Heap)
    requires IsCircle(classes, heap)
    ensures IdText(heap, FieldValue(heap[0], IdField(classes, CircleClass, CircleAnnotation))) == Ok("foobar")
    ensures KeyOf(classes, heap, CircleClass, 0) == Ok(CircleKey)
  {
    CirclePersistorBuilds();
    CircleIdText(classes, heap);
  }

  /** Claiming the tag again for the same class leaves the checker's table as it was. */
  lemma ReclaimKeepsTable(table: map<string, string>)
    requires table == map["singleCircle" := CircleClass]
    ensures Claim(table, Some("singleCircle"), Some(CircleClass)) == Ok(table)
  {
    assert table["singleCircle" := CircleClass] == table;
  }

  /** Met again once its key is taken, the object is persisted as its id in a text element, and nothing is filed. */
  lemma BackReferenceToplevel(classes: ClassTable, heap: Heap, fuel: nat, s: PState)
    requires IsCircle(classes, heap)
    requires CircleKey in s.keys && s.claims == map["singleCircle" := CircleClass]
    ensures PersistToplevelF(classes, heap, CircleClass, CircleAnnotation, "heyLookItsMe", 0, fuel, s)
            == Ok(Persisted(TextEl("heyLookItsMe", "foobar"), s, map[]))
  {
    CircleKeyOf(classes, heap);
    ReclaimKeepsTable(s.claims);
    NameIsValidTag("heyLookItsMe");
  }

  /** The back reference, persisted once the key is taken, is the id as text and files nothing. */
  lemma BackReference(classes: ClassTable, heap: Heap, fuel: nat, s: PState)
    requires IsCircle(classes, heap)
    requires CircleKey in s.keys && s.claims == map["singleCircle" := CircleClass]
    ensures PersistValueF(classes, heap, MeDecl.kind, "heyLookItsMe", RefV(0), fuel, s)
            == Ok(Persisted(TextEl("heyLookItsMe", "foobar"), s, map[]))
  {
    CirclePersistorBuilds();
    BackReferenceToplevel(classes, heap, fuel, s);
  }

  /** The String field is persisted as its text. */
  lemma DogField(classes: ClassTable, heap: Heap, fuel: nat, s: PState)
    ensures PersistValueF(classes, heap, DogDecl.kind, "dogInFrenchIs", PrimV(StrP("chien")), fuel, s)
            == Ok(Persisted(TextEl("dogInFrenchIs", "chien"), s, map[]))
  {
    NameIsValidTag("dogInFrenchIs");
  }

  /** The object's other two fields: itself, and "chien". */
  lemma CircleFieldValues()
    ensures FieldValue(CircleHeap[0], MeDecl) == RefV(0)
    ensures FieldValue(CircleHeap[0], DogDecl) == PrimV(StrP("chien"))
  {
    assert "me" in CircleHeap[0].fields && "dog" in CircleHeap[0].fields;
  }

  /** The first field of populateStructure: the back reference. */
  lemma PopulateMe(classes: ClassTable, heap: Heap, fields: seq<FieldDecl>, fuel: nat, s1: PState)
    requires IsCircle(classes, heap) && fields == [MeDecl, DogDecl]
    requires fuel >= 1 && CircleKey in s1.keys && s1.claims == map["singleCircle" := CircleClass]
    ensures PopulateF(classes, heap, fields, 0, 0, fuel, s1, Populating([], [], s1, map[]))
            == PopulateF(classes, heap, fields, 1, 0, fuel, s1,
                         Populating(["heyLookItsMe"], [TextEl("heyLookItsMe", "foobar")], s1, map[]))
  {
    CircleFieldValues();
    BackReference(classes, heap, fuel - 1, s1);
    var none: map<ItemID, Element> := map[];
    var me := TextEl("heyLookItsMe", "foobar");
    PopulateOneField(classes, heap, fields, 0, 0, fuel, s1, Populating([], [], s1, none), Persisted(me, s1, none));
    assert none + none == none;
    assert [] + ["heyLookItsMe"] == ["heyLookItsMe"];
    assert [] + [me] == [me];
  }

  /** The second field of populateStructure: the dog's name; then the fields are done. */
  lemma PopulateDog(classes: ClassTable, heap: Heap, fields: seq<FieldDecl>, fuel: nat, s1: PState)
    requires IsCircle(classes, heap) && fields == [MeDecl, DogDecl]
    requires fuel >= 1 && CircleKey in s1.keys && s1.claims == map["singleCircle" := CircleClass]
    ensures PopulateF(classes, heap, fields, 1, 0, fuel, s1,
                      Populating(["heyLookItsMe"], [TextEl("heyLookItsMe", "foobar")], s1, map[]))
            == Ok(Populating(["heyLookItsMe", "dogInFrenchIs"],
                             [TextEl("heyLookItsMe", "foobar"), TextEl("dogInFrenchIs", "chien")], s1, map[]))
  {
    CircleFieldValues();
    DogField(classes, heap, fuel - 1, s1);
    var none: map<ItemID, Element> := map[];
    var me := TextEl("heyLookItsMe", "foobar");
    var dog := TextEl("dogInFrenchIs", "chien");
    assert "dogInFrenchIs" !in ["heyLookItsMe"];
    PopulateOneField(classes, heap, fields, 1, 0, fuel, s1, Populating(["heyLookItsMe"], [me], s1, none), Persisted(dog, s1, none));
    assert none + none == none;
    assert ["heyLookItsMe"] + ["dogInFrenchIs"] == ["heyLookItsMe", "dogInFrenchIs"];
    assert [me] + [dog] == [me, dog];
  }

  /** Reserving files the object's toplevel element, not yet root, under its key, populated from both fields. */
  lemma ReserveCircle(classes: ClassTable, heap: Heap, fuel: nat, claims: map<string, string>)
    requires IsCircle(classes, heap)
    requires fuel >= 1 && claims == map["singleCircle" := CircleClass]
    ensures var e := ToplevelEl("singleCircle", "foobar", false, [TextEl("heyLookItsMe", "foobar"), TextEl("dogInFrenchIs", "chien")]);
            ReserveF(classes, heap, CircleClass, "singleCircle", "foobar", 0, fuel, PState({}, claims))
            == Ok(Persisted(e, PState({CircleKey}, claims), map[CircleKey := e]))
  {
    var s1 := PState({CircleKey}, claims);
    CircleFields();
    PopulateMe(classes, heap, FieldsToPersist(classes, CircleClass), fuel, s1);
    PopulateDog(classes, heap, FieldsToPersist(classes, CircleClass), fuel, s1);
    assert {} + {CircleKey} == {CircleKey};
  }

  /** Persisting the object under the root's fixed tag: the key is free, so the object is reserved and populated. */
  lemma CircleAsRoot(classes: ClassTable, heap: Heap, fuel: nat)
    requires IsCircle(classes, heap) && fuel >= 1
    ensures var e := ToplevelEl("singleCircle", "foobar", false, [TextEl("heyLookItsMe", "foobar"), TextEl("dogInFrenchIs", "chien")]);
            PersistToplevelF(classes, heap, CircleClass, CircleAnnotation, ROOT_PERSIST_TAG, 0, fuel, PState({}, map[]))
            == Ok(Persisted(TextEl(ROOT_PERSIST_TAG, "foobar"), PState({CircleKey}, map["singleCircle" := CircleClass]), map[CircleKey := e]))
  {
    var claims := map["singleCircle" := CircleClass];
    CircleKeyOf(classes, heap);
    FixedTagsAreValid();
    ReserveCircle(classes, heap, fuel, claims);
    assert Claim(map[], Some("singleCircle"), Some(CircleClass)) == Ok(claims);
  }

  /** The same, through persistWithStrategy's persistable case. */
  lemma CircleObjectAsRoot(classes: ClassTable, heap: Heap, fuel: nat)
    requires IsCircle(classes, heap) && fuel >= 1
    ensures var e := ToplevelEl("singleCircle", "foobar", false, [TextEl("heyLookItsMe", "foobar"), TextEl("dogInFrenchIs", "chien")]);
            PersistObjectF(classes, heap, CircleClass, ROOT_PERSIST_TAG, RefV(0), fuel, PState({}, map[]))
            == Ok(Persisted(TextEl(ROOT_PERSIST_TAG, "foobar"), PState({CircleKey}, map["singleCircle" := CircleClass]), map[CircleKey := e]))
  {
    CirclePersistorBuilds();
    CircleAsRoot(classes, heap, fuel);
  }

  lemma MarkOnlyEntry(k: ItemID, e: Element)
    requires e.ToplevelEl?
    ensures map[k := e][k := MarkRoot(e)] == map[k := e.(root := true)]
  {
  }

  /**
   * Persisting the object as the root files exactly one toplevel element,
   * marked root, whose children are the text reference back to itself and
   * the dog's name; any fuel of at least one level is enough.
   */
  lemma SingleCircleToXml(classes: ClassTable, heap: Heap, fuel: nat)
    requires IsCircle(classes, heap) && fuel >= 1
    ensures ToXmlF(XmlPersistor(classes, CircleClass, CircleAnnotation), heap, 0, fuel)
            == Ok(map[CircleKey := ToplevelEl("singleCircle", "foobar", true,
                                              [TextEl("heyLookItsMe", "foobar"), TextEl("dogInFrenchIs", "chien")])])
  {
    CircleObjectAsRoot(classes, heap, fuel);
    MarkOnlyEntry(CircleKey, ToplevelEl("singleCircle", "foobar", false, [TextEl("heyLookItsMe", "foobar"), TextEl("dogInFrenchIs", "chien")]));
  }

  /** The children of a document carry pairwise different keys. */
  lemma DistinctNodeKeys(nodes: seq<XmlNode>, rootKey: ItemID, i: nat, j: nat)
    requires DocumentChildren(nodes, rootKey) && i < j < |nodes|
    ensures NodeKey(nodes[i]) != NodeKey(nodes[j])
  {
    assert !IsKeyed(nodes[j], ItemID(nodes[i].tag, nodes[i].attributes["id"]));
  }

  /** A document built from a single toplevel element has that element's DOM element as its only child. */
  lemma {:induction false} OneElementDocument(nodes: seq<XmlNode>, k: ItemID, e: Element)
    requires DocumentOf(nodes, map[k := e]) && DocumentChildren(nodes, k)
    ensures nodes == [Elements.ToXmlElement(e)]
  {
    if |nodes| > 1 {
      DistinctNodeKeys(nodes, k, 0, 1);
      assert false;
    }
    assert NodeKey(nodes[0]) == k;
  }

  /** So toXml on the example yields a document whose one child is the root's toplevel element. */
  lemma SingleCircleDocument(classes: ClassTable, heap: Heap, fuel: nat, nodes: seq<XmlNode>)
    requires IsCircle(classes, heap) && fuel >= 1
    requires ToXmlF(XmlPersistor(classes, CircleClass, CircleAnnotation), heap, 0, fuel).Ok?
    requires DocumentOf(nodes, ToXmlF(XmlPersistor(classes, CircleClass, CircleAnnotation), heap, 0, fuel).value)
    requires DocumentChildren(nodes, CircleKey)
    ensures nodes == [Elements.ToXmlElement(ToplevelEl("singleCircle", "foobar", true,
                                                       [TextEl("heyLookItsMe", "foobar"), TextEl("dogInFrenchIs", "chien")]))]
  {
    SingleCircleToXml(classes, heap, fuel);
    OneElementDocument(nodes, CircleKey, ToplevelEl("singleCircle", "foobar", true,
                                                    [TextEl("heyLookItsMe", "foobar"), TextEl("dogInFrenchIs", "chien")]));
  }
}
