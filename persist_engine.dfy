/**
 * The persisting half of PersistablePRStrategy: each @Persist field of an
 * object goes through the strategy its declared type and value pick;
 * toplevel objects are reserved in the toplevel list before they are
 * populated and are replaced in place by a text reference to their id.
 */
module PersistEngine {
  import opened Failures
  import opened XmlNames
  import opened ItemIds
  import opened Descriptors
  import opened PersistenceUtil
  import opened Elements
  import opened ParentElements
  import opened Tables
  import opened Primitives

  /** The field getDeclaredField(idField) finds in the class itself, with its declared type. */
  function IdField(classes: ClassTable, c: string, a: Annotation): (f: FieldDecl)
    requires c in classes
    ensures f.name == a.idField
    ensures DeclaresField(classes, c, a.idField) ==> Some(f.kind) == DeclaredFieldKind(classes[c].fields, a.idField)
  {
    match DeclaredFieldKind(classes[c].fields, a.idField)
    case Some(k) => FieldDecl(a.idField, k, None)
    case None => FieldDecl(a.idField, StringK, None)
  }

  /** The (tag, id) key under which an object of declared class `c` is filed when it is toplevel. */
  function KeyOf(classes: ClassTable, heap: Heap, c: string, ref: Ref): (r: Result<ItemID>)
    ensures r.Ok? ==> WellFormedPersistable(classes, c) && ref in heap
                      && r.value.name == classes[c].annotation.value.tag
  {
    var a :- VerifyAndGetPersistable(classes, c);
    if ref !in heap then Err(IllegalState)
    else
      var id :- IdText(heap, FieldValue(heap[ref], IdField(classes, c, a)));
      Ok(ItemID(a.tag, id))
  }

  /** The later table keeps every entry of the earlier one. */
  ghost predicate Grows(before: map<ItemID, ParentElement>, after: map<ItemID, ParentElement>)
  {
    forall k :: k in before ==> k in after && after[k] == before[k]
  }

  predicate IsToplevelClass(classes: ClassTable, c: string)
  {
    c in classes && classes[c].annotation.Some? && classes[c].annotation.value.toplevel
  }

  /** The fields populateStructure visits for declared class `c`. */
  function FieldsToPersist(classes: ClassTable, c: string): (fs: seq<FieldDecl>)
    ensures forall j :: 0 <= j < |fs| ==> fs[j].persist.Some?
  {
    PersistFields(AllDeclaredFields(classes, c))
  }

  // ---- the reference semantics ----

  /** What persisting reads and leaves behind besides its element: the keys of the toplevel list and the duplicate checker's table. */
  datatype PState = PState(keys: set<ItemID>, claims: map<string, string>)

  /** One persist's outcome: its element, the state after it, and the toplevel elements it filed, by key, as they stand when it returns. */
  datatype Persisted = Persisted(element: Element, state: PState, filed: map<ItemID, Element>)

  /** populateStructure's progress: the @Persist values seen, the children appended, the state, and what has been filed so far. */
  datatype Populating = Populating(seen: seq<string>, children: seq<Element>, state: PState, filed: map<ItemID, Element>)

  /**
   * From `s0` to `s1` exactly the keys of `filed` were added, none of them
   * present before, each holding a toplevel element under its own tag and
   * id, and every earlier claim of the duplicate checker still stands.
   */
  predicate Moved(s0: PState, s1: PState, filed: map<ItemID, Element>)
  {
    s1.keys == s0.keys + filed.Keys && s0.keys !! filed.Keys && WellKeyed(filed)
    && forall t :: t in s0.claims ==> t in s1.claims && s1.claims[t] == s0.claims[t]
  }

  lemma MovedTransitive(s0: PState, s1: PState, s2: PState, f1: map<ItemID, Element>, f2: map<ItemID, Element>)
    requires Moved(s0, s1, f1) && Moved(s1, s2, f2)
    ensures f1.Keys !! f2.Keys && Moved(s0, s2, f1 + f2)
  {
  }

  /** persistWithStrategy on a value: the strategy pickStrategy(declared kind, value) picks, applied to it. */
  function PersistValueF(classes: ClassTable, heap: Heap, k: Kind, tag: string, v: Value, fuel: nat, s: PState): (r: Result<Persisted>)
    ensures r.Ok? ==> Moved(s, r.value.state, r.value.filed) && r.value.element.tag == tag
    decreases fuel, 4, 0
  {
    match PickStrategy(k, v)
    case NullStrategy =>
      var e :- NullPersist(tag, v);
      Ok(Persisted(e, s, map[]))
    case PrimitiveStrategy =>
      // a reference stored in a primitive or String field: Java's typing rules it out
      if !v.PrimV? then Err(IllegalState)
      else
        var e :- PrimitivePersist(tag, Some(v.p));
        Ok(Persisted(e, s, map[]))
    case PersistableStrategy =>
      PersistObjectF(classes, heap, k.name, tag, v, fuel, s)
  }

  /** PersistablePRStrategy.persist: verify the class, then the toplevel or the inline case. */
  function PersistObjectF(classes: ClassTable, heap: Heap, c: string, tag: string, v: Value, fuel: nat, s: PState): (r: Result<Persisted>)
    ensures r.Ok? ==> Moved(s, r.value.state, r.value.filed) && r.value.element.tag == tag
    decreases fuel, 3, 0
  {
    var a :- VerifyAndGetPersistable(classes, c);
    if !v.RefV? || v.r !in heap then Err(IllegalState)
    else if a.toplevel then PersistToplevelF(classes, heap, c, a, tag, v.r, fuel, s)
    else PersistNonToplevelF(classes, heap, c, tag, v.r, fuel, s)
  }

  /**
   * persistToplevel: claim the tag, read the id, reserve and populate a
   * toplevel element unless one is filed under (tag, id) already, and stand
   * in for the object with a text element holding the id.
   */
  function PersistToplevelF(classes: ClassTable, heap: Heap, c: string, a: Annotation, tag: string, ref: Ref, fuel: nat, s: PState): (r: Result<Persisted>)
    requires c in classes && ref in heap
    ensures r.Ok? ==> Moved(s, r.value.state, r.value.filed) && r.value.element.tag == tag
    decreases fuel, 2, 0
  {
    var claims :- Claim(s.claims, Some(a.tag), Some(c));
    var id :- IdText(heap, FieldValue(heap[ref], IdField(classes, c, a)));
    if ItemID(a.tag, id) in s.keys then
      var e :- NewText(tag, Some(id));
      Ok(Persisted(e, PState(s.keys, claims), map[]))
    else
      var reserved :- ReserveF(classes, heap, c, a.tag, id, ref, fuel, PState(s.keys, claims));
      var e :- NewText(tag, Some(id));
      Ok(reserved.(element := e))
  }

  /**
   * The reserving step: the key is taken before the fields are persisted, so
   * a reference back to the object meets the key and becomes a text
   * reference; the element filed under it carries the populated children.
   */
  function ReserveF(classes: ClassTable, heap: Heap, c: string, tag: string, id: string, ref: Ref, fuel: nat, s: PState): (r: Result<Persisted>)
    requires c in classes && ref in heap && ItemID(tag, id) !in s.keys
    ensures r.Ok? ==> Moved(s, r.value.state, r.value.filed) && ItemID(tag, id) in r.value.filed
    decreases fuel, 1, 0
  {
    var s1 := PState(s.keys + {ItemID(tag, id)}, s.claims);
    var p :- PopulateF(classes, heap, FieldsToPersist(classes, c), 0, ref, fuel, s1, Populating([], [], s1, map[]));
    var e := ToplevelEl(tag, id, false, p.children);
    Ok(Persisted(e, p.state, p.filed[ItemID(tag, id) := e]))
  }

  /** persistNonToplevel: a parent element under the field's tag, populated from the object. */
  function PersistNonToplevelF(classes: ClassTable, heap: Heap, c: string, tag: string, ref: Ref, fuel: nat, s: PState): (r: Result<Persisted>)
    requires c in classes && ref in heap
    ensures r.Ok? ==> Moved(s, r.value.state, r.value.filed) && r.value.element.ParentEl? && r.value.element.tag == tag
    decreases fuel, 2, 0
  {
    if !IsValidXmlTag(tag) then Err(PersistenceFailure(InvalidTagName(tag)))
    else
      var p :- PopulateF(classes, heap, FieldsToPersist(classes, c), 0, ref, fuel, s, Populating([], [], s, map[]));
      Ok(Persisted(ParentEl(tag, p.children), p.state, p.filed))
  }

  /**
   * populateStructure from field `i` on: a @Persist value seen before is
   * refused, running out of fuel stands for the stack overflow of an
   * unbounded recursion, and each field's value is persisted and appended.
   * `s0` is the state the populating started from.
   */
  function PopulateF(classes: ClassTable, heap: Heap, fields: seq<FieldDecl>, i: nat, ref: Ref, fuel: nat, s0: PState, acc: Populating): (r: Result<Populating>)
    requires i <= |fields| && ref in heap && forall j :: 0 <= j < |fields| ==> fields[j].persist.Some?
    requires Moved(s0, acc.state, acc.filed)
    ensures r.Ok? ==> Moved(s0, r.value.state, r.value.filed)
    decreases fuel, 0, |fields| - i
  {
    if i == |fields| then Ok(acc)
    else
      var tag := fields[i].persist.value;
      if tag in acc.seen then Err(PersistenceFailure(DuplicatePersistValue(tag)))
      else if fuel == 0 then Err(StackOverflow)
      else
        var out :- PersistValueF(classes, heap, fields[i].kind, tag, FieldValue(heap[ref], fields[i]), fuel - 1, acc.state);
        MovedTransitive(s0, acc.state, out.state, acc.filed, out.filed);
        PopulateF(classes, heap, fields, i + 1, ref, fuel, s0,
                  Populating(acc.seen + [tag], acc.children + [out.element], out.state, acc.filed + out.filed))
  }

  /** One field of populateStructure, when it persists: the rest of the populating continues from what it left. */
  lemma PopulateOneField(classes: ClassTable, heap: Heap, fields: seq<FieldDecl>, i: nat, ref: Ref, fuel: nat,
                         s0: PState, acc: Populating, out: Persisted)
    requires i < |fields| && ref in heap && forall j :: 0 <= j < |fields| ==> fields[j].persist.Some?
    requires Moved(s0, acc.state, acc.filed) && fields[i].persist.value !in acc.seen && fuel > 0
    requires PersistValueF(classes, heap, fields[i].kind, fields[i].persist.value, FieldValue(heap[ref], fields[i]), fuel - 1, acc.state) == Ok(out)
    ensures Moved(s0, out.state, acc.filed + out.filed)
    ensures PopulateF(classes, heap, fields, i, ref, fuel, s0, acc)
            == PopulateF(classes, heap, fields, i + 1, ref, fuel, s0,
                         Populating(acc.seen + [fields[i].persist.value], acc.children + [out.element], out.state, acc.filed + out.filed))
  {
    MovedTransitive(s0, acc.state, out.state, acc.filed, out.filed);
  }

  /**
   * The persisting state (PersistingState: the toplevel list and the
   * duplicate checker) together with what reflection reads: the classes and
   * the object graph, which persisting never changes.
   */
  class Persisting {
    const classes: ClassTable
    const heap: Heap
    const list: ToplevelList
    const checker: DuplicatePersistableChecker

    /** The list is well keyed, and none of its elements is the root yet. */
    ghost predicate Ready()
      reads this, list, list.entries.Values`root
    {
      list.Valid() && forall e :: e in list.entries.Values ==> e.Valid() && !e.root
    }

    /** The state as the reference functions see it. */
    ghost function Now(): PState
      reads this, list, checker
    {
      PState(list.entries.Keys, checker.tagsToClasses)
    }

    /**
     * A persist came out as its reference function says: the same outcome,
     * and on success the same element, the list's keys and the checker's
     * table as the function's state, and every element filed on the way in
     * the list under its key holding the recorded value. (The entries that
     * were there before are the same objects, untouched: see `modifies`.)
     */
    ghost predicate Agrees(r: Result<Element>, f: Result<Persisted>)
      reads this, list, list.entries.Values, checker
    {
      (r.Ok? <==> f.Ok?) && (r.Err? ==> r.failure == f.failure)
      && (r.Ok? ==> r.value == f.value.element && Now() == f.value.state && Holds(f.value.filed))
    }

    /** Every element filed so far is in the list under its key and, as it stands now, is the value recorded. */
    ghost predicate Holds(filed: map<ItemID, Element>)
      reads this, list, list.entries.Values
    {
      forall k :: k in filed ==> k in list.entries && list.entries[k].Value() == filed[k]
    }

    /** Two records that both hold still hold merged, the later one winning on a shared key. */
    lemma HoldsMerged(filed: map<ItemID, Element>, more: map<ItemID, Element>)
      requires Holds(filed) && Holds(more)
      ensures Holds(filed + more)
    {
    }

    constructor(classes: ClassTable, heap: Heap)
      ensures this.classes == classes && this.heap == heap
      ensures fresh(list) && fresh(checker)
      ensures list.entries == map[] && checker.tagsToClasses == map[]
      ensures Ready()
    {
      this.classes := classes;
      this.heap := heap;
      this.list := new ToplevelList();
      this.checker := new DuplicatePersistableChecker();
    }

    /**
     * persistWithStrategy: the strategy pickStrategy(declared type, value)
     * picks, applied to the value. `fuel` bounds the depth of the recursion.
     */
    method PersistValue(k: Kind, tag: string, v: Value, fuel: nat) returns (r: Result<Element>)
      requires Ready()
      modifies list, checker
      decreases fuel, 3
      ensures Ready() && Grows(old(list.entries), list.entries)
      ensures forall x :: x in list.entries && x !in old(list.entries) ==> fresh(list.entries[x])
      ensures Agrees(r, PersistValueF(classes, heap, k, tag, v, fuel, old(Now())))
    {
      match PickStrategy(k, v)
      case NullStrategy =>
        r := NullPersist(tag, v);
      case PrimitiveStrategy =>
        r := if v.PrimV? then PrimitivePersist(tag, Some(v.p)) else Err(IllegalState);
      case PersistableStrategy =>
        r := PersistObject(k.name, tag, v, fuel);
    }

    /**
     * persistWithStrategy: the field's value read from the object and
     * persisted, under the field's @Persist value, as its declared type and
     * the value pick.
     */
    method PersistWithStrategy(f: FieldDecl, ref: Ref, fuel: nat) returns (r: Result<Element>)
      requires Ready() && f.persist.Some? && ref in heap
      modifies list, checker
      decreases fuel, 4
      ensures Ready() && Grows(old(list.entries), list.entries)
      ensures forall x :: x in list.entries && x !in old(list.entries) ==> fresh(list.entries[x])
      ensures Agrees(r, PersistValueF(classes, heap, f.kind, f.persist.value, FieldValue(heap[ref], f), fuel, old(Now())))
    {
      r := PersistValue(f.kind, f.persist.value, FieldValue(heap[ref], f), fuel);
    }

    /** PersistablePRStrategy.persist: verify the class, then the toplevel or the inline case. */
    method PersistObject(c: string, tag: string, v: Value, fuel: nat) returns (r: Result<Element>)
      requires Ready()
      modifies list, checker
      decreases fuel, 2
      ensures Ready() && Grows(old(list.entries), list.entries)
      ensures forall x :: x in list.entries && x !in old(list.entries) ==> fresh(list.entries[x])
      ensures Agrees(r, PersistObjectF(classes, heap, c, tag, v, fuel, old(Now())))
    {
      var a :- VerifyAndGetPersistable(classes, c);
      if !v.RefV? || v.r !in heap {
        // a primitive in a @Persistable-typed field, or a dangling reference
        return Err(IllegalState);
      }
      if a.toplevel {
        r := PersistToplevel(c, a, tag, v.r, fuel);
      } else {
        r := PersistNonToplevel(c, a, tag, v.r, fuel);
      }
    }

    /**
     * persistToplevel: register the tag with the duplicate checker, read the
     * id, reserve and populate a toplevel element unless one is already filed
     * under (tag, id), and return a text reference holding the id.
     */
    method PersistToplevel(c: string, a: Annotation, tag: string, ref: Ref, fuel: nat) returns (r: Result<Element>)
      requires Ready()
      requires VerifyAndGetPersistable(classes, c) == Ok(a) && a.toplevel && ref in heap
      modifies list, checker
      decreases fuel, 1
      ensures Ready() && Grows(old(list.entries), list.entries)
      ensures forall x :: x in list.entries && x !in old(list.entries) ==> fresh(list.entries[x])
      ensures Agrees(r, PersistToplevelF(classes, heap, c, a, tag, ref, fuel, old(Now())))
    {
      var checked := checker.CheckAndRegister(Some(a.tag), Some(c));
      if checked.Err? {
        return Err(checked.failure);
      }
      var id :- IdText(heap, FieldValue(heap[ref], IdField(classes, c, a)));
      var present := list.Contains(a.tag, id);
      if !present {
        var reserved := Reserve(c, a.tag, id, ref, fuel);
        if reserved.Err? {
          return Err(reserved.failure);
        }
      }
      r := NewText(tag, Some(id));
    }

    /**
     * The reserving step of persistToplevel: a new toplevel element is filed
     * under (tag, id) first, so that references back to the object find it,
     * and only then populated.
     */
    method Reserve(c: string, tag: string, id: string, ref: Ref, fuel: nat) returns (r: Result<()>)
      requires Ready() && c in classes && IsValidXmlTag(tag) && ItemID(tag, id) !in list.entries && ref in heap
      modifies list, checker
      decreases fuel, 0, 2
      ensures Ready() && Grows(old(list.entries), list.entries)
      ensures forall x :: x in list.entries && x !in old(list.entries) ==> fresh(list.entries[x])
      ensures var f := ReserveF(classes, heap, c, tag, id, ref, fuel, old(Now()));
              (r.Ok? <==> f.Ok?) && (r.Err? ==> r.failure == f.failure)
              && (r.Ok? ==> Now() == f.value.state && Holds(f.value.filed))
    {
      ghost var s := Now();
      ghost var key := ItemID(tag, id);
      var element := new ParentElement.Toplevel(tag, id, false);
      ValuesAfterPut(list.entries, key, element);
      var _ := list.AddElement(element);
      ghost var reserved := list.entries;
      ghost var s1 := Now();
      assert s1 == PState(s.keys + {key}, s.claims);
      ghost var f := PopulateF(classes, heap, FieldsToPersist(classes, c), 0, ref, fuel, s1, Populating([], [], s1, map[]));
      var populated := Populate(c, element, ref, fuel);
      GrowsTransitive(old(list.entries), reserved, list.entries);
      r := if populated.Err? then Err(populated.failure) else Ok(());
      if r.Ok? {
        assert list.entries[key] == element;
      }
    }

    /** persistNonToplevel: a new parent element under the field's tag, populated from the object. */
    method PersistNonToplevel(c: string, a: Annotation, tag: string, ref: Ref, fuel: nat) returns (r: Result<Element>)
      requires Ready()
      requires VerifyAndGetPersistable(classes, c) == Ok(a) && !a.toplevel && ref in heap
      modifies list, checker
      decreases fuel, 1
      ensures Ready() && Grows(old(list.entries), list.entries)
      ensures forall x :: x in list.entries && x !in old(list.entries) ==> fresh(list.entries[x])
      ensures Agrees(r, PersistNonToplevelF(classes, heap, c, tag, ref, fuel, old(Now())))
    {
      var made := NewParentElement(tag);
      if made.Err? {
        return Err(made.failure);
      }
      var element := made.value;
      var populated := Populate(c, element, ref, fuel);
      if populated.Err? {
        return Err(populated.failure);
      }
      r := Ok(element.Value());
    }

    /** populateStructure came out as PopulateF says, leaving the children on `element`. */
    ghost predicate PopulateAgrees(r: Result<()>, element: ParentElement, f: Result<Populating>)
      reads this, list, list.entries.Values, checker, element
    {
      (r.Ok? <==> f.Ok?) && (r.Err? ==> r.failure == f.failure)
      && (r.Ok? ==> element.children == f.value.children && Now() == f.value.state && Holds(f.value.filed))
    }

    /**
     * populateStructure: each @Persist field of the class and its superclasses,
     * in order, persisted and appended as a child; a @Persist value seen twice
     * is refused.
     */
    method Populate(c: string, element: ParentElement, ref: Ref, fuel: nat) returns (r: Result<()>)
      requires Ready() && element.Valid() && element.children == [] && ref in heap
      modifies list, checker, element
      decreases fuel, 0, 1
      ensures Ready() && Grows(old(list.entries), list.entries)
      ensures forall x :: x in list.entries && x !in old(list.entries) ==> fresh(list.entries[x])
      ensures element.Valid() && element.root == old(element.root)
      ensures PopulateAgrees(r, element, PopulateF(classes, heap, FieldsToPersist(classes, c), 0, ref, fuel, old(Now()),
                                                   Populating([], [], old(Now()), map[])))
    {
      var fields := FieldsToPersist(classes, c);
      ghost var s0 := Now();
      ghost var whole := PopulateF(classes, heap, fields, 0, ref, fuel, s0, Populating([], [], s0, map[]));
      ghost var filed: map<ItemID, Element> := map[];
      var seen: seq<string> := [];
      var i := 0;
      while i < |fields|
        invariant 0 <= i <= |fields|
        invariant Ready() && Grows(old(list.entries), list.entries)
        invariant forall x :: x in list.entries && x !in old(list.entries) ==> fresh(list.entries[x])
        invariant element.Valid() && element.root == old(element.root)
        invariant Moved(s0, Now(), filed) && Holds(filed)
        invariant whole == PopulateF(classes, heap, fields, i, ref, fuel, s0, Populating(seen, element.children, Now(), filed))
      {
        var step;
        step, filed := PopulateStep(fields, i, element, ref, fuel, s0, seen, filed);
        if step.Err? {
          return step;
        }
        seen := seen + [fields[i].persist.value];
        i := i + 1;
      }
      r := Ok(());
    }

    /** One field of the populate loop: the duplicate-tag check, the depth check, then the field persisted and appended. */
    method PopulateStep(fields: seq<FieldDecl>, i: nat, element: ParentElement, ref: Ref, fuel: nat,
                        ghost s0: PState, seen: seq<string>, ghost filed: map<ItemID, Element>)
      returns (r: Result<()>, ghost filed': map<ItemID, Element>)
      requires i < |fields| && forall j :: 0 <= j < |fields| ==> fields[j].persist.Some?
      requires Ready() && element.Valid() && ref in heap
      requires Moved(s0, Now(), filed) && Holds(filed) && forall k :: k in filed ==> list.entries[k] != element
      modifies list, checker, element`children
      decreases fuel, 0, 0
      ensures Ready() && Grows(old(list.entries), list.entries)
      ensures forall x :: x in list.entries && x !in old(list.entries) ==> fresh(list.entries[x])
      ensures element.Valid() && (r.Ok? ==> Moved(s0, Now(), filed') && Holds(filed'))
      ensures var before := PopulateF(classes, heap, fields, i, ref, fuel, s0, Populating(seen, old(element.children), old(Now()), filed));
              (r.Err? ==> before == Err(r.failure))
              && (r.Ok? ==> before == PopulateF(classes, heap, fields, i + 1, ref, fuel, s0,
                                                 Populating(seen + [fields[i].persist.value], element.children, Now(), filed')))
    {
      var tag := fields[i].persist.value;
      if tag in seen {
        return Err(PersistenceFailure(DuplicatePersistValue(tag))), filed;
      }
      if fuel == 0 {
        return Err(StackOverflow), filed;
      }
      ghost var out := PersistValueF(classes, heap, fields[i].kind, tag, FieldValue(heap[ref], fields[i]), fuel - 1, Now());
      ghost var state := Now();
      var appended := AppendField(fields[i], element, ref, fuel - 1, filed);
      if appended.Err? {
        return Err(appended.failure), filed;
      }
      MovedTransitive(s0, state, Now(), filed, out.value.filed);
      HoldsMerged(filed, out.value.filed);
      filed' := filed + out.value.filed;
      r := Ok(());
    }

    method AppendField(f: FieldDecl, element: ParentElement, ref: Ref, fuel: nat, ghost filed: map<ItemID, Element>)
      returns (r: Result<()>)
      requires Ready() && element.Valid() && f.persist.Some? && ref in heap
      requires Holds(filed) && forall k :: k in filed ==> list.entries[k] != element
      modifies list, checker, element`children
      decreases fuel, 5
      ensures Ready() && Grows(old(list.entries), list.entries)
      ensures forall x :: x in list.entries && x !in old(list.entries) ==> fresh(list.entries[x])
      ensures element.Valid() && Holds(filed)
      ensures var out := PersistValueF(classes, heap, f.kind, f.persist.value, FieldValue(heap[ref], f), fuel, old(Now()));
              (r.Ok? <==> out.Ok?) && (r.Err? ==> r.failure == out.failure)
              && (r.Ok? ==> element.children == old(element.children) + [out.value.element]
                            && Now() == out.value.state && Holds(out.value.filed))
    {
      var child := PersistWithStrategy(f, ref, fuel);
      if child.Err? {
        return Err(child.failure);
      }
      var _ := element.AddChild(Some(child.value));
      r := Ok(());
    }
  }

  /** Filing a value under a key brings in no value but that one. */
  lemma ValuesAfterPut<K, V>(m: map<K, V>, k: K, v: V)
    ensures forall x :: x in m[k := v].Values ==> x == v || x in m.Values
  {
    forall x | x in m[k := v].Values
      ensures x == v || x in m.Values
    {
      var j :| j in m[k := v] && m[k := v][j] == x;
      if j != k {
        assert m[j] == x;
      }
    }
  }

  lemma GrowsTransitive(a: map<ItemID, ParentElement>, b: map<ItemID, ParentElement>, c: map<ItemID, ParentElement>)
    requires Grows(a, b) && Grows(b, c)
    ensures Grows(a, c)
  {
  }

  /**
   * The children line up with the fields: one child per field, in order, each
   * under its field's @Persist value, and no two under the same one.
   */
  predicate ChildrenMatchFields(children: seq<Element>, fields: seq<FieldDecl>)
  {
    |children| == |fields|
    && (forall j :: 0 <= j < |fields| ==> fields[j].persist.Some? && children[j].tag == fields[j].persist.value)
    && forall j, l :: 0 <= j < l < |fields| ==> children[j].tag != children[l].tag
  }

  /** One more child under the next field's tag, a tag not used before, keeps children and fields lined up. */
  lemma MatchOneMore(children: seq<Element>, fields: seq<FieldDecl>, i: nat, child: Element)
    requires i < |fields| && fields[i].persist.Some?
    requires ChildrenMatchFields(children, fields[..i])
    requires child.tag == fields[i].persist.value
    requires forall j :: 0 <= j < i ==> fields[j].persist.Some? && fields[j].persist.value != child.tag
    ensures ChildrenMatchFields(children + [child], fields[..i + 1])
  {
    var cs := children + [child];
    var fs := fields[..i + 1];
    assert forall j :: 0 <= j < i ==> fs[j] == fields[..i][j];
    assert forall j :: 0 <= j < i ==> cs[j] == children[j];
  }

  // ---- what the reference semantics promise ----

  /** The @Persist values of the first `i` fields, in order. */
  predicate SeenTags(seen: seq<string>, fields: seq<FieldDecl>, i: nat)
    requires i <= |fields| && forall j :: 0 <= j < |fields| ==> fields[j].persist.Some?
  {
    |seen| == i && forall j :: 0 <= j < i ==> seen[j] == fields[j].persist.value
  }

  /**
   * populateStructure yields one child per @Persist field, in field order,
   * each under its field's @Persist value, and no two under the same one.
   */
  lemma {:induction false} PopulateMatchesFields(classes: ClassTable, heap: Heap, fields: seq<FieldDecl>, i: nat, ref: Ref,
                                                 fuel: nat, s0: PState, acc: Populating)
    requires i <= |fields| && ref in heap && forall j :: 0 <= j < |fields| ==> fields[j].persist.Some?
    requires Moved(s0, acc.state, acc.filed)
    requires SeenTags(acc.seen, fields, i) && ChildrenMatchFields(acc.children, fields[..i])
    requires PopulateF(classes, heap, fields, i, ref, fuel, s0, acc).Ok?
    ensures ChildrenMatchFields(PopulateF(classes, heap, fields, i, ref, fuel, s0, acc).value.children, fields)
    decreases |fields| - i
  {
    if i == |fields| {
      assert fields[..i] == fields;
    } else {
      var tag := fields[i].persist.value;
      var out := PersistValueF(classes, heap, fields[i].kind, tag, FieldValue(heap[ref], fields[i]), fuel - 1, acc.state).value;
      MatchOneMore(acc.children, fields, i, out.element);
      MovedTransitive(s0, acc.state, out.state, acc.filed, out.filed);
      var next := Populating(acc.seen + [tag], acc.children + [out.element], out.state, acc.filed + out.filed);
      assert SeenTags(next.seen, fields, i + 1);
      PopulateMatchesFields(classes, heap, fields, i + 1, ref, fuel, s0, next);
    }
  }

  /** Populating from the start lines the children up with the class's @Persist fields. */
  lemma PopulateFromStart(classes: ClassTable, heap: Heap, c: string, ref: Ref, fuel: nat, s: PState)
    requires ref in heap
    requires PopulateF(classes, heap, FieldsToPersist(classes, c), 0, ref, fuel, s, Populating([], [], s, map[])).Ok?
    ensures ChildrenMatchFields(PopulateF(classes, heap, FieldsToPersist(classes, c), 0, ref, fuel, s, Populating([], [], s, map[])).value.children,
                                FieldsToPersist(classes, c))
  {
    PopulateMatchesFields(classes, heap, FieldsToPersist(classes, c), 0, ref, fuel, s, Populating([], [], s, map[]));
  }

  /**
   * What a persisted object becomes. An object of a toplevel class is
   * replaced by a text element holding its id, and its key is taken: if the
   * key was free, the element filed under it is a toplevel element (not
   * root) whose children line up with the @Persist fields; if it was taken
   * already, nothing is filed and no key is added. An object of any other
   * class becomes a parent element whose children line up with its fields.
   */
  lemma PersistObjectShape(classes: ClassTable, heap: Heap, c: string, tag: string, v: Value, fuel: nat, s: PState)
    requires PersistObjectF(classes, heap, c, tag, v, fuel, s).Ok?
    ensures var out := PersistObjectF(classes, heap, c, tag, v, fuel, s).value;
            v.RefV? && WellFormedPersistable(classes, c)
            && if IsToplevelClass(classes, c) then
                 var key := KeyOf(classes, heap, c, v.r);
                 key.Ok? && out.element == TextEl(tag, key.value.id) && key.value in out.state.keys
                 && (key.value !in s.keys ==> key.value in out.filed && out.filed[key.value].ToplevelEl?
                                              && !out.filed[key.value].root
                                              && ChildrenMatchFields(out.filed[key.value].children, FieldsToPersist(classes, c)))
                 && (key.value in s.keys ==> out.filed == map[] && out.state.keys == s.keys)
               else
                 out.element.ParentEl? && out.element.tag == tag
                 && ChildrenMatchFields(out.element.children, FieldsToPersist(classes, c))
  {
    var a := VerifyAndGetPersistable(classes, c).value;
    if a.toplevel {
      var claims := Claim(s.claims, Some(a.tag), Some(c)).value;
      var id := IdText(heap, FieldValue(heap[v.r], IdField(classes, c, a))).value;
      assert PersistObjectF(classes, heap, c, tag, v, fuel, s) == PersistToplevelF(classes, heap, c, a, tag, v.r, fuel, s);
      if ItemID(a.tag, id) !in s.keys {
        var s1 := PState(s.keys, claims);
        assert ReserveF(classes, heap, c, a.tag, id, v.r, fuel, s1).Ok?;
        PopulateFromStart(classes, heap, c, v.r, fuel, PState(s1.keys + {ItemID(a.tag, id)}, claims));
      }
    } else {
      PopulateFromStart(classes, heap, c, v.r, fuel, s);
    }
  }

  /**
   * A reference back to an object whose key is already taken (the object
   * being populated, or one persisted before) succeeds at once: it is a text
   * element holding the id, nothing is filed and the recursion stops there.
   */
  lemma ReentryIsReference(classes: ClassTable, heap: Heap, c: string, tag: string, ref: Ref, fuel: nat, s: PState)
    requires IsToplevelClass(classes, c) && WellFormedPersistable(classes, c) && ref in heap && IsValidXmlTag(tag)
    requires KeyOf(classes, heap, c, ref).Ok? && KeyOf(classes, heap, c, ref).value in s.keys
    requires Claim(s.claims, Some(KeyOf(classes, heap, c, ref).value.name), Some(c)).Ok?
    ensures PersistObjectF(classes, heap, c, tag, RefV(ref), fuel, s)
            == Ok(Persisted(TextEl(tag, KeyOf(classes, heap, c, ref).value.id),
                            PState(s.keys, Claim(s.claims, Some(KeyOf(classes, heap, c, ref).value.name), Some(c)).value), map[]))
  {
  }
}
