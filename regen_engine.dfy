/**
 * The regenerating half of PersistablePRStrategy: an object is rebuilt from
 * a text reference (looked up in the registry, else regenerated from the
 * toplevel list), from a toplevel element (instantiated, given its id,
 * registered, then filled in) or from an inline parent element.
 */
module RegenEngine {
  import opened Failures
  import opened ItemIds
  import opened Descriptors
  import opened PersistenceUtil
  import opened Elements
  import opened ParentElements
  import opened Tables
  import opened Primitives
  import opened PersistEngine

  // ---- choosing the strategy for a field's child element ----

  /**
   * fillInRegenerated as written: pickStrategy(field type, child). The child
   * element is never null, so the null strategy is never chosen.
   */
  function FieldStrategyAsWritten(k: Kind, child: Element): (s: Strategy)
    ensures s != NullStrategy
  {
    PickStrategyFor(k)
  }

  /** The evident intent: a null element goes to the null strategy, anything else as before. */
  function FieldStrategy(k: Kind, child: Element): (s: Strategy)
    ensures s == NullStrategy <==> child.NullEl?
    ensures !child.NullEl? ==> s == FieldStrategyAsWritten(k, child)
  {
    if child.NullEl? then NullStrategy else PickStrategyFor(k)
  }

  /**
   * As written, a null String field (persisted as a null element) cannot be
   * regenerated: the primitive strategy demands a text element.
   */
  lemma NullStringLostAsWritten()
    ensures NullPersist("s", NullV) == Ok(NullEl("s"))
    ensures FieldStrategyAsWritten(StringK, NullEl("s")) == PrimitiveStrategy
    ensures PrimitiveRegenerate(StringK, NullEl("s")) == Err(RegenerationFailure(NeedTextElement))
  {
    assert XmlNames.IsValidXmlTag("s") by {
      XmlNames.NameIsValidTag("s");
    }
  }

  /**
   * With the corrected choice, the regenerating side picks the same strategy
   * the persisting side picked for every value: null for null, and the
   * declared type's strategy for every element a non-null value becomes.
   */
  lemma FieldStrategyAgrees(k: Kind, tag: string, v: Value, e: Element)
    requires v.NullV? ==> NullPersist(tag, v) == Ok(e)
    requires !v.NullV? ==> !e.NullEl?
    ensures FieldStrategy(k, e) == PickStrategy(k, v)
  {
  }

  /** And a null field goes out as a null element and comes back as null. */
  lemma NullFieldRoundTrip(k: Kind, tag: string)
    requires XmlNames.IsValidXmlTag(tag)
    ensures NullPersist(tag, NullV).Ok?
    ensures FieldStrategy(k, NullPersist(tag, NullV).value) == NullStrategy
    ensures NullRegenerate(NullPersist(tag, NullV).value) == Ok(NullV)
  {
  }

  /** The arena only grows, and objects that existed, other than `except`, are untouched. */
  ghost predicate Kept(before: seq<Obj>, after: seq<Obj>, except: int)
  {
    |before| <= |after| && forall i :: 0 <= i < |before| && i != except ==> after[i] == before[i]
  }

  /** The value a regenerated field may hold for its declared kind. */
  predicate FitsKind(k: Kind, v: Value)
  {
    match v
    case NullV => true
    case PrimV(p) => Fits(p, k)
    case RefV(_) => k.ClassK?
  }

  // ---- the reference semantics ----

  /** What regenerating changes: the objects built so far (a reference indexes `arena`) and the registry. */
  datatype RState = RState(arena: seq<Obj>, registry: map<ItemID, Ref>)

  /** One regeneration's outcome: the value and the state after it. */
  datatype Regenerated = Regenerated(value: Value, state: RState)

  /** Every registered object exists. */
  predicate Live(s: RState)
  {
    forall k :: k in s.registry ==> s.registry[k] < |s.arena|
  }

  /**
   * From `s` to `t`: the arena only grew, objects that existed other than
   * `except` are untouched, no registration was dropped, and every
   * registered object exists.
   */
  ghost predicate Advanced(s: RState, t: RState, except: int)
  {
    Kept(s.arena, t.arena, except) && s.registry.Keys <= t.registry.Keys && Live(t)
  }

  lemma AdvancedTransitive(s: RState, t: RState, u: RState, except: int, later: int)
    requires Advanced(s, t, except) && Advanced(t, u, later)
    requires later == except || later >= |s.arena|
    ensures Advanced(s, u, except)
  {
  }

  /** The object with one field set (Field.set on a value that the field's type admits). */
  function WithField(o: Obj, name: string, v: Value): (o': Obj)
    ensures o'.cls == o.cls && o'.fields.Keys == o.fields.Keys + {name} && o'.fields[name] == v
    ensures forall n :: n in o.fields && n != name ==> o'.fields[n] == o.fields[n]
  {
    o.(fields := o.fields[name := v])
  }

  /** Field.get after Field.set returns the value set, whatever the field held before; other fields read as before. */
  lemma FieldValueAfterSet(o: Obj, f: FieldDecl, g: FieldDecl, v: Value)
    ensures FieldValue(WithField(o, f.name, v), f) == v
    ensures g.name != f.name ==> FieldValue(WithField(o, f.name, v), g) == FieldValue(o, g)
  {
  }

  /** The child of a @Persist field regenerated with the strategy FieldStrategy picks. */
  function RegenValueF(classes: ClassTable, toplevels: map<ItemID, Element>, k: Kind, e: Element, fuel: nat, s: RState)
    : (r: Result<Regenerated>)
    requires Live(s) && WellKeyed(toplevels)
    ensures r.Ok? ==> Advanced(s, r.value.state, -1) && FitsKind(k, r.value.value)
                      && (r.value.value.RefV? ==> r.value.value.r < |r.value.state.arena|)
    decreases fuel, 4
  {
    match FieldStrategy(k, e)
    case NullStrategy =>
      (match NullRegenerate(e)
       case Ok(v) => Ok(Regenerated(v, s))
       case Err(failure) => Err(failure))
    case PrimitiveStrategy =>
      var v :- PrimitiveRegenerate(k, e);
      Ok(Regenerated(v, s))
    case PersistableStrategy =>
      RegenObjectF(classes, toplevels, k.name, e, fuel, s)
  }

  /** PersistablePRStrategy.regenerate: verify the class, then go by the kind of element. */
  function RegenObjectF(classes: ClassTable, toplevels: map<ItemID, Element>, c: string, e: Element, fuel: nat, s: RState)
    : (r: Result<Regenerated>)
    requires Live(s) && WellKeyed(toplevels)
    ensures r.Ok? ==> Advanced(s, r.value.state, -1) && r.value.value.RefV? && r.value.value.r < |r.value.state.arena|
    decreases fuel, 3
  {
    var a :- VerifyAndGetPersistable(classes, c);
    match e
    case TextEl(_, text) => ReferenceF(classes, toplevels, c, a, text, fuel, s)
    case ToplevelEl(tag, id, _, children) => RegenToplevelF(classes, toplevels, c, a, tag, id, children, fuel, s)
    case ParentEl(_, children) => RegenNonToplevelF(classes, toplevels, c, a, children, fuel, s)
    case NullEl(_) => Err(RegenerationFailure(CannotRegenerateFrom))
  }

  /**
   * regenerateReference: the object registered under (tag, id) if there is
   * one, else the one regenerated from the toplevel element filed there,
   * else a missing reference.
   */
  function ReferenceF(classes: ClassTable, toplevels: map<ItemID, Element>, c: string, a: Annotation, id: string,
                      fuel: nat, s: RState): (r: Result<Regenerated>)
    requires Live(s) && WellKeyed(toplevels) && VerifyAndGetPersistable(classes, c) == Ok(a)
    ensures r.Ok? ==> Advanced(s, r.value.state, -1) && r.value.value.RefV? && r.value.value.r < |r.value.state.arena|
    decreases fuel, 2
  {
    var key := ItemID(a.tag, id);
    if !a.toplevel then Err(RegenerationFailure(ReferenceToNonToplevel))
    else if key in s.registry then Ok(Regenerated(RefV(s.registry[key]), s))
    else if key in toplevels then RegenToplevelF(classes, toplevels, c, a, a.tag, id, toplevels[key].children, fuel, s)
    else Err(RegenerationFailure(MissingReference(a.tag, id)))
  }

  /**
   * regenerateToplevel: a new object of the class with its id field set
   * from the element's id, registered under the element's (tag, id), and
   * only then filled in.
   */
  function RegenToplevelF(classes: ClassTable, toplevels: map<ItemID, Element>, c: string, a: Annotation,
                          tag: string, id: string, children: seq<Element>, fuel: nat, s: RState): (r: Result<Regenerated>)
    requires Live(s) && WellKeyed(toplevels) && VerifyAndGetPersistable(classes, c) == Ok(a)
    ensures r.Ok? ==> Advanced(s, r.value.state, -1) && r.value.value == RefV(|s.arena|)
                      && |s.arena| < |r.value.state.arena| && r.value.state.arena[|s.arena|].cls == c
    ensures r.Ok? ==> ItemID(tag, id) in r.value.state.registry
    decreases fuel, 1
  {
    if !a.toplevel then Err(RegenerationFailure(ToplevelToNonToplevel))
    else
      var ref := |s.arena|;
      var idValue :- ConformIdTo(IdField(classes, c, a).kind, id);
      var registered := RState(s.arena + [WithField(Obj(c, map[], ""), a.idField, idValue)], s.registry[ItemID(tag, id) := ref]);
      var filled :- FillF(classes, toplevels, FieldsToPersist(classes, c), 0, ref, children, fuel, registered);
      AdvancedTransitive(s, registered, filled, -1, ref);
      Ok(Regenerated(RefV(ref), filled))
  }

  /** regenerateNonToplevel: a new object of the class, filled in from the element's children. */
  function RegenNonToplevelF(classes: ClassTable, toplevels: map<ItemID, Element>, c: string, a: Annotation,
                             children: seq<Element>, fuel: nat, s: RState): (r: Result<Regenerated>)
    requires Live(s) && WellKeyed(toplevels) && VerifyAndGetPersistable(classes, c) == Ok(a)
    ensures r.Ok? ==> Advanced(s, r.value.state, -1) && r.value.value == RefV(|s.arena|)
                      && |s.arena| < |r.value.state.arena| && r.value.state.arena[|s.arena|].cls == c
    decreases fuel, 1
  {
    if a.toplevel then Err(RegenerationFailure(NonToplevelToToplevel))
    else
      var ref := |s.arena|;
      var made := RState(s.arena + [Obj(c, map[], "")], s.registry);
      var filled :- FillF(classes, toplevels, FieldsToPersist(classes, c), 0, ref, children, fuel, made);
      AdvancedTransitive(s, made, filled, -1, ref);
      Ok(Regenerated(RefV(ref), filled))
  }

  /**
   * fillInRegenerated from field `i` on: each @Persist field needs exactly
   * one child under its tag, which is regenerated and stored in the field.
   */
  function FillF(classes: ClassTable, toplevels: map<ItemID, Element>, fields: seq<FieldDecl>, i: nat, ref: Ref,
                 children: seq<Element>, fuel: nat, s: RState): (r: Result<RState>)
    requires i <= |fields| && forall j :: 0 <= j < |fields| ==> fields[j].persist.Some?
    requires Live(s) && WellKeyed(toplevels) && ref < |s.arena|
    ensures r.Ok? ==> Advanced(s, r.value, ref) && r.value.arena[ref].cls == s.arena[ref].cls
    decreases fuel, 0, |fields| - i
  {
    if i == |fields| then Ok(s)
    else
      var tag := fields[i].persist.value;
      var matching := ChildrenByTag(children, tag);
      if |matching| == 0 then Err(RegenerationFailure(MissingChild(tag)))
      else if |matching| > 1 then Err(RegenerationFailure(MultipleChildren(tag)))
      else
        var next :- FillFieldF(classes, toplevels, ref, fields[i], matching[0], fuel, s);
        var rest :- FillF(classes, toplevels, fields, i + 1, ref, children, fuel, next);
        AdvancedTransitive(s, next, rest, ref, ref);
        Ok(rest)
  }

  /** One step of FillF: the children under field `i`'s tag decide, and one child goes on from the state it leaves. */
  lemma FillFStep(classes: ClassTable, toplevels: map<ItemID, Element>, fields: seq<FieldDecl>, i: nat, ref: Ref,
                  children: seq<Element>, fuel: nat, s: RState)
    requires i < |fields| && forall j :: 0 <= j < |fields| ==> fields[j].persist.Some?
    requires Live(s) && WellKeyed(toplevels) && ref < |s.arena|
    ensures var tag := fields[i].persist.value;
            |ChildrenByTag(children, tag)| == 0 ==>
              FillF(classes, toplevels, fields, i, ref, children, fuel, s) == Err(RegenerationFailure(MissingChild(tag)))
    ensures var tag := fields[i].persist.value;
            |ChildrenByTag(children, tag)| > 1 ==>
              FillF(classes, toplevels, fields, i, ref, children, fuel, s) == Err(RegenerationFailure(MultipleChildren(tag)))
    ensures var matching := ChildrenByTag(children, fields[i].persist.value);
            |matching| == 1 ==>
              var next := FillFieldF(classes, toplevels, ref, fields[i], matching[0], fuel, s);
              (next.Err? ==> FillF(classes, toplevels, fields, i, ref, children, fuel, s) == Err(next.failure))
              && (next.Ok? ==> FillF(classes, toplevels, fields, i, ref, children, fuel, s)
                               == FillF(classes, toplevels, fields, i + 1, ref, children, fuel, next.value))
  {
  }

  /**
   * One field of fillInRegenerated: the child regenerated and stored with
   * Field.set, which refuses null for a primitive field.
   */
  function FillFieldF(classes: ClassTable, toplevels: map<ItemID, Element>, ref: Ref, f: FieldDecl, child: Element,
                      fuel: nat, s: RState): (r: Result<RState>)
    requires Live(s) && WellKeyed(toplevels) && ref < |s.arena|
    ensures r.Ok? ==> Advanced(s, r.value, ref) && r.value.arena[ref].cls == s.arena[ref].cls
    decreases fuel, 0, 0
  {
    if fuel == 0 then Err(StackOverflow)
    else
      var out :- RegenValueF(classes, toplevels, f.kind, child, fuel - 1, s);
      if out.value.NullV? && f.kind.IsPrimitive() then Err(IllegalArgument)
      else
        var arena := out.state.arena;
        Ok(RState(arena[ref := WithField(arena[ref], f.name, out.value)], out.state.registry))
  }

  /**
   * The regenerating state (RegenState: the toplevel list read from the
   * document and the registry of regenerated toplevel objects) and the
   * objects regenerated so far. `toplevels` is the list's contents as
   * values; regenerating never changes the list.
   */
  class Regenerating {
    const classes: ClassTable
    const list: ToplevelList
    ghost const toplevels: map<ItemID, Element>
    const registry: RegenToplevelRegistry
    var arena: seq<Obj>

    /** The state as the reference functions see it. */
    ghost function Now(): RState
      reads this, registry
    {
      RState(arena, registry.objects)
    }

    /** The list is well keyed and holds `toplevels`, and every registered object exists. */
    ghost predicate Ready()
      reads this, registry, list, list.entries.Values
    {
      list.Valid() && toplevels == list.Contents() && Live(Now())
    }

    /** A regeneration came out as its reference function says: the same outcome, value and state. */
    ghost predicate Agrees(r: Result<Value>, f: Result<Regenerated>)
      reads this, registry
    {
      (r.Ok? <==> f.Ok?) && (r.Err? ==> r.failure == f.failure)
      && (r.Ok? ==> r.value == f.value.value && Now() == f.value.state)
    }

    /** A filling step came out as its reference function says. */
    ghost predicate StepAgrees(r: Result<()>, f: Result<RState>)
      reads this, registry
    {
      (r.Ok? <==> f.Ok?) && (r.Err? ==> r.failure == f.failure) && (r.Ok? ==> Now() == f.value)
    }

    /** new RegenState(): the list read from the document, an empty registry, and no objects yet. */
    constructor(classes: ClassTable, list: ToplevelList)
      requires list.Valid()
      ensures this.classes == classes && this.list == list && toplevels == list.Contents()
      ensures fresh(registry) && registry.objects == map[] && arena == []
      ensures Ready()
    {
      this.classes := classes;
      this.list := list;
      this.toplevels := list.Contents();
      this.registry := new RegenToplevelRegistry();
      this.arena := [];
    }

    /** Objenesis.newInstance: a new object of class `c` with every field at its default. */
    method Instantiate(c: string) returns (ref: Ref)
      requires Ready()
      modifies this
      ensures Ready() && ref == |old(arena)| && arena == old(arena) + [Obj(c, map[], "")]
    {
      ref := |arena|;
      arena := arena + [Obj(c, map[], "")];
    }

    /** Field.set of a value the field's type admits. */
    method SetField(ref: Ref, name: string, v: Value)
      requires Ready() && ref < |arena|
      modifies this
      ensures Ready() && arena == old(arena)[ref := WithField(old(arena)[ref], name, v)]
    {
      arena := arena[ref := WithField(arena[ref], name, v)];
    }

    /**
     * The child of a @Persist field regenerated with the strategy FieldStrategy
     * picks. `fuel` bounds the depth of the recursion.
     */
    method RegenerateValue(k: Kind, e: Element, fuel: nat) returns (r: Result<Value>)
      requires Ready()
      modifies this, registry
      decreases fuel, 4
      ensures Ready() && Agrees(r, RegenValueF(classes, toplevels, k, e, fuel, old(Now())))
    {
      match FieldStrategy(k, e)
      case NullStrategy =>
        r := NullRegenerate(e);
      case PrimitiveStrategy =>
        r := PrimitiveRegenerate(k, e);
      case PersistableStrategy =>
        r := RegenerateObject(k.name, e, fuel);
    }

    /** PersistablePRStrategy.regenerate: verify the class, then go by the kind of element. */
    method RegenerateObject(c: string, e: Element, fuel: nat) returns (r: Result<Value>)
      requires Ready()
      modifies this, registry
      decreases fuel, 3
      ensures Ready() && Agrees(r, RegenObjectF(classes, toplevels, c, e, fuel, old(Now())))
    {
      var a :- VerifyAndGetPersistable(classes, c);
      match e
      case TextEl(_, text) =>
        r := Reference(c, a, text, fuel);
      case ToplevelEl(tag, id, _, children) =>
        r := RegenerateToplevel(c, a, tag, id, children, fuel);
      case ParentEl(_, children) =>
        r := RegenerateNonToplevel(c, a, children, fuel);
      case NullEl(_) =>
        r := Err(RegenerationFailure(CannotRegenerateFrom));
    }

    /**
     * regenerateReference: the object already registered under (tag, id) if
     * there is one, else the one regenerated from the toplevel element filed
     * there, else a missing reference.
     */
    method Reference(c: string, a: Annotation, id: string, fuel: nat) returns (r: Result<Value>)
      requires Ready() && VerifyAndGetPersistable(classes, c) == Ok(a)
      modifies this, registry
      decreases fuel, 2
      ensures Ready() && Agrees(r, ReferenceF(classes, toplevels, c, a, id, fuel, old(Now())))
    {
      if !a.toplevel {
        return Err(RegenerationFailure(ReferenceToNonToplevel));
      }
      var known := registry.Get(a.tag, id);
      if known.Some? {
        return Ok(RefV(known.value));
      }
      var element := list.GetElement(a.tag, id);
      if element == null {
        return Err(RegenerationFailure(MissingReference(a.tag, id)));
      }
      r := RegenerateToplevel(c, a, element.tag, element.id.value, element.children, fuel);
    }

    /**
     * regenerateToplevel: a new object of the class, its id field set from
     * the element's id, registered under the element's (tag, id) before its
     * other fields are filled in, so that references back to it resolve.
     */
    method RegenerateToplevel(c: string, a: Annotation, tag: string, id: string, children: seq<Element>, fuel: nat)
      returns (r: Result<Value>)
      requires Ready() && VerifyAndGetPersistable(classes, c) == Ok(a)
      modifies this, registry
      decreases fuel, 1
      ensures Ready() && Agrees(r, RegenToplevelF(classes, toplevels, c, a, tag, id, children, fuel, old(Now())))
    {
      if !a.toplevel {
        return Err(RegenerationFailure(ToplevelToNonToplevel));
      }
      var ref := Instantiate(c);
      var idValue :- ConformIdTo(IdField(classes, c, a).kind, id);
      SetIdAndRegister(ref, a.idField, tag, id, idValue);
      assert arena == old(arena) + [WithField(Obj(c, map[], ""), a.idField, idValue)];
      var filled := Fill(c, ref, children, fuel);
      if filled.Err? {
        return Err(filled.failure);
      }
      r := Ok(RefV(ref));
    }

    /** The new object's id field set, and the object registered under the element's (tag, id). */
    method SetIdAndRegister(ref: Ref, idField: string, tag: string, id: string, idValue: Value)
      requires Ready() && ref < |arena|
      modifies this, registry
      ensures Ready() && arena == old(arena)[ref := WithField(old(arena)[ref], idField, idValue)]
      ensures registry.objects == old(registry.objects)[ItemID(tag, id) := ref]
    {
      SetField(ref, idField, idValue);
      var _ := registry.Register(tag, id, Some(ref));
    }

    /** regenerateNonToplevel: a new object of the class, filled in from the element's children. */
    method RegenerateNonToplevel(c: string, a: Annotation, children: seq<Element>, fuel: nat) returns (r: Result<Value>)
      requires Ready() && VerifyAndGetPersistable(classes, c) == Ok(a)
      modifies this, registry
      decreases fuel, 1
      ensures Ready() && Agrees(r, RegenNonToplevelF(classes, toplevels, c, a, children, fuel, old(Now())))
    {
      if a.toplevel {
        return Err(RegenerationFailure(NonToplevelToToplevel));
      }
      var ref := Instantiate(c);
      var filled := Fill(c, ref, children, fuel);
      if filled.Err? {
        return Err(filled.failure);
      }
      r := Ok(RefV(ref));
    }

    /**
     * fillInRegenerated: for each @Persist field in order, the one child under
     * its tag (none or several is an error) regenerated into the field.
     */
    method Fill(c: string, ref: Ref, children: seq<Element>, fuel: nat) returns (r: Result<()>)
      requires Ready() && ref < |arena|
      modifies this, registry
      decreases fuel, 0, 1
      ensures Ready() && StepAgrees(r, FillF(classes, toplevels, FieldsToPersist(classes, c), 0, ref, children, fuel, old(Now())))
    {
      var fields := FieldsToPersist(classes, c);
      ghost var whole := FillF(classes, toplevels, fields, 0, ref, children, fuel, Now());
      var i := 0;
      while i < |fields|
        invariant 0 <= i <= |fields|
        invariant Ready() && ref < |arena|
        invariant whole == FillF(classes, toplevels, fields, i, ref, children, fuel, Now())
      {
        FillFStep(classes, toplevels, fields, i, ref, children, fuel, Now());
        var tag := fields[i].persist.value;
        var matching := ChildrenByTag(children, tag);
        if |matching| == 0 {
          return Err(RegenerationFailure(MissingChild(tag)));
        } else if |matching| > 1 {
          return Err(RegenerationFailure(MultipleChildren(tag)));
        }
        var filled := FillField(ref, fields[i], matching[0], fuel);
        if filled.Err? {
          return filled;
        }
        i := i + 1;
      }
      r := Ok(());
    }

    /** One iteration of fillInRegenerated: the field's one child regenerated and stored with Field.set. */
    method FillField(ref: Ref, f: FieldDecl, child: Element, fuel: nat) returns (r: Result<()>)
      requires Ready() && ref < |arena|
      modifies this, registry
      decreases fuel, 0, 0
      ensures Ready() && StepAgrees(r, FillFieldF(classes, toplevels, ref, f, child, fuel, old(Now())))
    {
      if fuel == 0 {
        return Err(StackOverflow);
      }
      var regenerated := RegenerateValue(f.kind, child, fuel - 1);
      if regenerated.Err? {
        return Err(regenerated.failure);
      }
      if regenerated.value.NullV? && f.kind.IsPrimitive() {
        // Field.set refuses null for a primitive field
        return Err(IllegalArgument);
      }
      SetField(ref, f.name, regenerated.value);
      r := Ok(());
    }
  }

  // ---- what the reference semantics promise ----

  /**
   * regenerate by element kind: an ill-formed class fails with
   * verifyAndGetPersistable's error; a null element cannot be regenerated; a
   * toplevel element needs a toplevel class and a plain parent element a
   * non-toplevel one; a reference to a non-toplevel class fails.
   */
  lemma RegenObjectErrors(classes: ClassTable, toplevels: map<ItemID, Element>, c: string, e: Element, fuel: nat, s: RState)
    requires Live(s) && WellKeyed(toplevels)
    ensures !WellFormedPersistable(classes, c) ==>
              RegenObjectF(classes, toplevels, c, e, fuel, s) == Err(VerifyAndGetPersistable(classes, c).failure)
    ensures WellFormedPersistable(classes, c) ==>
              var a := classes[c].annotation.value;
              (e.NullEl? ==> RegenObjectF(classes, toplevels, c, e, fuel, s) == Err(RegenerationFailure(CannotRegenerateFrom)))
              && (e.ToplevelEl? && !a.toplevel ==> RegenObjectF(classes, toplevels, c, e, fuel, s) == Err(RegenerationFailure(ToplevelToNonToplevel)))
              && (e.ParentEl? && a.toplevel ==> RegenObjectF(classes, toplevels, c, e, fuel, s) == Err(RegenerationFailure(NonToplevelToToplevel)))
              && (e.TextEl? && !a.toplevel ==> RegenObjectF(classes, toplevels, c, e, fuel, s) == Err(RegenerationFailure(ReferenceToNonToplevel)))
  {
  }

  /**
   * regenerateReference: the registry is consulted first and a hit is the
   * very object registered, with nothing else changed; otherwise the toplevel
   * element filed under (tag, id) is regenerated; otherwise the reference
   * does not exist.
   */
  lemma ReferenceResolves(classes: ClassTable, toplevels: map<ItemID, Element>, c: string, a: Annotation, id: string,
                          fuel: nat, s: RState)
    requires Live(s) && WellKeyed(toplevels) && VerifyAndGetPersistable(classes, c) == Ok(a) && a.toplevel
    ensures ItemID(a.tag, id) in s.registry ==>
              ReferenceF(classes, toplevels, c, a, id, fuel, s) == Ok(Regenerated(RefV(s.registry[ItemID(a.tag, id)]), s))
    ensures ItemID(a.tag, id) !in s.registry && ItemID(a.tag, id) in toplevels ==>
              toplevels[ItemID(a.tag, id)].ToplevelEl?
              && ReferenceF(classes, toplevels, c, a, id, fuel, s)
                 == RegenObjectF(classes, toplevels, c, toplevels[ItemID(a.tag, id)], fuel, s)
    ensures ItemID(a.tag, id) !in s.registry && ItemID(a.tag, id) !in toplevels ==>
              ReferenceF(classes, toplevels, c, a, id, fuel, s) == Err(RegenerationFailure(MissingReference(a.tag, id)))
  {
    var key := ItemID(a.tag, id);
    if key !in s.registry && key in toplevels {
      var e := toplevels[key];
      assert e.ToplevelEl? && e.tag == a.tag && e.id == id;
    }
  }

  /** The state a toplevel object is filled in from: the new object, with its id set, already registered. */
  function Registered(classes: ClassTable, c: string, a: Annotation, tag: string, id: string, idValue: Value, s: RState): (t: RState)
    ensures |t.arena| == |s.arena| + 1 && t.arena[..|s.arena|] == s.arena
    ensures ItemID(tag, id) in t.registry && t.registry[ItemID(tag, id)] == |s.arena|
    ensures forall k :: k in s.registry && k != ItemID(tag, id) ==> k in t.registry && t.registry[k] == s.registry[k]
  {
    RState(s.arena + [WithField(Obj(c, map[], ""), a.idField, idValue)], s.registry[ItemID(tag, id) := |s.arena|])
  }

  /**
   * Register before fill: a toplevel object is filled in from a state where
   * it already exists, holds its converted id and is registered under the
   * element's (tag, id), so a reference back to it met while filling it in
   * resolves to this very object, at any depth, and changes nothing.
   */
  lemma RegisteredBeforeFill(classes: ClassTable, toplevels: map<ItemID, Element>, c: string, a: Annotation,
                             id: string, children: seq<Element>, fuel: nat, depth: nat, s: RState)
    requires Live(s) && WellKeyed(toplevels) && VerifyAndGetPersistable(classes, c) == Ok(a) && a.toplevel
    requires ConformIdTo(IdField(classes, c, a).kind, id).Ok?
    ensures var t := Registered(classes, c, a, a.tag, id, ConformIdTo(IdField(classes, c, a).kind, id).value, s);
            Live(t) && t.arena[|s.arena|].cls == c
            && t.arena[|s.arena|].fields == map[a.idField := ConformIdTo(IdField(classes, c, a).kind, id).value]
            && RegenToplevelF(classes, toplevels, c, a, a.tag, id, children, fuel, s)
               == (var filled :- FillF(classes, toplevels, FieldsToPersist(classes, c), 0, |s.arena|, children, fuel, t);
                   Ok(Regenerated(RefV(|s.arena|), filled)))
            && ReferenceF(classes, toplevels, c, a, id, depth, t) == Ok(Regenerated(RefV(|s.arena|), t))
  {
  }

  /** A regenerated toplevel object holds, in its id field, the element's id read back as the field's type, unless a @Persist field of the same name overwrites it. */
  lemma ToplevelIdField(classes: ClassTable, toplevels: map<ItemID, Element>, c: string, a: Annotation,
                        tag: string, id: string, children: seq<Element>, fuel: nat, s: RState)
    requires Live(s) && WellKeyed(toplevels) && VerifyAndGetPersistable(classes, c) == Ok(a)
    requires RegenToplevelF(classes, toplevels, c, a, tag, id, children, fuel, s).Ok?
    requires forall f :: f in FieldsToPersist(classes, c) ==> f.name != a.idField
    ensures var t := RegenToplevelF(classes, toplevels, c, a, tag, id, children, fuel, s).value.state;
            a.toplevel && ConformIdTo(IdField(classes, c, a).kind, id).Ok?
            && a.idField in t.arena[|s.arena|].fields
            && t.arena[|s.arena|].fields[a.idField] == ConformIdTo(IdField(classes, c, a).kind, id).value
  {
    var idValue := ConformIdTo(IdField(classes, c, a).kind, id).value;
    var t := Registered(classes, c, a, tag, id, idValue, s);
    FillKeepsOtherFields(classes, toplevels, FieldsToPersist(classes, c), 0, |s.arena|, children, fuel, t, a.idField);
  }

  /** Filling leaves alone every field that no visited @Persist field names. */
  lemma {:induction false} FillKeepsOtherFields(classes: ClassTable, toplevels: map<ItemID, Element>, fields: seq<FieldDecl>,
                                                i: nat, ref: Ref, children: seq<Element>, fuel: nat, s: RState, name: string)
    requires i <= |fields| && forall j :: 0 <= j < |fields| ==> fields[j].persist.Some?
    requires Live(s) && WellKeyed(toplevels) && ref < |s.arena|
    requires FillF(classes, toplevels, fields, i, ref, children, fuel, s).Ok?
    requires forall j :: i <= j < |fields| ==> fields[j].name != name
    requires name in s.arena[ref].fields
    ensures var t := FillF(classes, toplevels, fields, i, ref, children, fuel, s).value;
            name in t.arena[ref].fields && t.arena[ref].fields[name] == s.arena[ref].fields[name]
    decreases |fields| - i
  {
    if i < |fields| {
      var matching := ChildrenByTag(children, fields[i].persist.value);
      var next := FillFieldF(classes, toplevels, ref, fields[i], matching[0], fuel, s).value;
      FieldStoresChild(classes, toplevels, ref, fields[i], matching[0], fuel, s);
      FillKeepsOtherFields(classes, toplevels, fields, i + 1, ref, children, fuel, next, name);
    }
  }

  /**
   * One field filled in: the child is regenerated at one level less, and
   * the field then holds exactly what came back, a value its type admits
   * (never null for a primitive field); the other fields of the object are
   * untouched.
   */
  lemma FieldStoresChild(classes: ClassTable, toplevels: map<ItemID, Element>, ref: Ref, f: FieldDecl, child: Element,
                         fuel: nat, s: RState)
    requires Live(s) && WellKeyed(toplevels) && ref < |s.arena|
    requires FillFieldF(classes, toplevels, ref, f, child, fuel, s).Ok?
    ensures fuel > 0 && RegenValueF(classes, toplevels, f.kind, child, fuel - 1, s).Ok?
    ensures var out := RegenValueF(classes, toplevels, f.kind, child, fuel - 1, s).value;
            var t := FillFieldF(classes, toplevels, ref, f, child, fuel, s).value;
            f.name in t.arena[ref].fields && t.arena[ref].fields[f.name] == out.value
            && FitsKind(f.kind, out.value) && !(out.value.NullV? && f.kind.IsPrimitive())
            && t.registry == out.state.registry
            && forall n :: n in s.arena[ref].fields && n != f.name ==> n in t.arena[ref].fields && t.arena[ref].fields[n] == s.arena[ref].fields[n]
  {
  }

  /** Field.set refuses null for a primitive field: a null element under an int field fails with IllegalArgumentException. */
  lemma NullIntoPrimitiveRefused(classes: ClassTable, toplevels: map<ItemID, Element>, ref: Ref, f: FieldDecl, tag: string,
                                 fuel: nat, s: RState)
    requires Live(s) && WellKeyed(toplevels) && ref < |s.arena| && fuel > 0
    requires f.kind.IsPrimitive()
    ensures FillFieldF(classes, toplevels, ref, f, NullEl(tag), fuel, s) == Err(IllegalArgument)
  {
  }

  /** The fields of `fields[i..]` each had exactly one child under their tag. */
  predicate OneChildEach(children: seq<Element>, fields: seq<FieldDecl>, i: nat)
    requires forall j :: 0 <= j < |fields| ==> fields[j].persist.Some?
  {
    forall j :: i <= j < |fields| ==> |ChildrenByTag(children, fields[j].persist.value)| == 1
  }

  /**
   * fillInRegenerated succeeds only when every @Persist field had exactly
   * one child under its tag, and then every field is set to a value its type
   * admits; the object keeps its class.
   */
  lemma {:induction false} FillSetsEveryField(classes: ClassTable, toplevels: map<ItemID, Element>, fields: seq<FieldDecl>,
                                              i: nat, ref: Ref, children: seq<Element>, fuel: nat, s: RState)
    requires i <= |fields| && forall j :: 0 <= j < |fields| ==> fields[j].persist.Some?
    requires forall j, l :: 0 <= j < l < |fields| ==> fields[j].name != fields[l].name
    requires Live(s) && WellKeyed(toplevels) && ref < |s.arena|
    requires FillF(classes, toplevels, fields, i, ref, children, fuel, s).Ok?
    ensures OneChildEach(children, fields, i)
    ensures var o := FillF(classes, toplevels, fields, i, ref, children, fuel, s).value.arena[ref];
            o.cls == s.arena[ref].cls
            && forall j :: i <= j < |fields| ==>
                 (fields[j].name in o.fields && FitsKind(fields[j].kind, o.fields[fields[j].name])
                  && !(o.fields[fields[j].name].NullV? && fields[j].kind.IsPrimitive()))
    decreases |fields| - i
  {
    if i < |fields| {
      var matching := ChildrenByTag(children, fields[i].persist.value);
      var next := FillFieldF(classes, toplevels, ref, fields[i], matching[0], fuel, s).value;
      FieldStoresChild(classes, toplevels, ref, fields[i], matching[0], fuel, s);
      FillSetsEveryField(classes, toplevels, fields, i + 1, ref, children, fuel, next);
      FillKeepsOtherFields(classes, toplevels, fields, i + 1, ref, children, fuel, next, fields[i].name);
    }
  }

  /** A field with no child under its tag, once reached, fails with "Cannot find element"; with several, with "Multiple elements". */
  lemma FillChildErrors(classes: ClassTable, toplevels: map<ItemID, Element>, fields: seq<FieldDecl>, i: nat, ref: Ref,
                        children: seq<Element>, fuel: nat, s: RState)
    requires i < |fields| && forall j :: 0 <= j < |fields| ==> fields[j].persist.Some?
    requires Live(s) && WellKeyed(toplevels) && ref < |s.arena|
    ensures var tag := fields[i].persist.value;
            (forall c :: c in children ==> c.tag != tag) ==>
              FillF(classes, toplevels, fields, i, ref, children, fuel, s) == Err(RegenerationFailure(MissingChild(tag)))
    ensures var tag := fields[i].persist.value;
            (exists j, l :: 0 <= j < l < |children| && children[j].tag == tag && children[l].tag == tag) ==>
              FillF(classes, toplevels, fields, i, ref, children, fuel, s) == Err(RegenerationFailure(MultipleChildren(tag)))
  {
    var tag := fields[i].persist.value;
    if forall c :: c in children ==> c.tag != tag {
      NoMatches(children, tag);
    }
    if j, l :| 0 <= j < l < |children| && children[j].tag == tag && children[l].tag == tag {
      TwoMatches(children, tag, j, l);
    }
  }

  /** No child under the tag leaves the filter by that tag empty. */
  lemma {:induction false} NoMatches(cs: seq<Element>, tag: string)
    requires forall c :: c in cs ==> c.tag != tag
    ensures ChildrenByTag(cs, tag) == []
    decreases |cs|
  {
    if cs != [] {
      assert forall c :: c in cs[1..] ==> c in cs;
      NoMatches(cs[1..], tag);
    }
  }

  /** Two children under one tag make the filter by that tag hold at least two. */
  lemma {:induction false} TwoMatches(cs: seq<Element>, tag: string, j: nat, l: nat)
    requires j < l < |cs| && cs[j].tag == tag && cs[l].tag == tag
    ensures |ChildrenByTag(cs, tag)| >= 2
    decreases |cs|
  {
    if j == 0 {
      assert cs[l] == cs[1..][l - 1];
      assert cs[l] in ChildrenByTag(cs[1..], tag);
    } else {
      assert cs[j] == cs[1..][j - 1] && cs[l] == cs[1..][l - 1];
      TwoMatches(cs[1..], tag, j - 1, l - 1);
    }
  }
}
