/**
 * What reflection tells the library, written out as data: class
 * descriptors with their fields and annotations, and the object graph as an
 * arena of references.
 */
module Descriptors {
  import opened Failures

  /** A field's declared type: a primitive, String, or some other class by name. */
  datatype Kind = BoolK | ByteK | CharK | ShortK | IntK | LongK | StringK | ClassK(name: string)
  {
    /** Class.isPrimitive() || cls.equals(String.class) */
    predicate IsPrimitiveOrString() { !ClassK? }

    /** Class.isPrimitive(): a field of such a type cannot hold null. */
    predicate IsPrimitive() { !ClassK? && !StringK? }
  }

  /** A declared field; `persist` is the value of its @Persist annotation, if it has one. */
  datatype FieldDecl = FieldDecl(name: string, kind: Kind, persist: Option<string>)

  /** The @Persistable annotation with its defaults written out (toplevel=false, idField="", tag=""). */
  datatype Annotation = Annotation(toplevel: bool, idField: string, tag: string)

  /**
   * A class: its own declared fields in order, the names of its superclasses
   * nearest first (stopping before Object), and the @Persistable annotation it
   * carries or inherits (the annotation is @Inherited).
   */
  datatype ClassDecl = ClassDecl(fields: seq<FieldDecl>, supers: seq<string>, annotation: Option<Annotation>)

  type ClassTable = map<string, ClassDecl>

  /** The declared fields of the classes named, in order; unknown names contribute none. */
  function FieldsOf(classes: ClassTable, names: seq<string>): seq<FieldDecl>
  {
    if names == [] then []
    else (if names[0] in classes then classes[names[0]].fields else []) + FieldsOf(classes, names[1..])
  }

  /** getAllDeclaredFields: the class's own fields, then each superclass's, up to Object. */
  function AllDeclaredFields(classes: ClassTable, c: string): (fs: seq<FieldDecl>)
    ensures c !in classes ==> fs == []
    ensures c in classes ==> |classes[c].fields| <= |fs| && fs[..|classes[c].fields|] == classes[c].fields
  {
    if c in classes then classes[c].fields + FieldsOf(classes, classes[c].supers) else []
  }

  /** A field of any listed superclass is among the declared fields. */
  lemma {:induction false} FieldsOfContains(classes: ClassTable, names: seq<string>, s: string, f: FieldDecl)
    requires s in names && s in classes && f in classes[s].fields
    ensures f in FieldsOf(classes, names)
  {
    if names[0] != s {
      FieldsOfContains(classes, names[1..], s, f);
    }
  }

  /** getAllDeclaredFields reaches every field of the class and of each superclass it lists. */
  lemma AllDeclaredFieldsComplete(classes: ClassTable, c: string, s: string, f: FieldDecl)
    requires c in classes && (s == c || s in classes[c].supers) && s in classes && f in classes[s].fields
    ensures f in AllDeclaredFields(classes, c)
  {
    if s != c {
      FieldsOfContains(classes, classes[c].supers, s, f);
    }
  }

  /** The fields carrying @Persist, in the order populateStructure and fillInRegenerated visit them. */
  function PersistFields(fields: seq<FieldDecl>): (r: seq<FieldDecl>)
    ensures |r| <= |fields|
    ensures forall k :: 0 <= k < |r| ==> r[k].persist.Some? && r[k] in fields
  {
    if fields == [] then []
    else if fields[0].persist.Some? then [fields[0]] + PersistFields(fields[1..])
    else PersistFields(fields[1..])
  }

  /** No @Persist field is skipped: PersistFields keeps exactly the annotated fields. */
  lemma {:induction false} PersistFieldsComplete(fields: seq<FieldDecl>, f: FieldDecl)
    ensures f in PersistFields(fields) <==> f in fields && f.persist.Some?
  {
    if fields != [] {
      PersistFieldsComplete(fields[1..], f);
      assert fields == [fields[0]] + fields[1..];
    }
  }

  /** Filtering distributes over concatenation, so the @Persist fields keep their declaration order. */
  lemma {:induction false} PersistFieldsAppend(a: seq<FieldDecl>, b: seq<FieldDecl>)
    ensures PersistFields(a + b) == PersistFields(a) + PersistFields(b)
  {
    if a != [] {
      assert (a + b)[0] == a[0] && (a + b)[1..] == a[1..] + b;
      PersistFieldsAppend(a[1..], b);
    } else {
      assert a + b == b;
    }
  }

  /** Class.getDeclaredField(name) succeeds: a field of the class itself, not of a superclass. */
  predicate DeclaresField(classes: ClassTable, c: string, name: string)
  {
    c in classes && exists f :: f in classes[c].fields && f.name == name
  }

  /** The declared type of the class's own field `name` (the first one declared under that name). */
  function DeclaredFieldKind(fields: seq<FieldDecl>, name: string): (k: Option<Kind>)
    ensures k.Some? <==> exists f :: f in fields && f.name == name
    ensures k.Some? ==> exists f :: f in fields && f.name == name && f.kind == k.value
  {
    if fields == [] then None
    else if fields[0].name == name then Some(fields[0].kind)
    else DeclaredFieldKind(fields[1..], name)
  }

  // ---- the object graph ----

  /** The value of a primitive or String field. Integer values carry their Java width in the constructor. */
  datatype Prim = BoolP(b: bool) | ByteP(i: int) | CharP(c: char) | ShortP(i: int)
                | IntP(i: int) | LongP(i: int) | StrP(s: string)

  type Ref = nat

  /** A field value: null, a primitive or String, or a reference into the arena. */
  datatype Value = NullV | PrimV(p: Prim) | RefV(r: Ref)

  /**
   * An object: its runtime class, its field values by name, and the string its
   * toString() returns (foreign code, so it is given, not computed).
   */
  datatype Obj = Obj(cls: string, fields: map<string, Value>, display: string)

  type Heap = map<Ref, Obj>

  /** The value a freshly allocated object (Objenesis, no constructor run) holds in a field. */
  function Default(k: Kind): Value
  {
    match k
    case BoolK => PrimV(BoolP(false))
    case ByteK => PrimV(ByteP(0))
    case CharK => PrimV(CharP('\0'))
    case ShortK => PrimV(ShortP(0))
    case IntK => PrimV(IntP(0))
    case LongK => PrimV(LongP(0))
    case StringK => NullV
    case ClassK(_) => NullV
  }

  /** Field.get: the stored value, or the default when the object never had it set. */
  function FieldValue(o: Obj, f: FieldDecl): Value
  {
    if f.name in o.fields then o.fields[f.name] else Default(f.kind)
  }

  /** The object is an instance of `c`: its runtime class or one of that class's superclasses. */
  predicate IsInstance(classes: ClassTable, o: Obj, c: string)
  {
    o.cls == c || (o.cls in classes && c in classes[o.cls].supers)
  }
}
