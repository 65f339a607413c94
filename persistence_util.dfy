/**
 * PersistenceUtil: the @Persistable well-formedness check and the choice of
 * persist/regenerate strategy.
 */
module PersistenceUtil {
  import opened Failures
  import opened XmlNames
  import opened Descriptors

  /** verifyAndGetPersistable: the class's annotation, or the first rule it breaks. */
  function VerifyAndGetPersistable(classes: ClassTable, c: string): (r: Result<Annotation>)
    ensures r.Ok? <==> WellFormedPersistable(classes, c)
    ensures r.Ok? ==> classes[c].annotation == Some(r.value)
    ensures r.Err? ==> r.failure.PersistenceFailure?
    ensures c !in classes || classes[c].annotation.None? ==> r == Err(PersistenceFailure(NotPersistable(c)))
    ensures (c in classes && classes[c].annotation.Some? && !classes[c].annotation.value.toplevel) ==> r.Ok?
  {
    if c !in classes || classes[c].annotation.None? then
      Err(PersistenceFailure(NotPersistable(c)))
    else
      var a := classes[c].annotation.value;
      if !a.toplevel then Ok(a)
      else if a.tag == "" then Err(PersistenceFailure(MissingToplevelTag(c)))
      else if !IsValidXmlTag(a.tag) then Err(PersistenceFailure(InvalidToplevelTag(c)))
      else if a.idField == "" then Err(PersistenceFailure(MissingIdField(c)))
      else if !DeclaresField(classes, c, a.idField) then Err(PersistenceFailure(UnknownIdField(c)))
      else Ok(a)
  }

  /**
   * The rules a @Persistable class must follow: annotated, and when toplevel a
   * non-empty valid tag and a non-empty idField naming one of its own fields.
   */
  predicate WellFormedPersistable(classes: ClassTable, c: string)
  {
    c in classes && classes[c].annotation.Some?
    && var a := classes[c].annotation.value;
       a.toplevel ==> a.tag != "" && IsValidXmlTag(a.tag) && a.idField != ""
                      && DeclaresField(classes, c, a.idField)
  }

  /** The three strategies (PersistRegenStrategy subclasses). */
  datatype Strategy = NullStrategy | PrimitiveStrategy | PersistableStrategy

  /** pickStrategy(cls): primitive or String gets the primitive strategy, anything else the persistable one. */
  function PickStrategyFor(k: Kind): (s: Strategy)
    ensures s != NullStrategy
    ensures s == PrimitiveStrategy <==> k.IsPrimitiveOrString()
  {
    if k.IsPrimitiveOrString() then PrimitiveStrategy else PersistableStrategy
  }

  /** pickStrategy(cls, obj): null gets the null strategy, otherwise as pickStrategy(cls). */
  function PickStrategy(k: Kind, v: Value): (s: Strategy)
    ensures s == NullStrategy <==> v.NullV?
    ensures !v.NullV? ==> s == PickStrategyFor(k)
  {
    if v.NullV? then NullStrategy else PickStrategyFor(k)
  }
}
