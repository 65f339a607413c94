/**
 * Outcomes of the library's operations. Java exceptions become the `Err`
 * case of `Result`, so that every error path the library has is modelled
 * instead of being excluded by a precondition.
 */
module Failures {

  datatype Option<T> = None | Some(value: T)

  /** What a call produced: its value, or the exception it threw. */
  datatype Result<T> = Ok(value: T) | Err(failure: Failure)
  {
    predicate IsFailure() { Err? }

    function PropagateFailure<U>(): Result<U>
      requires Err?
    {
      Err(failure)
    }

    function Extract(): T
      requires Ok?
    {
      value
    }
  }

  /** The exception classes the library throws or lets escape. */
  datatype Failure =
    | PersistenceFailure(cause: Cause)   // PersistenceException (unchecked)
    | RegenerationFailure(cause: Cause)  // RegenerationException (checked)
    | NullPointer                        // NullPointerException
    | IllegalArgument                    // IllegalArgumentException
    | IllegalState                       // IllegalStateException, and heaps Java's typing rules out
    | NumberFormat                       // NumberFormatException escaping the id conversion
    | IndexOutOfBounds                   // StringIndexOutOfBoundsException from charAt(0)
    | StackOverflow                      // StackOverflowError: the recursion ran past its depth bound

  /** The message an exception carries, one constructor per distinct message. */
  datatype Cause =
    // PersistenceUtil.verifyAndGetPersistable
    | NotPersistable(cls: string)
    | MissingToplevelTag(cls: string)
    | InvalidToplevelTag(cls: string)
    | MissingIdField(cls: string)
    | UnknownIdField(cls: string)
    // PersistedElement constructor
    | InvalidTagName(tag: string)
    // PersistablePRStrategy.populateStructure and DuplicatePersistableChecker
    | DuplicatePersistValue(tag: string)
    | DuplicatePersistableTag(tag: string)
    // XmlPersistor constructor
    | RootNotToplevel(cls: string)
    // regeneration strategies
    | NeedTextElement
    | CharLength
    | BadNumberFormat(text: string)
    | NeedNullElement
    | CannotRegenerateFrom
    | ReferenceToNonToplevel
    | MissingReference(name: string, id: string)
    | ToplevelToNonToplevel
    | NonToplevelToToplevel
    | MissingChild(tag: string)
    | MultipleChildren(tag: string)
    | UnconvertibleId(id: string)
    // fromXmlElement of the element kinds
    | MissingIdAttribute
    | TextHasChildren
    | TextHasAttributes
    | NullHasChildren
    | NullHasText
    | NullMissingAttribute
    | NullTooManyAttributes
    // XmlPersistor.fromXml
    | MultipleRoots
    | NoRoot
}
