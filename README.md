# xml-persistence, modelled in Dafny

This project models the core of xml-persistence, a Java library that
persists an object graph to an XML document and regenerates it. The source
is `ca.keal.persistence`.

- Classes opt in with `@Persistable`; fields opt in with `@Persist("tag")`.
- A `toplevel` class has a `tag` and an `idField`. Its objects are written
  once, into a table of toplevel elements keyed by (tag, id). Every place that
  refers to such an object gets a text reference holding the id. This is what
  lets cyclic object graphs persist in finitely many steps.
- Other classes are written inline, as a parent element with one child per
  `@Persist` field.
- Primitives and `String` become text elements. `null` becomes a null element.

## How the model is organised

- **Value logic** is written as datatypes and functions:
  - the element kinds and their DOM conversions;
  - tag validation;
  - the primitive and null strategies;
  - `ItemID`;
  - `@Persistable` verification;
  - strategy choice.
- **Objects the library mutates** are classes with `modifies` clauses:
  - `ParentElement` / `ToplevelElement`;
  - `ToplevelList`, `RegenToplevelRegistry` and `DuplicatePersistableChecker`;
  - the persisting and regenerating engines.
- **Loops in the source** are `while` loops with invariants: populating,
  filling in, assembling the document, and loading it.
- **Reference functions.** Each engine method is proved against a function
  on values whose name ends in `F` (`PersistToplevelF`, `RegenToplevelF`,
  `FillF`, `LoadToplevelsF`, …). The method's `ensures` says that its result
  and its new state are what the function gives for the old state. The
  source's promises are then lemmas about the functions: re-entry,
  register-before-fill, the value stored in each field, the error cases,
  and the two self-referencing examples end to end.

Modules, one file each:

| file | module | what it holds |
|---|---|---|
| `failures.dfy` | `Failures` | `Result`/`Option`; each Java exception and message as a value |
| `xml_names.dfy` | `XmlNames` | `isValidXmlTag` and its pattern |
| `dom.dfy` | `Dom` | the DOM nodes the library reads and writes |
| `item_ids.dfy` | `ItemIds` | `ItemID`: constructor, `equals`, `hashCode` in 32-bit arithmetic |
| `descriptors.dfy` | `Descriptors` | what reflection reports: classes, fields, annotations, objects |
| `persistence_util.dfy` | `PersistenceUtil` | `verifyAndGetPersistable`, both `pickStrategy` overloads |
| `elements.dfy` | `Elements` | `PersistedElement` and its kinds as values; `toXmlElement` / `fromXmlElement` |
| `parent_element.dfy` | `ParentElements` | `ParentElement` / `ToplevelElement` as a mutable class |
| `tables.dfy` | `Tables` | `ToplevelList`, `RegenToplevelRegistry`, `DuplicatePersistableChecker` |
| `primitives.dfy` | `Primitives` | `PrimitivePRStrategy`, `NullPRStrategy`, `conformIdTo` |
| `persist_engine.dfy` | `PersistEngine` | the persisting half of `PersistablePRStrategy` |
| `regen_engine.dfy` | `RegenEngine` | the regenerating half of `PersistablePRStrategy` |
| `xml_persistor.dfy` | `XmlPersistence` | `XmlPersistor`: constructor, `toXml`, `fromXml` |
| `single_circle.dfy` | `SingleCircle` | the self-referencing toplevel example, persisted |
| `circle_regen.dfy` | `CircleRegen` | the self-referencing toplevel example, regenerated |

### Parameters and representations

Several things stand in for parts of the Java runtime:

- **Reflection** is replaced by a class table (`ClassTable`). It gives each
  class's declared fields in order, its superclasses, and its `@Persistable`
  annotation.
- **The object graph** is a heap of `Obj` values keyed by reference. Each
  `Obj` carries the string its `toString()` returns.
- **Regeneration** builds objects in an arena: a `seq<Obj>` indexed by
  reference.
- **Recursion depth.** Persisting and regenerating recurse through the object
  graph. The JVM stack bounds that recursion; here a `fuel` parameter does.
  Running out of fuel is `StackOverflow`, the model's `StackOverflowError`.
- **`ParentElement.fromXmlElement`** parses a toplevel element's children. It
  is not part of this model, and is the function parameter `parseChildren`.
- **`getChildrenByTag`** is not part of this model either. It becomes
  `Elements.ChildrenByTag`, an order-preserving filter by tag.
- **Code over tests.** Where the code and its tests disagree, the model
  follows the code. A malformed numeric id makes `conformIdTo`
  (PersistablePRStrategy.java:336-337) throw NumberFormatException, and
  `fromXml` only rewraps PersistenceException (XmlPersistor.java:159-162).
  So the model's `fromXml` fails with `NumberFormat` there, although the
  test `wrongIdTypeThrows` (XmlPersistorTest.java:621-627) expects a
  RegenerationException mentioning "Could not conform".

## Model

All paths are under `src/main/java/ca/keal/persistence/` unless they are test files.

| member | source | states |
|---|---|---|
| XmlNames.NameSpanRun | src/main/java/ca/keal/persistence/PersistenceUtil.java:11-15 | the greedy `[NameChar]*` run covers only name characters, and stops at the first non-name character or at the end |
| XmlNames.NameSpanOfRun | src/main/java/ca/keal/persistence/PersistenceUtil.java:11-15 | a run of name characters ending at a non-name character (or the end) is exactly what the scan skips |
| XmlNames.PatternFindsIffSomeMatch | src/main/java/ca/keal/persistence/PersistenceUtil.java:11-15 | the greedy scan finds the anchored pattern exactly when some split of the regular expression matches |
| XmlNames.ValidTagIff | src/main/java/ca/keal/persistence/PersistenceUtil.java:74-76 | `isValidXmlTag`: a tag is valid iff it is non-empty, does not start with lower-case "xml", and the pattern matches |
| XmlNames.StartsWithXmlIsPrefix | src/main/java/ca/keal/persistence/PersistenceUtil.java:75 | the "xml" test is exactly `startsWith("xml")`: "xml" is a prefix of the tag, case-sensitively |
| XmlNames.ValidTagHasNoSpace | src/main/java/ca/keal/persistence/PersistenceUtil.java:74-76 | a valid tag starts with a name-start character and contains no space |
| XmlNames.NameIsValidTag | src/main/java/ca/keal/persistence/PersistenceUtil.java:11-15 | a name-start character followed by name characters, without the "xml" prefix, is a valid tag |
| XmlNames.TrailingTerminatorAccepted | src/main/java/ca/keal/persistence/PersistenceUtil.java:11-15 | because of `\Z`, a valid name followed by one line terminator is also accepted |
| XmlNames.AcceptedTagExamples | src/test/java/ca/keal/persistence/PersistenceUtilTest.java:12-16 | "foo", "BaZ", "_0133", "____", "_", "a", "::", "a.b:c-d", "é" and "ñéá4à." are valid tags |
| XmlNames.RejectedTagExamples | src/test/java/ca/keal/persistence/PersistenceUtilTest.java:18-22 | "", "0", " ", "@", "xml", "0a", "7a", "\\", "xmlfoobar", "-d" and ".b" are not |
| XmlNames.RejectedInnerCharacterExamples | src/test/java/ca/keal/persistence/PersistenceUtilTest.java:18-22 | "a b" and "asfdijp^" are rejected for a character after the first |
| Dom.ElementChildren | src/main/java/ca/keal/persistence/XmlPersistor.java:126-129 | the children that are `Element`s: a node is kept iff it is among the children and is an element, and nothing is added |
| ItemIds.NewItemID | src/main/java/ca/keal/persistence/ItemID.java:12-18 | a null name or id throws NullPointerException; otherwise the pair is kept as given |
| ItemIds.Utf16 | src/main/java/ca/keal/persistence/ItemID.java:21-23 | the UTF-16 code units `String.hashCode` runs over: each unit is below 0x10000, and there is one unit per character exactly when every character is in the Basic Multilingual Plane |
| ItemIds.Utf16Append | src/main/java/ca/keal/persistence/ItemID.java:21-23 | the code units of a concatenation are the code units of the parts, in order |
| ItemIds.StringHash | src/main/java/ca/keal/persistence/ItemID.java:21-23 | `String.hashCode` always lies in the `int` range |
| ItemIds.StringHashShort | src/main/java/ca/keal/persistence/ItemID.java:21-23 | the empty string hashes to 0, and a one-character string to its character code |
| ItemIds.StringHashAppend | src/main/java/ca/keal/persistence/ItemID.java:21-23 | appending a character c gives `31 * h + c` wrapped to 32 bits, Java's recurrence for `hashCode` |
| ItemIds.HashCode | src/main/java/ca/keal/persistence/ItemID.java:21-23 | `37 * name.hashCode() * id.hashCode()` in 32-bit arithmetic always lies in the `int` range |
| ItemIds.EqualsContract | src/main/java/ca/keal/persistence/ItemID.java:26-30 | `equals`: equal exactly to an ItemID with the same name and id, never to another kind of object, and equal ItemIDs have equal hash codes |
| PersistenceUtil.VerifyAndGetPersistable | src/main/java/ca/keal/persistence/PersistenceUtil.java:33-69 | succeeds iff the class is well formed (annotated; when toplevel, a non-empty valid tag and a non-empty idField naming its own field), returning its annotation; a missing annotation gives "must be annotated"; a non-toplevel class is never checked further; every failure is a PersistenceException |
| PersistenceUtil.PickStrategy | src/main/java/ca/keal/persistence/PersistenceUtil.java:81-86 | the null strategy iff the value is null; otherwise the choice of the one-argument overload |
| PersistenceUtil.PickStrategyFor | src/main/java/ca/keal/persistence/PersistenceUtil.java:92-98 | the primitive strategy iff the type is primitive or String, the persistable strategy otherwise, never the null strategy |
| Descriptors.AllDeclaredFields | src/main/java/ca/keal/persistence/PersistablePRStrategy.java:120-131 | `getAllDeclaredFields` starts with the class's own declared fields, in order; an unknown class has none |
| Descriptors.AllDeclaredFieldsComplete | src/main/java/ca/keal/persistence/PersistablePRStrategy.java:120-131 | every field declared by the class or by any of its superclasses is among the fields returned |
| Descriptors.FieldsOfContains | src/main/java/ca/keal/persistence/PersistablePRStrategy.java:123-129 | walking the class chain collects every field of every class on it |
| Descriptors.PersistFields | src/main/java/ca/keal/persistence/PersistablePRStrategy.java:140-142 | only @Persist fields of the input are kept |
| Descriptors.PersistFieldsComplete | src/main/java/ca/keal/persistence/PersistablePRStrategy.java:140-142 | a field is visited iff it is declared and carries @Persist |
| Descriptors.PersistFieldsAppend | src/main/java/ca/keal/persistence/PersistablePRStrategy.java:140-142 | the @Persist filter keeps the order of the fields: filtering a concatenation concatenates the filtered parts |
| Descriptors.DeclaredFieldKind | src/main/java/ca/keal/persistence/PersistenceUtil.java:60-65 | a declared type is found iff the class itself declares a field of that name, and it is that field's type |
| PersistEngine.FieldsToPersist | src/main/java/ca/keal/persistence/PersistablePRStrategy.java:120-131 | the fields of the class and its superclasses that populateStructure visits all carry @Persist |
| PersistEngine.IdField | src/main/java/ca/keal/persistence/PersistablePRStrategy.java:77 | the id field is the one named by idField, with the type the class declares for it |
| PersistEngine.KeyOf | src/main/java/ca/keal/persistence/PersistablePRStrategy.java:74-79 | a toplevel object's key exists only for a well-formed class and a live object, and its name is the class's tag |
| Elements.NewNull | src/main/java/ca/keal/persistence/NullElement.java:18-20 | a null element exists iff its tag is valid, otherwise "invalid tag name" |
| Elements.NewText | src/main/java/ca/keal/persistence/TextElement.java:22-28 | an invalid tag fails first, then null text throws NullPointerException; otherwise the element holds the tag and text |
| Elements.NewToplevel | src/main/java/ca/keal/persistence/ToplevelElement.java:28-35 | an invalid tag fails first, then a null id throws NullPointerException; otherwise a childless toplevel element |
| Elements.ToXmlElement | src/main/java/ca/keal/persistence/ParentElement.java:66-72 | every element's DOM element keeps the element's tag |
| Elements.ChildrenToXml | src/main/java/ca/keal/persistence/ParentElement.java:66-72 | the DOM children are the children's elements, one each, in order |
| Elements.ToXmlShape | src/main/java/ca/keal/persistence/ToplevelElement.java:79-86 | the DOM element keeps the tag; a toplevel element always has `id` and has `root` exactly when it is the root; a parent element has no attributes; a null element has exactly `null="true"` and no children |
| Dom.SetTextContent | src/main/java/ca/keal/persistence/TextElement.java:44-48 | the text element's DOM element has the text as its content and no element children |
| Elements.NullFromXmlAccepts | src/main/java/ca/keal/persistence/NullElement.java:43-59 | `NullElement.fromXmlElement`: accepted iff there are no child nodes, the `null` attribute is present and is the only one, and the tag is valid; the result is a null element with that tag; the text check can never be the failure |
| Elements.NullRoundTrip | src/main/java/ca/keal/persistence/NullElement.java:29-59 | a null element comes back unchanged from its own DOM element |
| Elements.TextFromXmlAsWritten | src/main/java/ca/keal/persistence/TextElement.java:57-66 | as written: any child node, a text node included, is refused with "it has children", so a success can only hold empty text |
| Elements.TextRoundTripFailsAsWritten | src/main/java/ca/keal/persistence/TextElement.java:57-66 | as written, every text element with non-empty text is refused by its own DOM element (see Findings) |
| Elements.TextFromXml | src/main/java/ca/keal/persistence/TextElement.java:57-66 | corrected: a node with element children is refused; an accepted node gives a text element with its tag and text content |
| Elements.TextRoundTrip | src/main/java/ca/keal/persistence/TextElement.java:57-66 | corrected: every text element with a valid tag comes back unchanged from its own DOM element |
| Elements.ToplevelFromXml | src/main/java/ca/keal/persistence/ToplevelElement.java:96-104 | a missing `id` attribute fails; an accepted node gives a toplevel element with the node's tag and id, a valid tag, and root set by the presence of a `root` attribute, whatever its value |
| Elements.ToplevelRoundTrip | src/main/java/ca/keal/persistence/ToplevelElement.java:96-104 | when the children parser undoes the children's conversion, a toplevel element comes back unchanged from its own DOM element |
| Elements.ChildrenByTag | src/main/java/ca/keal/persistence/PersistablePRStrategy.java:290 | the children under a tag are exactly the children with that tag |
| ParentElements.RemoveFirstAt | src/main/java/ca/keal/persistence/ParentElement.java:55-57 | removing a present child cuts out its first occurrence and keeps the others in order |
| ParentElements.RemoveFirstAbsent | src/main/java/ca/keal/persistence/ParentElement.java:55-57 | removing an absent child changes nothing |
| ParentElements.RemoveFirstCount | src/main/java/ca/keal/persistence/ParentElement.java:55-57 | exactly one copy goes when there is one, and the length drops by one |
| ParentElements.ParentElement.Parent | src/main/java/ca/keal/persistence/ParentElement.java:25-27 | a new parent element with a valid tag has no children |
| ParentElements.ParentElement.Toplevel | src/main/java/ca/keal/persistence/ToplevelElement.java:28-35 | a new toplevel element has the given tag, id and root flag and no children |
| ParentElements.ParentElement.Value | src/main/java/ca/keal/persistence/ToplevelElement.java:23-35 | the element as a value keeps its tag and children, is a toplevel element exactly when it has an id, and has valid tags throughout when its children do |
| ParentElements.ParentElement.AddChild | src/main/java/ca/keal/persistence/ParentElement.java:35-40 | a null child throws NullPointerException and changes nothing; otherwise the child is appended and earlier children keep their order |
| ParentElements.ParentElement.GetChildren | src/main/java/ca/keal/persistence/ParentElement.java:45-47 | the children added so far, in order |
| ParentElements.ParentElement.RemoveChild | src/main/java/ca/keal/persistence/ParentElement.java:55-57 | reports whether the child was present and removes its first occurrence |
| ParentElements.ParentElement.IsRoot | src/main/java/ca/keal/persistence/ToplevelElement.java:52-54 | the current root flag |
| ParentElements.ParentElement.SetRoot | src/main/java/ca/keal/persistence/ToplevelElement.java:59-61 | afterwards the root flag is the given value; nothing else of the element changes |
| ParentElements.ParentElement.GetId | src/main/java/ca/keal/persistence/ToplevelElement.java:66-68 | the id given at construction |
| ParentElements.ParentElement.ToXmlElement | src/main/java/ca/keal/persistence/ParentElement.java:66-72 | the loop builds the DOM element of the element's current value: tag, children's elements in order, and for a toplevel element `id` and `root` |
| ParentElements.NewParentElement | src/main/java/ca/keal/persistence/ParentElement.java:25-27 | a parent element is made iff the tag is valid, otherwise "invalid tag name" |
| ParentElements.NewToplevelElement | src/main/java/ca/keal/persistence/ToplevelElement.java:28-35 | an invalid tag fails first, then a null id throws NullPointerException; otherwise a fresh childless toplevel element |
| Tables.ToplevelList.Contents | src/main/java/ca/keal/persistence/ToplevelList.java:62-71 | the list as values: its keys are the list's keys, and in a valid list each entry sits under its own (tag, id) |
| Tables.ValuesOf | src/main/java/ca/keal/persistence/ToplevelList.java:62-64 | each entry's value, under the same key, and no other key |
| Tables.ToplevelList.Contains | src/main/java/ca/keal/persistence/ToplevelList.java:26-28 | true iff an element is filed under (tag, id) |
| Tables.ToplevelList.AddElement | src/main/java/ca/keal/persistence/ToplevelList.java:36-49 | null throws NullPointerException and changes nothing; otherwise the element is filed under its own (tag, id), replacing any earlier entry, and no other entry changes |
| Tables.ToplevelList.GetElement | src/main/java/ca/keal/persistence/ToplevelList.java:55-57 | null exactly when nothing is filed under (tag, id); otherwise that entry, with that tag and id |
| Tables.ToplevelList.GetAsCollection | src/main/java/ca/keal/persistence/ToplevelList.java:62-64 | exactly the filed elements |
| Tables.ToplevelList.GetItemIDs | src/main/java/ca/keal/persistence/ToplevelList.java:69-71 | exactly the keys |
| Tables.RegenToplevelRegistry.Contains | src/main/java/ca/keal/persistence/RegenToplevelRegistry.java:17-19 | true iff an object is registered under (tag, id) |
| Tables.RegenToplevelRegistry.Register | src/main/java/ca/keal/persistence/RegenToplevelRegistry.java:25-34 | a null object throws NullPointerException and changes nothing; otherwise the object replaces whatever was under (tag, id), and no other key changes |
| Tables.RegenToplevelRegistry.Get | src/main/java/ca/keal/persistence/RegenToplevelRegistry.java:42-44 | nothing for an unregistered key, otherwise the registered object |
| Tables.DuplicatePersistableChecker.CheckAndRegister | src/main/java/ca/keal/persistence/DuplicatePersistableChecker.java:22-31 | the table moves as one claim says; on failure it is unchanged |
| Tables.ClaimSpec | src/main/java/ca/keal/persistence/DuplicatePersistableChecker.java:22-31 | `checkAndRegister` as a function on the table: a claim fails only on a null argument or on a tag held by a different class; on success the tag maps to the class, the tags are the old ones plus this one, and no other tag moves |
| Tables.CheckAllSound | src/main/java/ca/keal/persistence/DuplicatePersistableChecker.java:22-31 | after a run of successful claims, every earlier tag keeps its class and every claimed tag maps to its claimant |
| Tables.ConflictingClaimsFail | src/main/java/ca/keal/persistence/DuplicatePersistableChecker.java:26-29 | two claims of one tag by different classes make the run fail |
| Primitives.LowerAscii | src/main/java/ca/keal/persistence/PrimitivePRStrategy.java:39-40 | an upper-case ASCII letter becomes its lower-case letter; every other character is kept |
| Primitives.LowerAsciiString | src/main/java/ca/keal/persistence/PrimitivePRStrategy.java:39-40 | the same length, lowered character by character |
| Primitives.ParseBoolean | src/main/java/ca/keal/persistence/PrimitivePRStrategy.java:39-40 | `Boolean.parseBoolean` compares the ASCII-lowered text with "true": the result is true iff the text has four characters, each 't', 'r', 'u', 'e' in either case; it never fails |
| Primitives.ParseBooleanShow | src/main/java/ca/keal/persistence/PrimitivePRStrategy.java:39-40 | parsing a boolean's string form gives that boolean back |
| Primitives.ParseRanged | src/main/java/ca/keal/persistence/PrimitivePRStrategy.java:41-53 | a number only when the text is a decimal integer within the width's range |
| Primitives.ParseShowInt | src/main/java/ca/keal/persistence/PrimitivePRStrategy.java:41-53 | parsing the decimal text of any integer gives that integer back |
| Primitives.PrimitivePersist | src/main/java/ca/keal/persistence/PrimitivePRStrategy.java:22-24 | a text element under the caller's tag holding the value's string form; a null value throws NullPointerException |
| Primitives.PrimitiveRegenerate | src/main/java/ca/keal/persistence/PrimitivePRStrategy.java:28-66 | anything but a text element fails with "need a TextElement"; a text element for a non-primitive type is IllegalState; a success fits the declared type and range |
| Primitives.PrimitiveRoundTrip | src/main/java/ca/keal/persistence/PrimitivePRStrategy.java:22-53 | every value that fits its type comes back unchanged from the element its persist produced |
| Primitives.NullPersist | src/main/java/ca/keal/persistence/NullPRStrategy.java:21-28 | a non-null value throws IllegalArgumentException; null gives a null element under the caller's tag |
| Primitives.NullRegenerate | src/main/java/ca/keal/persistence/NullPRStrategy.java:31-37 | succeeds iff the element is a null element, and then gives null; otherwise a RegenerationException |
| Primitives.NullRoundTrip | src/main/java/ca/keal/persistence/NullPRStrategy.java:21-37 | null persisted under a valid tag regenerates to null |
| Primitives.Unboxed | src/main/java/ca/keal/persistence/PersistablePRStrategy.java:328-339 | a primitive type is read as itself, and a class that is no box class stays that class |
| Primitives.IdText | src/main/java/ca/keal/persistence/PersistablePRStrategy.java:79 | a null id throws NullPointerException; a primitive id gives its string form |
| Primitives.ConformIdTo | src/main/java/ca/keal/persistence/PersistablePRStrategy.java:326-346 | a success fits the id field's type; an empty id for a char throws StringIndexOutOfBoundsException; any other class is unconvertible |
| Primitives.IdRoundTrip | src/main/java/ca/keal/persistence/PersistablePRStrategy.java:326-346 | a primitive or String id survives toString() and conformIdTo |
| PersistEngine.PersistValueF | src/main/java/ca/keal/persistence/PersistablePRStrategy.java:156-166 | persisting a value with the strategy pickStrategy(type, value) picks: the element is under the caller's tag; the list gains exactly the keys filed, none present before, each holding a toplevel element under its own (tag, id); no claim of the duplicate checker moves |
| PersistEngine.PersistObjectF | src/main/java/ca/keal/persistence/PersistablePRStrategy.java:56-63 | `persist`: verify the class, then the toplevel or the inline case; the same guarantees as above |
| PersistEngine.PersistToplevelF | src/main/java/ca/keal/persistence/PersistablePRStrategy.java:69-103 | `persistToplevel`: claim the tag, read the id, reserve and populate unless the key is listed, and return a text reference under the caller's tag; the same guarantees as above |
| PersistEngine.ReserveF | src/main/java/ca/keal/persistence/PersistablePRStrategy.java:93-99 | the key is taken before any field is persisted, and on success a toplevel element is filed under it |
| PersistEngine.PersistNonToplevelF | src/main/java/ca/keal/persistence/PersistablePRStrategy.java:109-114 | `persistNonToplevel`: a parent element under the caller's tag; the same guarantees as above |
| PersistEngine.PopulateF | src/main/java/ca/keal/persistence/PersistablePRStrategy.java:137-153 | `populateStructure` from one field on: a repeated @Persist value fails, each field's value is persisted in turn, and the list gains only new, well-keyed entries |
| PersistEngine.PopulateOneField | src/main/java/ca/keal/persistence/PersistablePRStrategy.java:140-151 | when a field persists, populating goes on from the next field, with that field's element appended and its filed entries added |
| PersistEngine.PopulateMatchesFields | src/main/java/ca/keal/persistence/PersistablePRStrategy.java:137-153 | a successful populating gives one child per @Persist field, in field order, each under its field's @Persist value, no two under the same one |
| PersistEngine.PopulateFromStart | src/main/java/ca/keal/persistence/PersistablePRStrategy.java:137-153 | the same, for a populating that starts at the first field of the class |
| PersistEngine.PersistObjectShape | src/main/java/ca/keal/persistence/PersistablePRStrategy.java:56-114 | a success needs a live object of a well-formed class. A toplevel class gives a text reference holding the object's id, with its key listed. When the key was new, a non-root toplevel element is filed under it, with one child per @Persist field; when it was listed, nothing is filed and no key is added. Any other class gives a parent element under the caller's tag, with one child per @Persist field |
| PersistEngine.ReentryIsReference | src/main/java/ca/keal/persistence/PersistablePRStrategy.java:69-103 | re-entry: an object whose key is already listed, and whose tag claim passes, persists as a text reference holding its id, and the list and checker are unchanged apart from that claim |
| PersistEngine.Persisting.constructor | src/main/java/ca/keal/persistence/PersistingState.java:8-20 | a new persisting state: an empty toplevel list and an empty duplicate checker |
| PersistEngine.Persisting.PersistValue | src/main/java/ca/keal/persistence/PersistablePRStrategy.java:160-161 | agrees with PersistValueF: the same outcome and failure; on success the same element, the list's keys and the checker's table as the function's state, and every element filed on the way in the list, under its key, holding the value the function gives; earlier entries stay, and new ones are fresh |
| PersistEngine.Persisting.PersistWithStrategy | src/main/java/ca/keal/persistence/PersistablePRStrategy.java:156-166 | agrees, in the same sense, with PersistValueF on the field's declared type, its @Persist value and the value `Field.get` reads from the object |
| PersistEngine.Persisting.PersistObject | src/main/java/ca/keal/persistence/PersistablePRStrategy.java:56-63 | agrees with PersistObjectF, in the same sense |
| PersistEngine.Persisting.PersistToplevel | src/main/java/ca/keal/persistence/PersistablePRStrategy.java:69-103 | agrees with PersistToplevelF, in the same sense; its re-entry and filing are stated by ReentryIsReference and PersistObjectShape |
| PersistEngine.Persisting.Reserve | src/main/java/ca/keal/persistence/PersistablePRStrategy.java:93-99 | agrees with ReserveF: the same outcome; on success the list's keys and the checker's table are ReserveF's, and each filed element, the reserved one included, holds the value ReserveF gives |
| PersistEngine.Persisting.PersistNonToplevel | src/main/java/ca/keal/persistence/PersistablePRStrategy.java:109-114 | agrees with PersistNonToplevelF, in the same sense |
| PersistEngine.Persisting.Populate | src/main/java/ca/keal/persistence/PersistablePRStrategy.java:137-153 | agrees with PopulateF from the first field: the same outcome; on success the element's children are PopulateF's, each the persisted value of its field; the element keeps its root flag |
| PersistEngine.Persisting.PopulateStep | src/main/java/ca/keal/persistence/PersistablePRStrategy.java:140-151 | one turn of the populating loop takes PopulateF from field `i` to field `i + 1`, or fails as PopulateF does |
| PersistEngine.Persisting.AppendField | src/main/java/ca/keal/persistence/PersistablePRStrategy.java:148-149 | the field's value is persisted as PersistValueF says and its element appended to the parent's children |
| SingleCircle.CirclePersistorBuilds | src/test/java/ca/keal/persistence/XmlPersistorTest.java:162-173 | the self-referencing class passes verifyAndGetPersistable, and an XmlPersistor for it can be built |
| SingleCircle.CircleFields | src/test/java/ca/keal/persistence/XmlPersistorTest.java:162-173 | its @Persist fields are `me` and then `dog` |
| SingleCircle.CircleKeyOf | src/test/java/ca/keal/persistence/XmlPersistorTest.java:162-173 | the object is filed under ("singleCircle", "foobar") |
| SingleCircle.BackReference | src/test/java/ca/keal/persistence/XmlPersistorTest.java:167 | once its key is listed, the `me` field persists as the text reference "foobar" and files nothing |
| SingleCircle.ReserveCircle | src/main/java/ca/keal/persistence/PersistablePRStrategy.java:93-99 | reserving the circle files one element, whose children are the reference back to itself and "chien" |
| SingleCircle.SingleCircleToXml | src/test/java/ca/keal/persistence/XmlPersistorTest.java:175-180 | toXml on the circle succeeds with small fuel and publishes exactly one toplevel element, marked root, holding the back reference and "chien" |
| SingleCircle.SingleCircleDocument | src/test/java/ca/keal/persistence/XmlPersistorTest.java:175-180 | every document body toXml may produce for the circle is that one DOM element |
| RegenEngine.FieldStrategyAsWritten | src/main/java/ca/keal/persistence/PersistablePRStrategy.java:303 | as written, the strategy for a child element is never the null strategy |
| RegenEngine.NullStringLostAsWritten | src/main/java/ca/keal/persistence/PersistablePRStrategy.java:303 | as written, a null String field persists as a null element but its regeneration fails with "need a TextElement" (see Findings) |
| RegenEngine.FieldStrategy | src/main/java/ca/keal/persistence/PersistablePRStrategy.java:303 | corrected: the null strategy iff the child is a null element, otherwise as written |
| RegenEngine.FieldStrategyAgrees | src/main/java/ca/keal/persistence/PersistablePRStrategy.java:303 | corrected: for every value and the element it persisted to, regeneration picks the strategy persisting picked |
| RegenEngine.NullFieldRoundTrip | src/main/java/ca/keal/persistence/NullPRStrategy.java:21-37 | corrected: a null field goes out as a null element, is given the null strategy, and comes back as null |
| RegenEngine.WithField | src/main/java/ca/keal/persistence/PersistablePRStrategy.java:303 | `Field.set`: the object keeps its class, the field holds the value, and every other field is as before |
| RegenEngine.FieldValueAfterSet | src/main/java/ca/keal/persistence/PersistablePRStrategy.java:303 | `Field.get` after `Field.set` reads the value set, and any other field reads as before |
| RegenEngine.RegenValueF | src/main/java/ca/keal/persistence/PersistablePRStrategy.java:303 | a child regenerated with the strategy FieldStrategy picks: on success the value fits the declared kind, a reference points at an existing object, earlier objects are untouched and no registration is dropped |
| RegenEngine.RegenObjectF | src/main/java/ca/keal/persistence/PersistablePRStrategy.java:189-206 | `regenerate`: on success a reference to an existing object, and the state advances as above |
| RegenEngine.ReferenceF | src/main/java/ca/keal/persistence/PersistablePRStrategy.java:209-228 | `regenerateReference`: on success a reference to an existing object, and the state advances as above |
| RegenEngine.RegenToplevelF | src/main/java/ca/keal/persistence/PersistablePRStrategy.java:231-265 | `regenerateToplevel`: on success a new object of the class at the end of the arena, with (tag, id) registered |
| RegenEngine.RegenNonToplevelF | src/main/java/ca/keal/persistence/PersistablePRStrategy.java:268-278 | `regenerateNonToplevel`: on success a new object of the class at the end of the arena |
| RegenEngine.FillF | src/main/java/ca/keal/persistence/PersistablePRStrategy.java:281-308 | `fillInRegenerated` from one field on: on success only the object being filled changes among existing objects, and it keeps its class |
| RegenEngine.FillFieldF | src/main/java/ca/keal/persistence/PersistablePRStrategy.java:298-307 | one field: on success only the object being filled changes among existing objects, and it keeps its class |
| RegenEngine.RegenObjectErrors | src/main/java/ca/keal/persistence/PersistablePRStrategy.java:189-278 | an ill-formed class fails with verifyAndGetPersistable's error; a null element "cannot be regenerated"; a toplevel element for a non-toplevel class, a parent element for a toplevel class, and a text reference to a non-toplevel class each fail with their own message |
| RegenEngine.ReferenceResolves | src/main/java/ca/keal/persistence/PersistablePRStrategy.java:209-228 | a registered (tag, id) gives the registered object and changes nothing; a listed but unregistered one regenerates from its toplevel element; a (tag, id) neither registered nor listed fails with "doesn't exist" |
| RegenEngine.Registered | src/main/java/ca/keal/persistence/PersistablePRStrategy.java:238-258 | instantiating, setting the id field and registering: one object more, registered under (tag, id) as that new object, with every other registration kept |
| RegenEngine.RegisteredBeforeFill | src/main/java/ca/keal/persistence/PersistablePRStrategy.java:238-264 | register-before-fill: the new object holds only its id field, set to conformIdTo of the id; regenerateToplevel is filling it in from that registered state; and during the filling a reference to (tag, id) resolves to the new object without regenerating anything |
| RegenEngine.ToplevelIdField | src/main/java/ca/keal/persistence/PersistablePRStrategy.java:241-244 | after a successful regenerateToplevel, the id field holds conformIdTo of the element's id (when no @Persist field shares its name) |
| RegenEngine.FieldStoresChild | src/main/java/ca/keal/persistence/PersistablePRStrategy.java:298-307 | a successful field fill stores exactly the value its child regenerated to; that value fits the field's type and is not null for a primitive field; other fields keep their values |
| RegenEngine.NullIntoPrimitiveRefused | src/main/java/ca/keal/persistence/PersistablePRStrategy.java:303 | `Field.set` of null into a primitive field fails with IllegalArgumentException |
| RegenEngine.FillKeepsOtherFields | src/main/java/ca/keal/persistence/PersistablePRStrategy.java:285-308 | filling the remaining fields leaves a field that none of them names as it was |
| RegenEngine.FillSetsEveryField | src/main/java/ca/keal/persistence/PersistablePRStrategy.java:285-308 | a successful filling found exactly one child per @Persist field, and set each field to a value that fits its type, never null for a primitive field |
| RegenEngine.FillChildErrors | src/main/java/ca/keal/persistence/PersistablePRStrategy.java:290-296 | the next field with no child under its tag fails with "cannot find"; with two or more, "multiple elements" |
| RegenEngine.Regenerating.constructor | src/main/java/ca/keal/persistence/RegenState.java:12-32 | a regenerating state over the loaded list, with an empty registry and no objects yet |
| RegenEngine.Regenerating.Instantiate | src/main/java/ca/keal/persistence/PersistablePRStrategy.java:321-323 | a new object of the class, with no field set, at the end of the arena |
| RegenEngine.Regenerating.SetField | src/main/java/ca/keal/persistence/PersistablePRStrategy.java:303 | only the one field of the one object changes |
| RegenEngine.Regenerating.SetIdAndRegister | src/main/java/ca/keal/persistence/PersistablePRStrategy.java:241-258 | the id field is set, and (tag, id) is registered to the object, with no other registration changed |
| RegenEngine.Regenerating.RegenerateValue | src/main/java/ca/keal/persistence/PersistablePRStrategy.java:303 | agrees with RegenValueF: the same outcome and failure, and on success the same value, objects and registry |
| RegenEngine.Regenerating.RegenerateObject | src/main/java/ca/keal/persistence/PersistablePRStrategy.java:189-206 | agrees with RegenObjectF, in the same sense |
| RegenEngine.Regenerating.Reference | src/main/java/ca/keal/persistence/PersistablePRStrategy.java:209-228 | agrees with ReferenceF, in the same sense; its three branches are ReferenceResolves |
| RegenEngine.Regenerating.RegenerateToplevel | src/main/java/ca/keal/persistence/PersistablePRStrategy.java:231-265 | agrees with RegenToplevelF, in the same sense; register-before-fill and the id field are RegisteredBeforeFill and ToplevelIdField |
| RegenEngine.Regenerating.RegenerateNonToplevel | src/main/java/ca/keal/persistence/PersistablePRStrategy.java:268-278 | agrees with RegenNonToplevelF, in the same sense |
| RegenEngine.Regenerating.Fill | src/main/java/ca/keal/persistence/PersistablePRStrategy.java:281-308 | agrees with FillF over the class's @Persist fields: the same outcome and failure, and on success the same objects and registry |
| RegenEngine.Regenerating.FillField | src/main/java/ca/keal/persistence/PersistablePRStrategy.java:298-307 | agrees with FillFieldF: the same outcome and failure, and on success the same objects and registry |
| XmlPersistence.FixedTagsAreValid | src/main/java/ca/keal/persistence/XmlPersistor.java:20-33 | both fixed tags, "persisted" and the root persist value, pass the tag check |
| XmlPersistence.NewXmlPersistor | src/main/java/ca/keal/persistence/XmlPersistor.java:45-57 | a null class throws NullPointerException; an ill-formed class fails with verifyAndGetPersistable's error; a non-toplevel class is refused; it succeeds iff the class is a well-formed toplevel class |
| XmlPersistence.MarkRoot | src/main/java/ca/keal/persistence/ToplevelElement.java:59-61 | `setRoot(true)` on a toplevel element as a value: the same element, marked root |
| XmlPersistence.ToXmlF | src/main/java/ca/keal/persistence/XmlPersistor.java:72-80 | what toXml publishes: the toplevel elements filed while persisting the root, each under its own (tag, id) |
| XmlPersistence.RootPersisted | src/main/java/ca/keal/persistence/XmlPersistor.java:72-80 | when persisting the root succeeds, it yields a text reference holding the root's id; the root's element is filed under its key, not yet marked root; and toXml publishes the filed elements with exactly that one marked root |
| XmlPersistence.PersistRoot | src/main/java/ca/keal/persistence/XmlPersistor.java:72-77 | a fresh persisting state, in which the root is persisted as PersistObjectF says; the list then holds exactly the filed elements, none of them root |
| XmlPersistence.PublishRoot | src/main/java/ca/keal/persistence/XmlPersistor.java:72-80 | the same outcome as ToXmlF; on success the root's own element is marked root, it alone is, and the list's contents are ToXmlF's |
| XmlPersistence.MarkRootEntry | src/main/java/ca/keal/persistence/XmlPersistor.java:80 | setRoot(true) on the element filed under the root's key: the list keeps its entries and stays valid, that element alone is marked root, and the contents are the old ones with that element marked root |
| XmlPersistence.ToXml | src/main/java/ca/keal/persistence/XmlPersistor.java:66-99 | a null root throws NullPointerException; otherwise it succeeds exactly when ToXmlF does, with its failure; the document element is "persisted" without attributes; its children are the DOM elements of ToXmlF's entries, each under its own key, and every entry's DOM element is among them; no two share a (tag, id); exactly the root's carries `root` |
| XmlPersistence.Assemble | src/main/java/ca/keal/persistence/XmlPersistor.java:91-96 | the document element is "persisted" without attributes; its children are exactly the DOM elements of the list's entries, every entry's among them, each under its own key; only the root's carries `root` |
| XmlPersistence.EntryElements | src/main/java/ca/keal/persistence/XmlPersistor.java:94-96 | the loop over getAsCollection: every entry of the list once, in some order, each turned into its DOM element |
| XmlPersistence.EntriesDocument | src/main/java/ca/keal/persistence/XmlPersistor.java:94-96 | those DOM elements hold every entry's DOM element and nothing else |
| XmlPersistence.NodeOfEntry | src/main/java/ca/keal/persistence/XmlPersistor.java:94-96 | an entry's DOM element carries an id, and its (tag, id) is the key it is filed under |
| XmlPersistence.DocumentOfEntries | src/main/java/ca/keal/persistence/XmlPersistor.java:94-96 | the DOM elements of all the list's entries, each once, have distinct (tag, id) and carry `root` on the root's entry only |
| XmlPersistence.AsRegeneration | src/main/java/ca/keal/persistence/XmlPersistor.java:159-162 | no PersistenceException leaves fromXml |
| XmlPersistence.ParseToplevel | src/main/java/ca/keal/persistence/XmlPersistor.java:130 | `ToplevelElement.fromXmlElement`, with a PersistenceException rewrapped as fromXml does |
| XmlPersistence.LoadF | src/main/java/ca/keal/persistence/XmlPersistor.java:126-140 | the loading loop from one child on: an error is never a PersistenceException, and the table stays keyed by (tag, id) |
| XmlPersistence.LoadToplevelsF | src/main/java/ca/keal/persistence/XmlPersistor.java:121-145 | the whole loading: on success a keyed table and a root; an error is never a PersistenceException |
| XmlPersistence.LoadOkRoots | src/main/java/ca/keal/persistence/XmlPersistor.java:126-140 | a successful loading parsed every element child, met at most one marked root, and took the marked child's element as the root |
| XmlPersistence.LoadOkKeys | src/main/java/ca/keal/persistence/XmlPersistor.java:126-131 | after loading, the keys are the earlier keys plus those of the element children |
| XmlPersistence.LoadOkKeeps | src/main/java/ca/keal/persistence/XmlPersistor.java:126-131 | an entry that no later child replaces keeps its element |
| XmlPersistence.LoadOkLastWins | src/main/java/ca/keal/persistence/ToplevelList.java:36-49 | when two children share a (tag, id), the later one is what stays filed |
| XmlPersistence.LoadSucceeds | src/main/java/ca/keal/persistence/XmlPersistor.java:126-140 | when every element child parses and no second root is met, loading succeeds |
| XmlPersistence.LoadMultipleRoots | src/main/java/ca/keal/persistence/XmlPersistor.java:133-136 | a second child marked root, with every child before it parsing, fails with "multiple toplevel nodes marked root" |
| XmlPersistence.LoadParseFailure | src/main/java/ca/keal/persistence/XmlPersistor.java:128-131 | an element child that does not parse, with every child before it parsing and no second root before it, fails with its parse error |
| XmlPersistence.LoadToplevelsSucceedsIff | src/main/java/ca/keal/persistence/XmlPersistor.java:121-145 | loading succeeds iff every element child parses and exactly one is marked root; the root is that child's element |
| XmlPersistence.LoadToplevelsFiles | src/main/java/ca/keal/persistence/XmlPersistor.java:126-131 | after a successful loading, a (tag, id) is filed iff some child element carries it |
| XmlPersistence.LoadToplevelsLastWins | src/main/java/ca/keal/persistence/XmlPersistor.java:126-131 | the element filed under a (tag, id) is the one parsed from the last child carrying it |
| XmlPersistence.LoadToplevelsNoRoot | src/main/java/ca/keal/persistence/XmlPersistor.java:142-144 | every child parsing and none marked root fails with "no root toplevel node" |
| XmlPersistence.LoadToplevelsMultipleRoots | src/main/java/ca/keal/persistence/XmlPersistor.java:133-136 | two children marked root, with every child up to the second parsing, fail with "multiple toplevel nodes marked root" |
| XmlPersistence.LoadToplevelsParseFailure | src/main/java/ca/keal/persistence/XmlPersistor.java:128-131 | the first element child that does not parse, reached before a second root, gives its parse error |
| XmlPersistence.FileToplevel | src/main/java/ca/keal/persistence/XmlPersistor.java:127-131 | the child is parsed as ParseToplevel says; on failure the list is unchanged; on success its element is filed under its own (tag, id) and nothing else changes |
| XmlPersistence.LoadToplevels | src/main/java/ca/keal/persistence/XmlPersistor.java:121-145 | agrees with LoadToplevelsF: on success the root's element and a fresh list holding exactly the loaded table; on failure the same failure |
| XmlPersistence.FromXmlF | src/main/java/ca/keal/persistence/XmlPersistor.java:108-163 | `fromXml` as a function: no PersistenceException escapes |
| XmlPersistence.FromXmlSucceeds | src/main/java/ca/keal/persistence/XmlPersistor.java:108-163 | a success means a document whose element children all parse, exactly one marked root; the result is the first object built, of the root class; its id field holds conformIdTo of the root's id when no @Persist field shares that field's name; the root's entry is not unused; every unused key is a child's key |
| XmlPersistence.FromXmlLoadFailures | src/main/java/ca/keal/persistence/XmlPersistor.java:108-145 | a null document throws NullPointerException; no root gives "no root toplevel node"; two roots give "multiple toplevel nodes marked root"; an unparsable child gives its parse error, rewrapped |
| XmlPersistence.FromXml | src/main/java/ca/keal/persistence/XmlPersistor.java:108-163 | agrees with FromXmlF: on success the root object, the objects built and the unused keys; on failure the same failure |
| CircleRegen.RegenPersistorBuilds | src/test/java/ca/keal/persistence/XmlPersistorTest.java:440-452 | the class for the regeneration test passes verifyAndGetPersistable and gives a valid persistor |
| CircleRegen.RegenFields | src/test/java/ca/keal/persistence/XmlPersistorTest.java:440-452 | its @Persist fields are `me` and then `once`, and its id field is the String `id` |
| CircleRegen.LoadCircle | src/test/java/ca/keal/persistence/XmlPersistorTest.java:455-460 | the document of one circle element loads into one entry, which is the root |
| CircleRegen.LoadOneRoot | src/main/java/ca/keal/persistence/XmlPersistor.java:126-144 | a document whose one child is a root toplevel element with a valid tag, and whose children parse back, loads into exactly that one entry, recorded as the root |
| CircleRegen.MeRefersBack | src/main/java/ca/keal/persistence/PersistablePRStrategy.java:218-219 | once the circle is registered as object 0, the `me` child regenerates to a reference to object 0 and changes nothing |
| CircleRegen.FillMe | src/main/java/ca/keal/persistence/PersistablePRStrategy.java:298-303 | filling `me` in the registered circle stores the reference to the circle itself |
| CircleRegen.RegenCircleToplevel | src/main/java/ca/keal/persistence/PersistablePRStrategy.java:231-265 | regenerating the circle element builds one object, registered under ("singleCircle", "foobar") |
| CircleRegen.SingleCircularToplevelFromXml | src/test/java/ca/keal/persistence/XmlPersistorTest.java:455-460 | fromXml on the circle document gives object 0, whose `me` is object 0 itself, whose `once` is "chien" and whose `id` is "foobar"; no toplevel entry is unused |

## Left out

- **DOM/JAXP and document creation.** The DOM is the value type `Dom.XmlNode`. Parsing a document is outside the model; `fromXml` takes the document element.
- **Warnings.** Printed warnings are left out: a duplicate list entry or registration, unused children, unused toplevel elements, and an odd document element. `FromXml` returns the set of unused keys instead of printing it.
- **Reflection, annotations and Objenesis.** These are the class table and the arena. `Field.get` on a field never set gives the type's default value.
- **Access failures.** The IllegalAccessException paths are left out, because accessibility is always granted.
- **Floating point.** `float`/`double` fields and ids are not modelled.
- **Ill-typed heaps.** A heap that Java's type system rules out gives `IllegalState`. Examples are a reference in a primitive field and a primitive in an object field.
- **Null inputs.** A null tag or a null class descriptor cannot be represented, except where the source tests for null: the ItemID, the checker, the list, the registry and the root.
- **Map iteration order.** HashMap order is not modelled. `Assemble` takes the list's elements in an unspecified order.
- **Helper methods.** `Reserve`, `PersistWithStrategy`, `PopulateStep`, `AppendField`, `SetIdAndRegister`, `FillField`, `FileToplevel`, `LoadToplevels`, `PersistRoot`, `PublishRoot`, `MarkRootEntry`, `EntryElements` and `Assemble` are sections of the source methods they cite, separated out. The Java methods have no such split.
- **Recursion depth.** Recursion is bounded by `fuel`. A graph deeper than the fuel fails with `StackOverflow`. A cycle through non-toplevel objects always does, as the source overflows its stack.
- **Test resources.** The XML files the tests read and compare with are not part of this model. The self-referencing examples state the persisted entries, and regenerate from a document whose one child is the DOM element of the persisted circle, with `parseChildren` reading that element's children back.
- Primitives.ConformIdTo: the reflective fallback (`fromString(String)`, then a String constructor) is not modelled, because it calls foreign code. Every other class fails as "unable to convert".
- Primitives.ConformIdTo: the case of a char id whose first character is outside the Basic Multilingual Plane is not modelled faithfully. Java stores a lone surrogate there, which a Dafny `char` cannot hold, so the model fails with IndexOutOfBounds.
- Primitives.ParseRanged: only ASCII digits are read. Java's parsers also accept other Unicode decimal digits.
- Primitives.ParseBoolean: Java compares with `equalsIgnoreCase`, which also folds non-ASCII case pairs. Only ASCII case is modelled; no non-ASCII character folds onto a letter of "true".
- ParentElements.ParentElement.RemoveChild: children are compared as values. Java compares element objects by identity, since PersistedElement does not override `equals`.
- Descriptors.FieldValue: an object's fields are keyed by name. A subclass field that shadows a superclass field of the same name shares one slot with it, where Java keeps two; `getAllDeclaredFields` still lists both declarations.
- RegenEngine.Regenerating.RegenerateValue: the engine runs the corrected strategy choice (see Findings), so a null element is read by the null strategy and gives null. As written, line 303 hands it to the primitive strategy ("need a TextElement") or the persistable one ("cannot regenerate from"); `FieldStrategyAsWritten` and `NullStringLostAsWritten` model that path.
- RegenEngine.Regenerating.FillField: on the corrected path, a null element for a primitive field fails with IllegalArgumentException, as `Field.set` refuses null there. The code as written fails earlier, with "need a TextElement".
- RegenEngine.Regenerating.Fill: unused children (Java's warning at lines 310-317) are not reported.
- RegenEngine.ToplevelIdField: it assumes that no @Persist field has the id field's name. Such a field would overwrite the id when it is filled in.

## Findings

| source | as written | input that shows it | evidently intended | confidence | as-written member | corrected member |
|---|---|---|---|---|---|---|
| src/main/java/ca/keal/persistence/TextElement.java:57-66 | `fromXmlElement` refuses any element with `hasChildNodes()`, yet `toXmlElement` stores the text with `setTextContent`, which adds a child text node | a TextElement with tag "a" and text "x": its own DOM element has one text child, so reading it back fails with "it has children" | refuse element children only, and read the text content | high (not executed) | Elements.TextRoundTripFailsAsWritten | Elements.TextRoundTrip |
| src/main/java/ca/keal/persistence/PersistablePRStrategy.java:303 | `fillInRegenerated` picks the strategy with `pickStrategy(field type, child)`, whose second argument is the child element. That is never null, so the null strategy is never chosen | a null String field: it persists as a null element, but regeneration picks the primitive strategy, which fails with "need a TextElement"; the test `nullThingsFromXml` (XmlPersistorTest.java:503-509) expects such a field back as null | choose the null strategy when the child is a null element, matching the choice persisting made | medium (not executed) | RegenEngine.NullStringLostAsWritten | RegenEngine.FieldStrategy |
