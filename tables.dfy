/**
 * The three per-call tables: the toplevel list of persisted toplevel
 * elements, the registry of regenerated toplevel objects, and the checker
 * that no two classes share a toplevel tag.
 */
module Tables {
  import opened Failures
  import opened ItemIds
  import opened Descriptors
  import opened Elements
  import opened ParentElements

  /** Every element is a toplevel element filed under its own tag and id. */
  predicate WellKeyed(m: map<ItemID, Element>)
  {
    forall k :: k in m ==> m[k].ToplevelEl? && k == ItemID(m[k].tag, m[k].id)
  }

  /** The elements of a table, as values, by key. */
  function ValuesOf(entries: map<ItemID, ParentElement>): (m: map<ItemID, Element>)
    reads entries.Values
    ensures m.Keys == entries.Keys
    ensures forall k :: k in entries ==> m[k] == entries[k].Value()
  {
    map k | k in entries :: entries[k].Value()
  }

  /** Filing an element changes the values by exactly that key. */
  lemma ValuesOfPut(entries: map<ItemID, ParentElement>, key: ItemID, e: ParentElement)
    ensures ValuesOf(entries[key := e]) == ValuesOf(entries)[key := e.Value()]
  {
  }

  /** ToplevelList: toplevel elements keyed by (tag, id). */
  class ToplevelList {
    var entries: map<ItemID, ParentElement>

    /** Every entry is a toplevel element filed under its own tag and id. */
    ghost predicate Valid()
      reads this
    {
      forall k :: k in entries ==> entries[k].id.Some? && k == ItemID(entries[k].tag, entries[k].id.value)
    }

    /** The elements the list holds, as values, by key. */
    function Contents(): (m: map<ItemID, Element>)
      reads this, entries.Values
      ensures m.Keys == entries.Keys
      ensures Valid() ==> WellKeyed(m)
    {
      ValuesOf(entries)
    }

    constructor()
      ensures Valid() && entries == map[]
    {
      entries := map[];
    }

    /** contains */
    method Contains(name: string, id: string) returns (b: bool)
      ensures b <==> ItemID(name, id) in entries
    {
      b := ItemID(name, id) in entries;
    }

    /**
     * addElement: a null element throws NullPointerException; otherwise the
     * element is filed under its tag and id, replacing any earlier one there.
     */
    method AddElement(e: ParentElement?) returns (r: Result<()>)
      requires Valid()
      requires e != null ==> e.id.Some?
      modifies this
      ensures Valid()
      ensures e == null ==> r == Err(NullPointer) && entries == old(entries)
      ensures e != null ==> r == Ok(()) && entries == old(entries)[ItemID(e.tag, e.id.value) := e]
    {
      if e == null {
        return Err(NullPointer);
      }
      entries := entries[ItemID(e.tag, e.id.value) := e];
      r := Ok(());
    }

    /** getElement: the element under (name, id), or null. */
    method GetElement(name: string, id: string) returns (e: ParentElement?)
      requires Valid()
      ensures e == null <==> ItemID(name, id) !in entries
      ensures e != null ==> e == entries[ItemID(name, id)] && e.tag == name && e.id == Some(id)
    {
      var key := ItemID(name, id);
      if key in entries {
        e := entries[key];
      } else {
        e := null;
      }
    }

    /** getAsCollection */
    method GetAsCollection() returns (es: set<ParentElement>)
      ensures es == entries.Values
    {
      es := entries.Values;
    }

    /** getItemIDs */
    method GetItemIDs() returns (ids: set<ItemID>)
      ensures ids == entries.Keys
    {
      ids := entries.Keys;
    }
  }

  /** RegenToplevelRegistry: regenerated toplevel objects keyed by (tag, id). */
  class RegenToplevelRegistry {
    var objects: map<ItemID, Ref>

    constructor()
      ensures objects == map[]
    {
      objects := map[];
    }

    /** contains */
    method Contains(name: string, id: string) returns (b: bool)
      ensures b <==> ItemID(name, id) in objects
    {
      b := ItemID(name, id) in objects;
    }

    /** register: a null object throws NullPointerException; otherwise it replaces whatever was there. */
    method Register(name: string, id: string, obj: Option<Ref>) returns (r: Result<()>)
      modifies this
      ensures obj.None? ==> r == Err(NullPointer) && objects == old(objects)
      ensures obj.Some? ==> r == Ok(()) && objects == old(objects)[ItemID(name, id) := obj.value]
    {
      if obj.None? {
        return Err(NullPointer);
      }
      objects := objects[ItemID(name, id) := obj.value];
      r := Ok(());
    }

    /** get: the object under (name, id), or null. */
    method Get(name: string, id: string) returns (obj: Option<Ref>)
      ensures obj.None? <==> ItemID(name, id) !in objects
      ensures obj.Some? ==> obj.value == objects[ItemID(name, id)]
    {
      var key := ItemID(name, id);
      obj := if key in objects then Some(objects[key]) else None;
    }
  }

  /**
   * DuplicatePersistableChecker.checkAndRegister on a table of tags to class
   * names: null arguments throw NullPointerException, a tag already held by
   * another class throws PersistenceException, otherwise the pair is recorded.
   */
  function Claim(table: map<string, string>, tag: Option<string>, cls: Option<string>): (r: Result<map<string, string>>)
  {
    if tag.None? || cls.None? then Err(NullPointer)
    else if tag.value in table && table[tag.value] != cls.value then
      Err(PersistenceFailure(DuplicatePersistableTag(tag.value)))
    else Ok(table[tag.value := cls.value])
  }

  class DuplicatePersistableChecker {
    var tagsToClasses: map<string, string>

    constructor()
      ensures tagsToClasses == map[]
    {
      tagsToClasses := map[];
    }

    /** checkAndRegister: the table moves on as Claim says, and stays put on failure. */
    method CheckAndRegister(tag: Option<string>, cls: Option<string>) returns (r: Result<()>)
      modifies this
      ensures r.Ok? <==> Claim(old(tagsToClasses), tag, cls).Ok?
      ensures r.Ok? ==> tagsToClasses == Claim(old(tagsToClasses), tag, cls).value
      ensures r.Err? ==> r.failure == Claim(old(tagsToClasses), tag, cls).failure
                         && tagsToClasses == old(tagsToClasses)
    {
      if tag.None? || cls.None? {
        return Err(NullPointer);
      }
      if tag.value in tagsToClasses && tagsToClasses[tag.value] != cls.value {
        return Err(PersistenceFailure(DuplicatePersistableTag(tag.value)));
      }
      tagsToClasses := tagsToClasses[tag.value := cls.value];
      r := Ok(());
    }
  }

  /** One check: it fails only on nulls or a tag held by another class, and on success the tag is held by `cls` and nothing else moves. */
  lemma ClaimSpec(table: map<string, string>, tag: Option<string>, cls: Option<string>)
    ensures Claim(table, tag, cls).Ok? <==> (tag.Some? && cls.Some? && (tag.value in table ==> table[tag.value] == cls.value))
    ensures Claim(table, tag, cls).Ok? ==>
              var t := Claim(table, tag, cls).value;
              t.Keys == table.Keys + {tag.value} && t[tag.value] == cls.value
              && forall k :: k in table ==> t[k] == table[k]
  {
  }

  /** A run of checks in order, stopping at the first failure. */
  function CheckAll(table: map<string, string>, claims: seq<(string, string)>): (r: Result<map<string, string>>)
    decreases claims
  {
    if claims == [] then Ok(table)
    else
      var next :- Claim(table, Some(claims[0].0), Some(claims[0].1));
      CheckAll(next, claims[1..])
  }

  /**
   * Over a whole persist: when every check passes, each tag is held by the
   * class that claimed it, and no tag was claimed by two different classes.
   */
  lemma {:induction false} CheckAllSound(table: map<string, string>, claims: seq<(string, string)>)
    requires CheckAll(table, claims).Ok?
    ensures forall k :: k in table ==> k in CheckAll(table, claims).value && CheckAll(table, claims).value[k] == table[k]
    ensures forall i :: 0 <= i < |claims| ==> claims[i].0 in CheckAll(table, claims).value
                                              && CheckAll(table, claims).value[claims[i].0] == claims[i].1
    decreases claims
  {
    if claims != [] {
      var next := Claim(table, Some(claims[0].0), Some(claims[0].1)).value;
      CheckAllSound(next, claims[1..]);
      forall i | 0 <= i < |claims|
        ensures claims[i].0 in CheckAll(table, claims).value
                && CheckAll(table, claims).value[claims[i].0] == claims[i].1
      {
        if i > 0 {
          assert claims[i] == claims[1..][i - 1];
        }
      }
    }
  }

  /** And the converse: two claims of one tag by different classes make the run fail. */
  lemma ConflictingClaimsFail(table: map<string, string>, claims: seq<(string, string)>, i: nat, j: nat)
    requires i < |claims| && j < |claims|
    requires claims[i].0 == claims[j].0 && claims[i].1 != claims[j].1
    ensures CheckAll(table, claims).Err?
  {
    if CheckAll(table, claims).Ok? {
      CheckAllSound(table, claims);
    }
  }
}
