/**
 * ItemID: the (tag name, id) pair that keys the toplevel tables.
 * Java's `equals` is structural, which is Dafny's datatype equality;
 * `hashCode` is modelled with Java's 32-bit wrap-around.
 */
module ItemIds {
  import opened Failures

  datatype ItemID = ItemID(name: string, id: string)

  /** The constructor: a null name or id throws NullPointerException. */
  function NewItemID(name: Option<string>, id: Option<string>): (r: Result<ItemID>)
    ensures r.Ok? <==> name.Some? && id.Some?
    ensures r.Ok? ==> r.value.name == name.value && r.value.id == id.value
    ensures r.Err? ==> r.failure == NullPointer
  {
    if name.None? || id.None? then Err(NullPointer) else Ok(ItemID(name.value, id.value))
  }

  /** Any Java object `equals` may be handed: an ItemID or something else. */
  datatype JavaObject = AnItemID(item: ItemID) | OtherObject(identity: nat)

  /** ItemID.equals: only another ItemID with the same name and id is equal. */
  predicate Equals(a: ItemID, other: JavaObject)
  {
    other.AnItemID? && a.name == other.item.name && a.id == other.item.id
  }

  /** Java `int` arithmetic: reduce modulo 2^32 into [-2^31, 2^31). */
  function Int32(x: int): (r: int)
    ensures -0x8000_0000 <= r < 0x8000_0000
    ensures (x - r) % 0x1_0000_0000 == 0
  {
    var m := x % 0x1_0000_0000;
    if m >= 0x8000_0000 then m - 0x1_0000_0000 else m
  }

  /** The UTF-16 code units Java stores for one character. */
  function CharUnits(c: char): (u: seq<int>)
    ensures 1 <= |u| <= 2
    ensures forall k :: 0 <= k < |u| ==> 0 <= u[k] < 0x1_0000
    ensures |u| == 1 <==> c as int < 0x1_0000
  {
    if c as int < 0x1_0000 then [c as int]
    else
      var v := c as int - 0x1_0000;
      [0xD800 + v / 0x400, 0xDC00 + v % 0x400]
  }

  /** String's UTF-16 code units: one per character below U+10000, a surrogate pair for any other. */
  function Utf16(s: string): (u: seq<int>)
    ensures |u| >= |s|
    ensures forall k :: 0 <= k < |u| ==> 0 <= u[k] < 0x1_0000
    ensures |u| == |s| <==> forall k :: 0 <= k < |s| ==> s[k] as int < 0x1_0000
  {
    if s == [] then [] else CharUnits(s[0]) + Utf16(s[1..])
  }

  /** String.hashCode: h = 31 * h + unit over the UTF-16 units, in `int` arithmetic. */
  function UnitsHash(u: seq<int>): (h: int)
    ensures -0x8000_0000 <= h < 0x8000_0000
  {
    if u == [] then 0 else Int32(31 * UnitsHash(u[..|u| - 1]) + u[|u| - 1])
  }

  /** String.hashCode. */
  function StringHash(s: string): (h: int)
    ensures -0x8000_0000 <= h < 0x8000_0000
  {
    UnitsHash(Utf16(s))
  }

  /** The empty string hashes to 0, and a string of one character below U+10000 to that character's code. */
  lemma StringHashShort(c: char)
    requires c as int < 0x1_0000
    ensures StringHash("") == 0
    ensures StringHash([c]) == c as int
  {
    assert Utf16([c]) == CharUnits(c) + Utf16([]);
    assert UnitsHash([c as int]) == Int32(31 * UnitsHash([]) + c as int);
  }

  /** hashCode of a longer string: the hash so far times 31 plus the next unit, wrapped to 32 bits. */
  lemma {:induction false} StringHashAppend(s: string, c: char)
    requires c as int < 0x1_0000
    ensures StringHash(s + [c]) == Int32(31 * StringHash(s) + c as int)
  {
    Utf16Append(s, [c]);
    assert Utf16(s + [c]) == Utf16(s) + [c as int];
    assert (Utf16(s) + [c as int])[..|Utf16(s) + [c as int]| - 1] == Utf16(s);
  }

  lemma {:induction false} Utf16Append(a: string, b: string)
    ensures Utf16(a + b) == Utf16(a) + Utf16(b)
  {
    if a != [] {
      assert (a + b)[1..] == a[1..] + b;
      Utf16Append(a[1..], b);
    } else {
      assert a + b == b;
    }
  }

  /** ItemID.hashCode: 37 * name.hashCode() * id.hashCode(), evaluated left to right in `int`. */
  function HashCode(i: ItemID): (h: int)
    ensures -0x8000_0000 <= h < 0x8000_0000
  {
    Int32(Int32(37 * StringHash(i.name)) * StringHash(i.id))
  }

  /** Equality is structural, never holds against a non-ItemID, and keeps hashCode consistent. */
  lemma EqualsContract(a: ItemID, other: JavaObject)
    ensures Equals(a, other) <==> other == AnItemID(a)
    ensures Equals(a, other) ==> HashCode(a) == HashCode(other.item)
    ensures other.OtherObject? ==> !Equals(a, other)
  {
  }
}
