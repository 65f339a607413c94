/**
 * The primitive and null strategies, with the pieces of java.lang they lean
 * on: toString of primitives, the integer parsers with their ranges,
 * Boolean.parseBoolean, and PersistablePRStrategy.conformIdTo, which reads an
 * id back into the id field's type.
 */
module Primitives {
  import opened Failures
  import opened Descriptors
  import opened Elements
  import ItemIds
  import XmlNames

  // ---- decimal text ----

  predicate IsDigit(c: char) { '0' <= c <= '9' }

  predicate AllDigits(s: string) { forall k :: 0 <= k < |s| ==> IsDigit(s[k]) }

  function DigitChar(d: nat): (c: char)
    requires d < 10
    ensures IsDigit(c) && c as int - '0' as int == d
  {
    ('0' as int + d) as char
  }

  /** The value of a run of decimal digits, most significant first. */
  function DigitsValue(s: string): nat
    requires AllDigits(s)
  {
    if s == [] then 0
    else DigitsValue(s[..|s| - 1]) * 10 + (s[|s| - 1] as int - '0' as int)
  }

  /** The decimal digits of `n`, with no leading zero (Long.toString of a non-negative value). */
  function ShowNat(n: nat): (s: string)
    ensures s != [] && AllDigits(s)
  {
    if n < 10 then [DigitChar(n)] else ShowNat(n / 10) + [DigitChar(n % 10)]
  }

  /** Integer.toString / Long.toString: a minus sign, then the digits of the magnitude. */
  function ShowInt(i: int): string
  {
    if i < 0 then "-" + ShowNat(-i) else ShowNat(i)
  }

  /**
   * Integer.parseInt's grammar over ASCII digits: an optional sign and at
   * least one digit, nothing else.
   */
  function ParseInteger(s: string): (r: Option<int>)
    ensures r.Some? ==> s != []
  {
    if s == [] then None
    else if s[0] == '-' || s[0] == '+' then
      var digits := s[1..];
      if digits != [] && AllDigits(digits) then
        Some(if s[0] == '-' then -(DigitsValue(digits) as int) else DigitsValue(digits))
      else None
    else if AllDigits(s) then Some(DigitsValue(s))
    else None
  }

  lemma {:induction false} DigitsOfShowNat(n: nat)
    ensures DigitsValue(ShowNat(n)) == n
    ensures ShowNat(n)[0] != '-' && ShowNat(n)[0] != '+'
  {
    if n >= 10 {
      DigitsOfShowNat(n / 10);
      var s := ShowNat(n);
      assert s[..|s| - 1] == ShowNat(n / 10);
    }
  }

  /** Reading back what ShowInt wrote gives the number. */
  lemma ParseShowInt(i: int)
    ensures ParseInteger(ShowInt(i)) == Some(i)
  {
    DigitsOfShowNat(if i < 0 then -i else i);
    if i < 0 {
      assert ShowInt(i)[1..] == ShowNat(-i);
    }
  }

  // ---- the Java integer widths ----

  const BYTE_MIN := -0x80
  const BYTE_MAX := 0x7F
  const SHORT_MIN := -0x8000
  const SHORT_MAX := 0x7FFF
  const INT_MIN := -0x8000_0000
  const INT_MAX := 0x7FFF_FFFF
  const LONG_MIN := -0x8000_0000_0000_0000
  const LONG_MAX := 0x7FFF_FFFF_FFFF_FFFF

  /** Byte.parseByte, Short.parseShort, Integer.parseInt, Long.parseLong: NumberFormatException unless the text is a number in range. */
  function ParseRanged(s: string, lo: int, hi: int): (r: Option<int>)
    ensures r.Some? <==> ParseInteger(s).Some? && lo <= ParseInteger(s).value <= hi
    ensures r.Some? ==> r == ParseInteger(s)
  {
    var n := ParseInteger(s);
    if n.Some? && lo <= n.value <= hi then n else None
  }

  /** Character.toLowerCase on the ASCII letters; no other character folds onto a letter of "true". */
  function LowerAscii(c: char): (l: char)
    ensures 'A' <= c <= 'Z' ==> l as int == c as int + 32
    ensures !('A' <= c <= 'Z') ==> l == c
  {
    if 'A' <= c <= 'Z' then (c as int + 32) as char else c
  }

  /** The string with every ASCII capital lowered. */
  function LowerAsciiString(s: string): (l: string)
    ensures |l| == |s| && forall i :: 0 <= i < |s| ==> l[i] == LowerAscii(s[i])
  {
    if s == [] then [] else [LowerAscii(s[0])] + LowerAsciiString(s[1..])
  }

  /** Boolean.parseBoolean: equalsIgnoreCase("true"). */
  function ParseBoolean(s: string): (b: bool)
    ensures b <==> |s| == 4 && s[0] in "tT" && s[1] in "rR" && s[2] in "uU" && s[3] in "eE"
  {
    LowerAsciiString(s) == "true"
  }

  /** A boolean's toString reads back as the same boolean. */
  lemma ParseBooleanShow(b: bool)
    ensures ParseBoolean(Show(BoolP(b))) == b
  {
  }

  // ---- primitive values ----

  /** The value fits the declared kind: the right constructor, in range, and a char is one UTF-16 unit. */
  predicate Fits(p: Prim, k: Kind)
  {
    match p
    case BoolP(_) => k == BoolK
    case ByteP(i) => k == ByteK && BYTE_MIN <= i <= BYTE_MAX
    case CharP(c) => k == CharK && (c as int) < 0x1_0000
    case ShortP(i) => k == ShortK && SHORT_MIN <= i <= SHORT_MAX
    case IntP(i) => k == IntK && INT_MIN <= i <= INT_MAX
    case LongP(i) => k == LongK && LONG_MIN <= i <= LONG_MAX
    case StrP(_) => k == StringK
  }

  /** toString() of a boxed primitive or a String. */
  function Show(p: Prim): string
  {
    match p
    case BoolP(b) => if b then "true" else "false"
    case ByteP(i) => ShowInt(i)
    case CharP(c) => [c]
    case ShortP(i) => ShowInt(i)
    case IntP(i) => ShowInt(i)
    case LongP(i) => ShowInt(i)
    case StrP(s) => s
  }

  /**
   * PrimitivePRStrategy.persist: a text element holding toString() of the
   * value. A null value fails on toString() before the tag is looked at.
   */
  function PrimitivePersist(tag: string, v: Option<Prim>): (r: Result<Element>)
    ensures v.None? ==> r == Err(NullPointer)
    ensures v.Some? ==> r == NewText(tag, Some(Show(v.value)))
  {
    if v.None? then Err(NullPointer) else NewText(tag, Some(Show(v.value)))
  }

  /** The number-format failure, carrying the offending text. */
  function BadNumber<T>(text: string): Result<T>
  {
    Err(RegenerationFailure(BadNumberFormat(text)))
  }

  /**
   * PrimitivePRStrategy.regenerate: only a text element will do; its text is
   * parsed by the declared kind; a char needs exactly one UTF-16 unit.
   */
  function PrimitiveRegenerate(k: Kind, e: Element): (r: Result<Value>)
    ensures !e.TextEl? ==> r == Err(RegenerationFailure(NeedTextElement))
    ensures k.ClassK? && e.TextEl? ==> r == Err(IllegalState)
    ensures r.Ok? ==> r.value.PrimV? && Fits(r.value.p, k)
  {
    if !e.TextEl? then Err(RegenerationFailure(NeedTextElement))
    else
      var text := e.text;
      match k
      case BoolK => Ok(PrimV(BoolP(ParseBoolean(text))))
      case ByteK =>
        var n := ParseRanged(text, BYTE_MIN, BYTE_MAX);
        if n.None? then BadNumber(text) else Ok(PrimV(ByteP(n.value)))
      case CharK =>
        if |ItemIds.Utf16(text)| != 1 then Err(RegenerationFailure(CharLength))
        else
          assert |ItemIds.CharUnits(text[0])| == 1 by {
            assert ItemIds.Utf16(text) == ItemIds.CharUnits(text[0]) + ItemIds.Utf16(text[1..]);
          }
          Ok(PrimV(CharP(text[0])))
      case ShortK =>
        var n := ParseRanged(text, SHORT_MIN, SHORT_MAX);
        if n.None? then BadNumber(text) else Ok(PrimV(ShortP(n.value)))
      case IntK =>
        var n := ParseRanged(text, INT_MIN, INT_MAX);
        if n.None? then BadNumber(text) else Ok(PrimV(IntP(n.value)))
      case LongK =>
        var n := ParseRanged(text, LONG_MIN, LONG_MAX);
        if n.None? then BadNumber(text) else Ok(PrimV(LongP(n.value)))
      case StringK => Ok(PrimV(StrP(text)))
      case ClassK(_) => Err(IllegalState)
  }

  /** A one-character string of a BMP character is one UTF-16 unit. */
  lemma SingleUnit(c: char)
    requires (c as int) < 0x1_0000
    ensures |ItemIds.Utf16([c])| == 1
  {
    assert ItemIds.Utf16([c]) == ItemIds.CharUnits(c) + ItemIds.Utf16([c][1..]);
    assert [c][1..] == [];
  }

  /** Every value that fits its kind comes back from the element its persist produced. */
  lemma PrimitiveRoundTrip(tag: string, p: Prim, k: Kind)
    requires XmlNames.IsValidXmlTag(tag) && Fits(p, k)
    ensures PrimitivePersist(tag, Some(p)).Ok?
    ensures PrimitiveRegenerate(k, PrimitivePersist(tag, Some(p)).value) == Ok(PrimV(p))
  {
    assert PrimitivePersist(tag, Some(p)) == Ok(TextEl(tag, Show(p)));
    match p
    case BoolP(b) =>
    case CharP(c) => SingleUnit(c);
    case StrP(_) =>
    case ByteP(i) => ParseShowInt(i); assert ParseRanged(Show(p), BYTE_MIN, BYTE_MAX) == Some(i);
    case ShortP(i) => ParseShowInt(i); assert ParseRanged(Show(p), SHORT_MIN, SHORT_MAX) == Some(i);
    case IntP(i) => ParseShowInt(i); assert ParseRanged(Show(p), INT_MIN, INT_MAX) == Some(i);
    case LongP(i) => ParseShowInt(i); assert ParseRanged(Show(p), LONG_MIN, LONG_MAX) == Some(i);
  }

  // ---- the null strategy ----

  /** NullPRStrategy.persist: only null may be persisted, as a null element. */
  function NullPersist(tag: string, v: Value): (r: Result<Element>)
    ensures !v.NullV? ==> r == Err(IllegalArgument)
    ensures v.NullV? ==> r == NewNull(tag)
  {
    if !v.NullV? then Err(IllegalArgument) else NewNull(tag)
  }

  /** NullPRStrategy.regenerate: a null element gives null, anything else fails. */
  function NullRegenerate(e: Element): (r: Result<Value>)
    ensures r.Ok? <==> e.NullEl?
    ensures r.Ok? ==> r.value == NullV
    ensures r.Err? ==> r.failure == RegenerationFailure(NeedNullElement)
  {
    if !e.NullEl? then Err(RegenerationFailure(NeedNullElement)) else Ok(NullV)
  }

  /** Null goes out as a null element and comes back as null. */
  lemma NullRoundTrip(tag: string)
    requires XmlNames.IsValidXmlTag(tag)
    ensures NullPersist(tag, NullV).Ok?
    ensures NullRegenerate(NullPersist(tag, NullV).value) == Ok(NullV)
  {
  }

  // ---- ids ----

  /** The id field's declared kind with the boxed classes read as their primitives. */
  function Unboxed(k: Kind): (u: Kind)
    ensures !k.ClassK? ==> u == k
    ensures u.ClassK? ==> u == k
  {
    match k
    case ClassK(name) =>
      if name == "java.lang.Boolean" then BoolK
      else if name == "java.lang.Byte" then ByteK
      else if name == "java.lang.Character" then CharK
      else if name == "java.lang.Short" then ShortK
      else if name == "java.lang.Integer" then IntK
      else if name == "java.lang.Long" then LongK
      else k
    case _ => k
  }

  /**
   * The id text persistToplevel writes: toString() of the id field's value,
   * which throws NullPointerException on null.
   */
  function IdText(heap: Heap, v: Value): (r: Result<string>)
    ensures v.NullV? ==> r == Err(NullPointer)
    ensures v.PrimV? ==> r == Ok(Show(v.p))
  {
    match v
    case NullV => Err(NullPointer)
    case PrimV(p) => Ok(Show(p))
    case RefV(ref) => if ref in heap then Ok(heap[ref].display) else Err(IllegalState)
  }

  /**
   * conformIdTo: the id text read back as the id field's type. The parsers
   * throw NumberFormatException, an empty id for a char throws
   * StringIndexOutOfBoundsException, and any other class is unconvertible.
   */
  function ConformIdTo(k: Kind, id: string): (r: Result<Value>)
    ensures r.Ok? ==> r.value.PrimV? && Fits(r.value.p, Unboxed(k))
    ensures Unboxed(k).ClassK? ==> r == Err(RegenerationFailure(UnconvertibleId(id)))
    ensures Unboxed(k) == CharK ==> (r.Ok? <==> id != [] && (id[0] as int) < 0x1_0000)
    ensures Unboxed(k) == CharK && id == [] ==> r == Err(IndexOutOfBounds)
  {
    match Unboxed(k)
    case BoolK => Ok(PrimV(BoolP(ParseBoolean(id))))
    case ByteK =>
      var n := ParseRanged(id, BYTE_MIN, BYTE_MAX);
      if n.None? then Err(NumberFormat) else Ok(PrimV(ByteP(n.value)))
    case CharK =>
      if id == [] then Err(IndexOutOfBounds)
      else if (id[0] as int) < 0x1_0000 then Ok(PrimV(CharP(id[0])))
      else Err(IndexOutOfBounds)
    case ShortK =>
      var n := ParseRanged(id, SHORT_MIN, SHORT_MAX);
      if n.None? then Err(NumberFormat) else Ok(PrimV(ShortP(n.value)))
    case IntK =>
      var n := ParseRanged(id, INT_MIN, INT_MAX);
      if n.None? then Err(NumberFormat) else Ok(PrimV(IntP(n.value)))
    case LongK =>
      var n := ParseRanged(id, LONG_MIN, LONG_MAX);
      if n.None? then Err(NumberFormat) else Ok(PrimV(LongP(n.value)))
    case StringK => Ok(PrimV(StrP(id)))
    case ClassK(_) => Err(RegenerationFailure(UnconvertibleId(id)))
  }

  /** A primitive or String id survives persist and regeneration: conformIdTo undoes toString(). */
  lemma IdRoundTrip(heap: Heap, p: Prim, k: Kind)
    requires Fits(p, Unboxed(k))
    ensures IdText(heap, PrimV(p)).Ok?
    ensures ConformIdTo(k, IdText(heap, PrimV(p)).value) == Ok(PrimV(p))
  {
    match p
    case BoolP(b) =>
    case CharP(c) =>
    case StrP(_) =>
    case ByteP(i) => ParseShowInt(i); assert ParseRanged(Show(p), BYTE_MIN, BYTE_MAX) == Some(i);
    case ShortP(i) => ParseShowInt(i); assert ParseRanged(Show(p), SHORT_MIN, SHORT_MAX) == Some(i);
    case IntP(i) => ParseShowInt(i); assert ParseRanged(Show(p), INT_MIN, INT_MAX) == Some(i);
    case LongP(i) => ParseShowInt(i); assert ParseRanged(Show(p), LONG_MIN, LONG_MAX) == Some(i);
  }
}
