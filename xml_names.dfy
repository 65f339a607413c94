/**
 * Tag-name validation (PersistenceUtil.isValidXmlTag).
 *
 * The library accepts a tag when it is non-empty, does not start with the
 * lower-case letters "xml", and the pattern
 *   ^[NameStart][NameChar]*\Z
 * finds a match. `\Z` also matches just before one final line terminator.
 * Dafny characters are Unicode scalar values, so the surrogate block that the
 * NameChar class reaches into (up to U+DFFF) holds no Dafny character.
 */
module XmlNames {

  /** The first character class of the tag pattern. */
  predicate IsNameStartChar(c: char)
  {
    var n := c as int;
    c == ':' || ('A' <= c <= 'Z') || c == '_' || ('a' <= c <= 'z')
    || n == 0xC0 || n == 0xD6 || (0xD8 <= n <= 0xF6) || (0xF8 <= n <= 0x2FF)
    || (0x370 <= n <= 0x37D) || (0x37F <= n <= 0x1FFF) || n == 0x200C || n == 0x200D
    || (0x2070 <= n <= 0x218F) || (0x2C00 <= n <= 0x2FEF) || (0x3001 <= n <= 0xD7FF)
    || (0xF900 <= n <= 0xFDCF) || (0xFDF0 <= n <= 0xFFFD)
  }

  /** The repeated character class of the tag pattern. */
  predicate IsNameChar(c: char)
  {
    var n := c as int;
    c == ':' || ('A' <= c <= 'Z') || c == '_' || ('a' <= c <= 'z')
    || n == 0xC0 || n == 0xD6 || (0xD8 <= n <= 0xF6) || (0xF8 <= n <= 0x2FF)
    || (0x370 <= n <= 0x37D) || (0x37F <= n <= 0x1FFF) || n == 0x200C || n == 0x200D
    || (0x2070 <= n <= 0x218F) || (0x2C00 <= n <= 0x2FEF) || (0x3001 <= n <= 0xDFFF)
    || (0xF900 <= n <= 0xFDCF) || (0xFDF0 <= n <= 0xFFFD)
    || c == '-' || c == '.' || ('0' <= c <= '9') || n == 0xB7
    || (0x300 <= n <= 0x36F) || (0x203F <= n <= 0x2040)
  }

  /** Java's line terminators (Pattern without UNIX_LINES), one character each. */
  predicate IsLineTerminator(c: char)
  {
    c == '\n' || c == '\r' || c as int == 0x85 || c as int == 0x2028 || c as int == 0x2029
  }

  /** Where `\Z` matches in `s`: at the end, or before one final line terminator ("\r\n" counts as one). */
  predicate AtInputEnd(s: string, j: int)
  {
    j == |s|
    || (0 <= j && j + 2 == |s| && s[j] == '\r' && s[j + 1] == '\n')
    || (0 <= j && j + 1 == |s| && IsLineTerminator(s[j]))
  }

  /** The greedy `[NameChar]*` run: the first index at or after `i` that is not a NameChar. */
  function NameSpan(s: string, i: nat): (j: nat)
    requires i <= |s|
    ensures i <= j <= |s|
    decreases |s| - i
  {
    if i == |s| || !IsNameChar(s[i]) then i else NameSpan(s, i + 1)
  }

  /** The scan skips exactly a run of NameChars and stops at the first character that is not one. */
  lemma {:induction false} NameSpanRun(s: string, i: nat)
    requires i <= |s|
    ensures forall k :: i <= k < NameSpan(s, i) ==> IsNameChar(s[k])
    ensures NameSpan(s, i) < |s| ==> !IsNameChar(s[NameSpan(s, i)])
    decreases |s| - i
  {
    if i < |s| && IsNameChar(s[i]) {
      NameSpanRun(s, i + 1);
    }
  }

  /** `find()` of the anchored pattern, computed greedily. */
  predicate PatternFinds(s: string)
  {
    |s| > 0 && IsNameStartChar(s[0]) && AtInputEnd(s, NameSpan(s, 1))
  }

  /** The pattern matches with the repetition ending at `k` (the regular-expression reading). */
  predicate MatchesAt(s: string, k: int)
  {
    1 <= k <= |s| && IsNameStartChar(s[0])
    && (forall i :: 1 <= i < k ==> IsNameChar(s[i]))
    && AtInputEnd(s, k)
  }

  /** `startsWith("xml")`, character by character. */
  predicate StartsWithXml(tag: string)
  {
    |tag| >= 3 && tag[0] == 'x' && tag[1] == 'm' && tag[2] == 'l'
  }

  lemma StartsWithXmlIsPrefix(tag: string)
    ensures StartsWithXml(tag) <==> "xml" <= tag
  {
    if StartsWithXml(tag) {
      assert tag[..3] == "xml";
    }
  }

  /** PersistenceUtil.isValidXmlTag (a null tag is not representable here). */
  predicate IsValidXmlTag(tag: string)
  {
    tag != [] && !StartsWithXml(tag) && PatternFinds(tag)
  }

  lemma StartCharIsNameChar(c: char)
    ensures IsNameStartChar(c) ==> IsNameChar(c)
  {
  }

  lemma EndDoesNotStartWithNameChar(s: string, j: int)
    requires AtInputEnd(s, j) && j < |s|
    ensures !IsNameChar(s[j])
  {
  }

  /** A run of NameChars from `i` up to a non-NameChar (or the end) is exactly what the scan skips. */
  lemma {:induction false} NameSpanOfRun(s: string, i: nat, n: nat)
    requires i <= n <= |s|
    requires forall k :: i <= k < n ==> IsNameChar(s[k])
    requires n == |s| || !IsNameChar(s[n])
    ensures NameSpan(s, i) == n
    decreases n - i
  {
    if i < n {
      NameSpanOfRun(s, i + 1, n);
    }
  }

  /** The greedy scan finds a match exactly when some split of the pattern matches. */
  lemma PatternFindsIffSomeMatch(s: string)
    ensures PatternFinds(s) <==> exists k :: MatchesAt(s, k)
  {
    if PatternFinds(s) {
      NameSpanRun(s, 1);
      assert MatchesAt(s, NameSpan(s, 1));
    }
    if k :| MatchesAt(s, k) {
      if k < |s| {
        EndDoesNotStartWithNameChar(s, k);
      }
      NameSpanOfRun(s, 1, k);
    }
  }

  /** isValidXmlTag in the regular-expression reading: non-empty, no "xml" prefix, some match. */
  lemma ValidTagIff(tag: string)
    ensures IsValidXmlTag(tag) <==> |tag| > 0 && !("xml" <= tag) && exists k :: MatchesAt(tag, k)
  {
    StartsWithXmlIsPrefix(tag);
    PatternFindsIffSomeMatch(tag);
  }

  /** A valid tag never contains a space, and its first character is a NameStart character. */
  lemma ValidTagHasNoSpace(tag: string)
    requires IsValidXmlTag(tag)
    ensures IsNameStartChar(tag[0])
    ensures forall i :: 0 <= i < |tag| ==> tag[i] != ' '
  {
    NameSpanRun(tag, 1);
  }

  /** A string of NameChars after a NameStart character, not starting with "xml", is valid. */
  lemma NameIsValidTag(name: string)
    requires |name| > 0 && IsNameStartChar(name[0]) && !("xml" <= name)
    requires forall i :: 1 <= i < |name| ==> IsNameChar(name[i])
    ensures IsValidXmlTag(name)
  {
    StartsWithXmlIsPrefix(name);
    NameSpanOfRun(name, 1, |name|);
  }

  /** `\Z` lets one trailing line terminator through: "a\n" is accepted like "a". */
  lemma TrailingTerminatorAccepted(name: string, c: char)
    requires |name| > 0 && IsNameStartChar(name[0]) && !("xml" <= name)
    requires forall i :: 1 <= i < |name| ==> IsNameChar(name[i])
    requires IsLineTerminator(c)
    ensures IsValidXmlTag(name + [c])
  {
    var s := name + [c];
    assert forall k :: 1 <= k < |name| ==> s[k] == name[k];
    NameSpanOfRun(s, 1, |name|);
    StartsWithXmlIsPrefix(name);
  }

  /** The accepted tags of the library's own examples. */
  lemma AcceptedTagExamples()
    ensures IsValidXmlTag("foo") && IsValidXmlTag("BaZ") && IsValidXmlTag("_0133")
    ensures IsValidXmlTag("____") && IsValidXmlTag("_") && IsValidXmlTag("a")
    ensures IsValidXmlTag("::") && IsValidXmlTag("a.b:c-d")
    ensures IsValidXmlTag("\U{e9}") && IsValidXmlTag("\U{f1}\U{e9}\U{e1}4\U{e0}.")
  {
    NameIsValidTag("foo");
    NameIsValidTag("BaZ");
    NameIsValidTag("_0133");
    NameIsValidTag("____");
    NameIsValidTag("_");
    NameIsValidTag("a");
    NameIsValidTag("::");
    NameIsValidTag("a.b:c-d");
    NameIsValidTag("\U{e9}");
    NameIsValidTag("\U{f1}\U{e9}\U{e1}4\U{e0}.");
  }

  /** The rejected tags of the library's own examples. */
  lemma RejectedTagExamples()
    ensures !IsValidXmlTag("") && !IsValidXmlTag("0") && !IsValidXmlTag(" ")
    ensures !IsValidXmlTag("@") && !IsValidXmlTag("xml") && !IsValidXmlTag("0a")
    ensures !IsValidXmlTag("7a") && !IsValidXmlTag("\\") && !IsValidXmlTag("xmlfoobar")
    ensures !IsValidXmlTag("-d") && !IsValidXmlTag(".b")
  {
  }

  /** Rejected because a character inside the tag is outside the NameChar class. */
  lemma RejectedInnerCharacterExamples()
    ensures !IsValidXmlTag("a b") && !IsValidXmlTag("asfdijp^")
  {
    NameSpanOfRun("a b", 1, 1);
    NameSpanOfRun("asfdijp^", 1, 7);
  }
}
