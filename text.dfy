/**
 * The character-level vocabulary AzureLogChecker's string tests are built from:
 * case-insensitive comparison, the whitespace class `\s` of Python's `re`
 * module, and Python's substring test `needle in haystack`.
 */
module Text {

  /** ASCII lower-casing of one character; every other character is left alone. */
  function LowerChar(c: char): char
  {
    if 'A' <= c <= 'Z' then (c as int - 'A' as int + 'a' as int) as char else c
  }

  /** `s.lower()`, restricted to ASCII letters. */
  function Lower(s: string): string
  {
    seq(|s|, i requires 0 <= i < |s| => LowerChar(s[i]))
  }

  /** Two strings are equal once both are lower-cased. */
  predicate EqualIgnoreCase(a: string, b: string)
  {
    Lower(a) == Lower(b)
  }

  /**
   * The characters Python's `re` matches with `\s` in a `str` pattern:
   * the ASCII blanks, the four ASCII separators 0x1C-0x1F, and the Unicode
   * spaces and line separators.
   */
  predicate IsSpace(c: char)
  {
    c in {'\t', '\n', '\U{000B}', '\U{000C}', '\r', '\U{001C}', '\U{001D}', '\U{001E}', '\U{001F}', ' ',
          '\U{0085}', '\U{00A0}', '\U{1680}', '\U{2028}', '\U{2029}', '\U{202F}', '\U{205F}', '\U{3000}'}
    || '\U{2000}' <= c <= '\U{200A}'
  }

  /** `needle` occurs in `haystack` starting at position `i`. */
  ghost predicate OccursAt(haystack: string, needle: string, i: int)
  {
    0 <= i && i + |needle| <= |haystack| && haystack[i..i + |needle|] == needle
  }

  /** Python's `needle in haystack` for strings: try every starting position in turn. */
  function Contains(haystack: string, needle: string): bool
    decreases |haystack|
  {
    needle <= haystack || (haystack != [] && Contains(haystack[1..], needle))
  }

  /** The scan finds an occurrence exactly when one exists. */
  lemma {:induction false} ContainsIff(haystack: string, needle: string)
    ensures Contains(haystack, needle) <==> exists i :: OccursAt(haystack, needle, i)
    decreases |haystack|
  {
    if needle <= haystack {
      assert OccursAt(haystack, needle, 0);
    } else if haystack != [] {
      ContainsIff(haystack[1..], needle);
      OccursInTail(haystack, needle);
    }
  }

  /** Past a first position where `needle` does not start, occurrences are those in the tail, shifted by one. */
  lemma OccursInTail(haystack: string, needle: string)
    requires haystack != [] && !(needle <= haystack)
    ensures (exists i :: OccursAt(haystack, needle, i)) <==> (exists i :: OccursAt(haystack[1..], needle, i))
  {
    var tail := haystack[1..];
    forall i | OccursAt(tail, needle, i)
      ensures OccursAt(haystack, needle, i + 1)
    {
      assert haystack[i + 1..i + 1 + |needle|] == tail[i..i + |needle|];
    }
    forall i | OccursAt(haystack, needle, i)
      ensures OccursAt(tail, needle, i - 1)
    {
      assert i != 0;
      assert tail[i - 1..i - 1 + |needle|] == haystack[i..i + |needle|];
    }
  }

  /** The empty string occurs in every string, so `"" in s` always holds. */
  lemma ContainsEmpty(haystack: string)
    ensures Contains(haystack, "")
  {
  }

  /** Python's `needle.lower() in haystack.lower()`. */
  predicate ContainsIgnoreCase(haystack: string, needle: string)
  {
    Contains(Lower(haystack), Lower(needle))
  }
}
