/**
 * The two string operations the packing-list rules rely on: Python's
 * `str.lower()` (restricted to ASCII letters) and the substring test
 * `key in text`.
 */
module Strings {

  /** True for the ASCII capitals 'A'..'Z'. */
  predicate IsUpper(c: char) {
    'A' <= c <= 'Z'
  }

  /** Lower-cases one character; characters other than 'A'..'Z' are kept. */
  function LowerChar(c: char): char {
    if IsUpper(c) then (c as int - 'A' as int + 'a' as int) as char else c
  }

  /** `text.lower()`: every character lower-cased, nothing added or removed. */
  function Lower(text: string): (r: string)
    ensures forall i :: 0 <= i < |r| ==> !IsUpper(r[i])
  {
    seq(|text|, i requires 0 <= i < |text| => LowerChar(text[i]))
  }

  /** Lower-casing distributes over concatenation. */
  lemma LowerConcat(a: string, b: string)
    ensures Lower(a + b) == Lower(a) + Lower(b)
  {
    var whole, parts := Lower(a + b), Lower(a) + Lower(b);
    assert |whole| == |parts|;
    assert forall i :: 0 <= i < |whole| ==> whole[i] == parts[i];
  }

  /** Lower-casing twice is lower-casing once. */
  lemma LowerIdempotent(text: string)
    ensures Lower(Lower(text)) == Lower(text)
  {
    var once := Lower(text);
    assert forall i :: 0 <= i < |once| ==> Lower(once)[i] == once[i];
  }

  /** Two strings that differ only in the case of ASCII letters lower-case alike. */
  predicate EqualIgnoringCase(s: string, t: string) {
    |s| == |t| && forall i :: 0 <= i < |s| ==> LowerChar(s[i]) == LowerChar(t[i])
  }

  lemma LowerEqualIgnoringCase(s: string, t: string)
    ensures EqualIgnoringCase(s, t) <==> Lower(s) == Lower(t)
  {
    var ls, lt := Lower(s), Lower(t);
    assert |ls| == |s| && |lt| == |t|;
    assert forall i :: 0 <= i < |s| ==> ls[i] == LowerChar(s[i]);
    assert forall i :: 0 <= i < |t| ==> lt[i] == LowerChar(t[i]);
    if ls == lt {
      assert forall i :: 0 <= i < |s| ==> ls[i] == lt[i];
    }
    if EqualIgnoringCase(s, t) {
      assert forall i :: 0 <= i < |ls| ==> ls[i] == lt[i];
      assert ls == lt;
    }
  }

  /** `pattern` occurs in `text` starting at position `i`. */
  predicate OccursAt(text: string, pattern: string, i: nat) {
    i + |pattern| <= |text| && text[i..i + |pattern|] == pattern
  }

  /** Python's `pattern in text`, scanning from the left. */
  predicate Contains(text: string, pattern: string)
    decreases |text|
  {
    pattern <= text || (text != [] && Contains(text[1..], pattern))
  }

  /** The scan finds `pattern` only where it occurs at some position of `text`. */
  lemma {:induction false} ContainsOccurs(text: string, pattern: string) returns (i: nat)
    requires Contains(text, pattern)
    ensures OccursAt(text, pattern, i)
    decreases |text|
  {
    if pattern <= text {
      i := 0;
    } else {
      var j := ContainsOccurs(text[1..], pattern);
      i := j + 1;
      assert text[i..i + |pattern|] == text[1..][j..j + |pattern|];
    }
  }

  /** The scan finds `pattern` wherever it occurs in `text`. */
  lemma {:induction false} OccursContains(text: string, pattern: string, i: nat)
    requires OccursAt(text, pattern, i)
    ensures Contains(text, pattern)
    decreases i
  {
    if i > 0 {
      assert text[1..][i - 1..i - 1 + |pattern|] == text[i..i + |pattern|];
      OccursContains(text[1..], pattern, i - 1);
    }
  }

  /** Both directions together: `pattern in text` means an occurrence exists. */
  lemma ContainsIffOccurs(text: string, pattern: string)
    ensures Contains(text, pattern) <==> exists i: nat :: OccursAt(text, pattern, i)
  {
    if Contains(text, pattern) {
      var i := ContainsOccurs(text, pattern);
    }
    if exists i: nat :: OccursAt(text, pattern, i) {
      var i: nat :| OccursAt(text, pattern, i);
      OccursContains(text, pattern, i);
    }
  }

  /** A string that has `pattern` as an infix contains it. */
  lemma {:induction false} ContainsInfix(before: string, pattern: string, after: string)
    ensures Contains(before + pattern + after, pattern)
    decreases |before|
  {
    if before == [] {
      assert before + pattern + after == pattern + after;
      assert pattern <= pattern + after;
    } else {
      assert (before + pattern + after)[1..] == before[1..] + pattern + after;
      ContainsInfix(before[1..], pattern, after);
    }
  }

  /** No character of `text` is a capital letter (checked one character at a time). */
  predicate AllLower(text: string)
    decreases |text|
  {
    text == [] || (!IsUpper(text[0]) && AllLower(text[1..]))
  }

  lemma {:induction false} AllLowerAt(text: string, i: nat)
    requires AllLower(text) && i < |text|
    ensures !IsUpper(text[i])
    decreases i
  {
    if i > 0 {
      AllLowerAt(text[1..], i - 1);
    }
  }

  /** Text with no capital letters is its own lower-case form. */
  lemma LowerOfLowerCase(text: string)
    requires AllLower(text)
    ensures Lower(text) == text
  {
    var lowered := Lower(text);
    forall i | 0 <= i < |text|
      ensures lowered[i] == text[i]
    {
      AllLowerAt(text, i);
    }
  }

  /** A lower-case letter absent from `text` in both cases is absent from its lower-case form. */
  lemma LowerKeepsAbsent(text: string, c: char)
    requires 'a' <= c <= 'z'
    requires c !in text && (c as int - 'a' as int + 'A' as int) as char !in text
    ensures c !in Lower(text)
  {
    var lowered := Lower(text);
    forall i | 0 <= i < |lowered|
      ensures lowered[i] != c
    {
      assert lowered[i] == LowerChar(text[i]);
      assert text[i] in text;
    }
  }

  /** A pattern holding a character that the text lacks does not occur in it. */
  lemma MissingCharNotContained(text: string, pattern: string, c: char)
    requires c in pattern && c !in text
    ensures !Contains(text, pattern)
  {
    if Contains(text, pattern) {
      var i := ContainsOccurs(text, pattern);
      assert false;
    }
  }

  /** Wherever `pattern` is found, each pair of its adjacent characters stands together in `text`. */
  lemma ContainsAdjacent(text: string, pattern: string, k: nat) returns (j: nat)
    requires Contains(text, pattern) && k + 1 < |pattern|
    ensures j + 1 < |text| && text[j] == pattern[k] && text[j + 1] == pattern[k + 1]
  {
    var i := ContainsOccurs(text, pattern);
    j := i + k;
    assert text[i..i + |pattern|][k] == text[j];
    assert text[i..i + |pattern|][k + 1] == text[j + 1];
  }

  /**
   * If `text` splits into a front lacking `pattern[k]` and a back lacking
   * `pattern[k + 1]`, those two characters never stand together, so the
   * pattern does not occur.
   */
  lemma MissingPairNotContained(front: string, back: string, pattern: string, k: nat)
    requires k + 1 < |pattern| && pattern[k] !in front && pattern[k + 1] !in back
    ensures !Contains(front + back, pattern)
  {
    var text := front + back;
    if Contains(text, pattern) {
      var j := ContainsAdjacent(text, pattern, k);
      assert false;
    }
  }
}
