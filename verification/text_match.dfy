/** The text-matching rule applied to recognized text: the text is
    lower-cased and must contain every keyword as a substring. */
module TextMatch {

  /** ASCII lower-casing of one character; everything outside 'A'..'Z'
      is left as it is. */
  function LowerChar(c: char): char {
    if 'A' <= c <= 'Z' then (c as int + 32) as char else c
  }

  predicate IsUpper(c: char) {
    'A' <= c <= 'Z'
  }

  /** Lower-cases a whole string, character by character: capitals become
      the matching small letter and every other character is kept. */
  function Lowercase(s: string): (r: string)
    ensures |r| == |s|
    ensures forall i :: 0 <= i < |s| ==> !IsUpper(r[i])
    ensures forall i :: 0 <= i < |s| && !IsUpper(s[i]) ==> r[i] == s[i]
    ensures forall i :: 0 <= i < |s| && IsUpper(s[i]) ==> r[i] as int == s[i] as int + 32
  {
    seq(|s|, i requires 0 <= i < |s| => LowerChar(s[i]))
  }

  /** Lower-casing works piece by piece. */
  lemma LowercaseAppend(a: string, b: string)
    ensures Lowercase(a + b) == Lowercase(a) + Lowercase(b)
  {
  }

  /** Lower-casing twice is lower-casing once. */
  lemma LowercaseIdempotent(s: string)
    ensures Lowercase(Lowercase(s)) == Lowercase(s)
  {
  }

  /** A small letter absent from `s` in both cases is absent from its
      lower-cased form. */
  lemma LetterAbsentAfterLowercase(s: string, c: char)
    requires 'a' <= c <= 'z'
    requires forall j :: 0 <= j < |s| ==> s[j] != c && s[j] as int != c as int - 32
    ensures c !in Lowercase(s)
  {
    var r := Lowercase(s);
    forall j | 0 <= j < |r|
      ensures r[j] != c
    {
      if IsUpper(s[j]) {
        assert r[j] as int == s[j] as int + 32;
      }
    }
  }

  /** `key` occurs in `text` starting at position `i`. */
  ghost predicate OccursAt(text: string, key: string, i: int) {
    0 <= i && i + |key| <= |text| && text[i..i + |key|] == key
  }

  /** The reference meaning of substring containment. */
  ghost predicate Occurs(text: string, key: string) {
    exists i :: OccursAt(text, key, i)
  }

  /** Substring search by scanning `text` from the left; the empty key is
      contained in every text, as with Kotlin's `String.contains`. */
  function Contains(text: string, key: string): (r: bool)
    ensures key == [] ==> r
    ensures |key| > |text| ==> !r
    decreases |text|
  {
    |key| <= |text| && (text[..|key|] == key || Contains(text[1..], key))
  }

  /** The scan finds `key` exactly when it occurs somewhere in `text`. */
  lemma {:induction false} ContainsIffOccurs(text: string, key: string)
    ensures Contains(text, key) <==> Occurs(text, key)
    decreases |text|
  {
    if |key| > |text| {
    } else if text[..|key|] == key {
      assert OccursAt(text, key, 0);
    } else {
      var tail := text[1..];
      ContainsIffOccurs(tail, key);
      if Occurs(tail, key) {
        var i :| OccursAt(tail, key, i);
        assert text[i + 1..i + 1 + |key|] == tail[i..i + |key|];
        assert OccursAt(text, key, i + 1);
      }
      if Occurs(text, key) {
        var i :| OccursAt(text, key, i);
        assert i != 0;
        assert tail[i - 1..i - 1 + |key|] == text[i..i + |key|];
        assert OccursAt(tail, key, i - 1);
      }
    }
  }

  /** A key holding a character that `text` lacks does not occur in it. */
  lemma MissingCharNotContained(text: string, key: string, c: char)
    requires c in key
    requires c !in text
    ensures !Contains(text, key)
  {
    ContainsIffOccurs(text, key);
    var j :| 0 <= j < |key| && key[j] == c;
    forall i
      ensures !OccursAt(text, key, i)
    {
      if 0 <= i && i + |key| <= |text| {
        assert text[i..i + |key|][j] == text[i + j];
      }
    }
  }

  /** A key found between two pieces of text is contained in their
      concatenation. */
  lemma OccursBetween(a: string, key: string, b: string)
    ensures Occurs(a + key + b, key)
  {
    assert (a + key + b)[|a|..|a| + |key|] == key;
    assert OccursAt(a + key + b, key, |a|);
  }

  /** The scan finds a key placed between two pieces of text. */
  lemma ContainsBetween(a: string, key: string, b: string)
    ensures Contains(a + key + b, key)
  {
    OccursBetween(a, key, b);
    ContainsIffOccurs(a + key + b, key);
  }

  /** Three keys placed, in order, between four pieces of text are all
      found by the scan. */
  lemma ThreeKeysBetween(l0: string, k0: string, l1: string, k1: string, l2: string, k2: string, l3: string)
    ensures Contains(l0 + k0 + l1 + k1 + l2 + k2 + l3, k0)
    ensures Contains(l0 + k0 + l1 + k1 + l2 + k2 + l3, k1)
    ensures Contains(l0 + k0 + l1 + k1 + l2 + k2 + l3, k2)
  {
    var text := l0 + k0 + l1 + k1 + l2 + k2 + l3;
    assert text == l0 + k0 + (l1 + k1 + l2 + k2 + l3);
    assert text == (l0 + k0 + l1) + k1 + (l2 + k2 + l3);
    ContainsBetween(l0, k0, l1 + k1 + l2 + k2 + l3);
    ContainsBetween(l0 + k0 + l1, k1, l2 + k2 + l3);
    ContainsBetween(l0 + k0 + l1 + k1 + l2, k2, l3);
  }

  /** `keywords.all { text.contains(it) }`: conjunction over the list. */
  function MatchesAll(text: string, keywords: seq<string>): (r: bool)
    ensures r <==> forall i :: 0 <= i < |keywords| ==> Contains(text, keywords[i])
  {
    |keywords| == 0 || (Contains(text, keywords[0]) && MatchesAll(text, keywords[1..]))
  }

  /** The keyword check applied to recognized text. */
  function KeywordsFound(raw: string, keywords: seq<string>): (r: bool)
    ensures keywords == [] ==> r
    ensures r <==> forall i :: 0 <= i < |keywords| ==> Contains(Lowercase(raw), keywords[i])
  {
    MatchesAll(Lowercase(raw), keywords)
  }

  /** The keyword check passes iff every keyword is a substring of the
      lower-cased text. */
  lemma KeywordsFoundIff(raw: string, keywords: seq<string>)
    ensures KeywordsFound(raw, keywords) <==> forall k :: k in keywords ==> Occurs(Lowercase(raw), k)
  {
    forall k | k in keywords {
      ContainsIffOccurs(Lowercase(raw), k);
    }
  }

  /** The check does not depend on the case of the recognized text. */
  lemma KeywordsFoundIgnoresCase(raw: string, keywords: seq<string>)
    ensures KeywordsFound(Lowercase(raw), keywords) == KeywordsFound(raw, keywords)
  {
    LowercaseIdempotent(raw);
  }

  /** A keyword with a capital letter can never be found, whatever the
      text: lower-casing removes every capital from the text. */
  lemma CapitalKeywordNeverFound(raw: string, keywords: seq<string>, k: string, j: int)
    requires k in keywords
    requires 0 <= j < |k| && IsUpper(k[j])
    ensures !KeywordsFound(raw, keywords)
  {
    var text := Lowercase(raw);
    ContainsIffOccurs(text, k);
    forall i
      ensures !OccursAt(text, k, i)
    {
      if 0 <= i && i + |k| <= |text| {
        assert text[i..i + |k|][j] == text[i + j];
      }
    }
  }
}
