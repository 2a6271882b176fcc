/** Name comparison as the engine's string equality performs it: two names are
    equal when they have the same length and agree character by character
    after folding ASCII upper case to lower case. Characters outside ASCII are
    compared as they are. */
module CaseFolding {

  /** `c` with `A`..`Z` folded to `a`..`z`; every other character unchanged. */
  function ToLowerAscii(c: char): (r: char)
    ensures 'A' <= c <= 'Z' ==> r as int == c as int + 32
    ensures !('A' <= c <= 'Z') ==> r == c
  {
    if 'A' <= c <= 'Z' then (c as int + 32) as char else c
  }

  /** Equality of names ignoring ASCII case. */
  predicate EqualsIgnoreCase(a: string, b: string) {
    |a| == |b| && forall k :: 0 <= k < |a| ==> ToLowerAscii(a[k]) == ToLowerAscii(b[k])
  }

  /** Two characters fold to the same character exactly when they are equal or
      are the upper- and lower-case forms of one ASCII letter. */
  lemma FoldedCharsAgree(c: char, d: char)
    ensures ToLowerAscii(c) == ToLowerAscii(d) <==>
              || c == d
              || ('A' <= c <= 'Z' && d as int == c as int + 32)
              || ('A' <= d <= 'Z' && c as int == d as int + 32)
  {
  }

  /** Comparing while ignoring case is an equivalence that equal names satisfy. */
  lemma EqualsIgnoreCaseIsEquivalence(a: string, b: string, c: string)
    ensures EqualsIgnoreCase(a, a)
    ensures EqualsIgnoreCase(a, b) ==> EqualsIgnoreCase(b, a)
    ensures EqualsIgnoreCase(a, b) && EqualsIgnoreCase(b, c) ==> EqualsIgnoreCase(a, c)
  {
  }

  /** Names differing only in the case of ASCII letters are equal; a name
      never equals a longer one. */
  lemma HousesExample()
    ensures EqualsIgnoreCase("houses", "Houses")
    ensures EqualsIgnoreCase("_feature_id_texture_0", "_FEATURE_ID_TEXTURE_0")
    ensures !EqualsIgnoreCase("house", "houses")
  {
    assert ToLowerAscii('H') == 'h';
  }
}
