/** Shader-safe (HLSL) identifiers: a non-empty name whose first character is
    an ASCII letter or `_` and whose other characters are ASCII letters, digits
    or `_`. Names that clash after sanitising are not disambiguated. */
module HlslNames {

  /** A character of `abcdefghijklmnopqrstuvwxyzABCDEFGHIJKLMNOPQRSTUVWXYZ_`. */
  predicate IsHeadChar(c: char) {
    ('a' <= c <= 'z') || ('A' <= c <= 'Z') || c == '_'
  }

  /** A head character or a digit `0123456789`. */
  predicate IsTailChar(c: char) {
    IsHeadChar(c) || ('0' <= c <= '9')
  }

  predicate IsSafeName(s: string) {
    && |s| > 0
    && IsHeadChar(s[0])
    && forall k :: 1 <= k < |s| ==> IsTailChar(s[k])
  }

  /** Every character of `s` may occur after the head of an identifier. */
  predicate AllTailChars(s: string)
    decreases |s|
  {
    |s| == 0 || (IsTailChar(s[0]) && AllTailChars(s[1..]))
  }

  lemma {:induction false} AllTailCharsMeans(s: string)
    ensures AllTailChars(s) <==> forall k :: 0 <= k < |s| ==> IsTailChar(s[k])
    decreases |s|
  {
    if |s| > 0 {
      AllTailCharsMeans(s[1..]);
      assert forall k :: 1 <= k < |s| ==> s[k] == s[1..][k - 1];
    }
  }

  /** A name made only of tail characters is left alone by sanitising. */
  lemma SanitizeAllKeeps(s: string)
    requires AllTailChars(s)
    ensures SanitizeAll(s) == s
  {
    AllTailCharsMeans(s);
  }

  /** A tail character is kept; any other character becomes `_`. */
  function SanitizeChar(c: char): (r: char)
    ensures IsTailChar(r)
    ensures IsTailChar(c) ==> r == c
  {
    if IsTailChar(c) then c else '_'
  }

  function SanitizeAll(s: string): (r: string)
    ensures |r| == |s|
    ensures forall k :: 0 <= k < |s| ==> r[k] == SanitizeChar(s[k])
  {
    seq(|s|, k requires 0 <= k < |s| => SanitizeChar(s[k]))
  }

  /** The safe name of `raw`: `_` for the empty name; otherwise `raw` with a
      `_` put in front when its first character cannot start an identifier,
      and every later character that cannot occur in one replaced by `_`. */
  function SafeName(raw: string): (r: string)
    ensures IsSafeName(r)
    ensures |raw| == 0 ==> r == "_"
    ensures |raw| > 0 && IsHeadChar(raw[0]) ==>
              && |r| == |raw|
              && r[0] == raw[0]
              && forall k :: 1 <= k < |raw| ==> r[k] == SanitizeChar(raw[k])
    ensures |raw| > 0 && !IsHeadChar(raw[0]) ==>
              && |r| == |raw| + 1
              && r[0] == '_'
              && forall k :: 0 <= k < |raw| ==> r[k + 1] == SanitizeChar(raw[k])
  {
    if |raw| == 0 then "_"
    else if IsHeadChar(raw[0]) then [raw[0]] + SanitizeAll(raw[1..])
    else "_" + SanitizeAll(raw)
  }

  /** The transform as the engine performs it: copy the name, put `_` in front
      when the head is not a head character, then overwrite every disallowed
      character from position 1 on with `_`. */
  method CreateHlslSafeName(raw: string) returns (safe: string)
    ensures safe == SafeName(raw)
    ensures IsSafeName(safe)
  {
    if |raw| == 0 {
      return "_";
    }
    safe := raw;
    if !IsHeadChar(safe[0]) {
      safe := "_" + safe;
    }
    ghost var start := safe;
    var i := 1;
    while i < |safe|
      invariant 1 <= i <= |safe| == |start|
      invariant safe[0] == start[0]
      invariant forall k :: 1 <= k < i ==> safe[k] == SanitizeChar(start[k])
      invariant forall k :: i <= k < |safe| ==> safe[k] == start[k]
    {
      if !IsTailChar(safe[i]) {
        safe := safe[i := '_'];
      }
      i := i + 1;
    }
    assert |safe| == |SafeName(raw)|;
    assert forall k :: 0 <= k < |safe| ==> safe[k] == SafeName(raw)[k];
  }

  /** Sanitising changes nothing exactly when the name is already safe, so
      applying it twice is the same as applying it once. */
  lemma SafeNameFixedPoints(s: string)
    ensures SafeName(s) == s <==> IsSafeName(s)
  {
    if IsSafeName(s) {
      assert forall k :: 0 <= k < |s| ==> SafeName(s)[k] == s[k];
    }
  }

  lemma SafeNameIdempotent(raw: string)
    ensures SafeName(SafeName(raw)) == SafeName(raw)
  {
    SafeNameFixedPoints(SafeName(raw));
  }

  /** Every character of `raw` that may appear in an identifier at its
      position is kept, at the same position or one further right. */
  lemma SafeNamePreservesAllowed(raw: string, k: nat)
    requires 1 <= k < |raw|
    requires IsTailChar(raw[k])
    ensures IsHeadChar(raw[0]) ==> SafeName(raw)[k] == raw[k]
    ensures !IsHeadChar(raw[0]) ==> SafeName(raw)[k + 1] == raw[k]
  {
  }

  /** A name starting with a digit keeps the digit behind an added `_`. */
  lemma LeadingDigitExample()
    ensures SafeName("1abc") == "_1abc"
  {
    assert !IsHeadChar("1abc"[0]);
    SanitizeAllKeeps("1abc");
    assert SafeName("1abc") == "_" + SanitizeAll("1abc");
    assert "_" + "1abc" == "_1abc";
  }

  /** Whitespace is not collapsed: a single blank becomes two underscores, the
      added head and the replaced blank. */
  lemma BlankNameExample()
    ensures SafeName(" ") == "__"
  {
    assert !IsHeadChar(' ');
    assert SanitizeAll(" ") == "_";
  }
}
