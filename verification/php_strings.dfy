/**
  The few PHP string builtins the plugin's decisions depend on: truthiness of a
  string, `strpos`, substring search (the literal regular expression of
  `preg_match('/_task=logout/', ...)`) and ASCII `strtolower`.
*/
module PhpStrings {
  import opened Wrappers

  /** PHP truthiness of a string (`!empty($s)`, `if ($s)`): only "" and "0" are
      falsy. A missing array entry reads as null, which the model writes as "". */
  predicate Truthy(s: string) {
    s != "" && s != "0"
  }

  /** `needle` occurs in `s` starting at index `i`. */
  predicate OccursAt(s: string, needle: string, i: nat) {
    i + |needle| <= |s| && s[i..i + |needle|] == needle
  }

  /** `i` is the first index at which `needle` occurs in `s`. */
  predicate FirstOccurrence(s: string, needle: string, i: nat) {
    OccursAt(s, needle, i) && forall j: nat :: j < i ==> !OccursAt(s, needle, j)
  }

  function StrPosFrom(s: string, needle: string, i: nat): (r: Option<nat>)
    requires i <= |s|
    ensures r.Some? ==> i <= r.value && OccursAt(s, needle, r.value)
    ensures r.Some? ==> forall j: nat :: i <= j < r.value ==> !OccursAt(s, needle, j)
    ensures r.None? ==> forall j: nat :: i <= j ==> !OccursAt(s, needle, j)
    decreases |s| - i
  {
    if OccursAt(s, needle, i) then Some(i)
    else if i == |s| then None
    else StrPosFrom(s, needle, i + 1)
  }

  /** `strpos($s, $needle)`: the first index of `needle` in `s`, or `false`
      (None) when it does not occur. */
  function StrPos(s: string, needle: string): (r: Option<nat>)
    ensures r.Some? ==> FirstOccurrence(s, needle, r.value)
    ensures r.None? ==> forall j: nat :: !OccursAt(s, needle, j)
  {
    StrPosFrom(s, needle, 0)
  }

  /** A first occurrence is unique. */
  lemma FirstOccurrenceUnique(s: string, needle: string, i: nat, j: nat)
    requires FirstOccurrence(s, needle, i) && FirstOccurrence(s, needle, j)
    ensures i == j
  {
  }

  /** Whether `needle` occurs anywhere in `s` (a `preg_match` with a pattern of
      literal characters). */
  function Contains(s: string, needle: string): (b: bool)
    ensures b <==> exists j: nat :: OccursAt(s, needle, j)
  {
    StrPos(s, needle).Some?
  }

  function ToLowerChar(c: char): char {
    if 'A' <= c <= 'Z' then (c as int + 32) as char else c
  }

  /** `strtolower`, which since PHP 8.2 maps only the ASCII letters A-Z. */
  function ToLower(s: string): (r: string)
    ensures |r| == |s|
    ensures forall i :: 0 <= i < |s| ==> r[i] == ToLowerChar(s[i])
  {
    seq(|s|, i requires 0 <= i < |s| => ToLowerChar(s[i]))
  }

  lemma ToLowerAppend(a: string, b: string)
    ensures ToLower(a + b) == ToLower(a) + ToLower(b)
  {
    assert forall i :: 0 <= i < |a + b| ==> ToLower(a + b)[i] == (ToLower(a) + ToLower(b))[i];
  }
}
