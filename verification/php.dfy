/**
 * The small part of PHP's runtime semantics the dispatcher relies on:
 * substring search (`strstr`), the values backends return, and the
 * truthiness test behind the `?:` operator.
 */
module Php {
  import opened Wrappers

  /** `needle` occurs in `haystack` starting at offset `i`. */
  predicate OccursAt(haystack: string, needle: string, i: nat) {
    i + |needle| <= |haystack| && haystack[i..i + |needle|] == needle
  }

  /** `needle` occurs somewhere in `haystack` (reference definition). */
  ghost predicate Contains(haystack: string, needle: string) {
    exists i: nat :: OccursAt(haystack, needle, i)
  }

  /** The first offset at or after `from` where `needle` occurs, if any. */
  function FirstOccurrenceFrom(haystack: string, needle: string, from: nat): (r: Option<nat>)
    requires needle != "" && from <= |haystack|
    ensures r.Some? ==> from <= r.value && OccursAt(haystack, needle, r.value)
    ensures r.Some? ==> forall j: nat :: from <= j < r.value ==> !OccursAt(haystack, needle, j)
    ensures r.None? ==> forall j: nat :: from <= j ==> !OccursAt(haystack, needle, j)
    decreases |haystack| - from
  {
    if from + |needle| > |haystack| then None
    else if haystack[from..from + |needle|] == needle then Some(from)
    else FirstOccurrenceFrom(haystack, needle, from + 1)
  }

  /**
   * PHP's `strstr($haystack, $needle)`: the part of `haystack` from the first
   * occurrence of `needle` to the end, or `false` (None) when there is none.
   * An empty needle is excluded because PHP versions disagree on it.
   */
  function StrStr(haystack: string, needle: string): (r: Option<string>)
    requires needle != ""
    ensures r.Some? <==> Contains(haystack, needle)
    ensures r.Some? ==> |r.value| <= |haystack| && r.value == haystack[|haystack| - |r.value|..]
    ensures r.Some? ==> OccursAt(r.value, needle, 0)
    ensures r.Some? ==> forall j: nat :: j < |haystack| - |r.value| ==> !OccursAt(haystack, needle, j)
  {
    match FirstOccurrenceFrom(haystack, needle, 0)
    case None => None
    case Some(i) => Some(haystack[i..])
  }

  /**
   * If character `k` of `needle` appears in `haystack` only at position `j`,
   * any occurrence of `needle` must start at `j - k`.
   */
  lemma AnchoredOccurrence(haystack: string, needle: string, k: nat, j: nat)
    requires k < |needle|
    requires forall m :: 0 <= m < |haystack| && haystack[m] == needle[k] ==> m == j
    ensures forall i: nat :: OccursAt(haystack, needle, i) ==> i + k == j
  {
    forall i: nat | OccursAt(haystack, needle, i)
      ensures i + k == j
    {
      assert haystack[i..i + |needle|][k] == haystack[i + k];
    }
  }

  /** The PHP values a backend can hand back to the dispatcher. */
  datatype Value = Bool(b: bool) | Int(n: int) | Str(s: string) | Null

  /** PHP's `$v === true`. */
  predicate IsStrictlyTrue(v: Value) {
    v == Bool(true)
  }

  /** A path parameter that defaults to `false` when the caller omits it. */
  datatype OptionalPath = Omitted | Given(path: string)

  /** PHP truthiness of a `string|false` parameter: `false`, `""` and `"0"` are falsy. */
  predicate Truthy(p: OptionalPath) {
    p.Given? && p.path != "" && p.path != "0"
  }

  /** `false`, `""` and `"0"` are exactly the falsy values of a `string|false` parameter. */
  lemma FalsyValues(p: OptionalPath)
    ensures !Truthy(p) <==> p == Omitted || p == Given("") || p == Given("0")
  {
  }

  /**
   * `=== true` accepts only the boolean `true`: values PHP would treat as
   * true in a condition, such as `1` or a non-empty string, do not pass.
   */
  lemma StrictlyTrueExcludesTruthyValues(v: Value)
    ensures IsStrictlyTrue(v) ==> v.Bool? && v.b
    ensures v.Int? || v.Str? || v.Null? || v == Bool(false) ==> !IsStrictlyTrue(v)
  {
  }

  /** PHP's `$p ?: $fallback` for a `string|false` operand. */
  function OrElse(p: OptionalPath, fallback: string): (r: string)
    ensures p == Omitted || p == Given("") || p == Given("0") ==> r == fallback
    ensures p.Given? && p.path != "" && p.path != "0" ==> r == p.path
  {
    if Truthy(p) then p.path else fallback
  }
}
