/**
 * The two regular expressions the plugin uses by default, made concrete:
 * `/\.aml$/` for file names and `/markdown/` for property names.
 */
module Patterns {
  import opened JsValues

  predicate EndsWith(s: string, suffix: string) {
    |suffix| <= |s| && s[|s| - |suffix|..] == suffix
  }

  predicate OccursAt(s: string, part: string, i: int) {
    0 <= i <= |s| - |part| && s[i..i + |part|] == part
  }

  predicate Contains(s: string, part: string) {
    exists i | 0 <= i <= |s| - |part| :: OccursAt(s, part, i)
  }

  /** `/\.aml$/.test(base)`: without the `m` flag, `$` matches only at the end of the input. */
  predicate IsAmlFileName(base: string) {
    EndsWith(base, ".aml")
  }

  /** `/markdown/.test(key)`. */
  predicate IsMarkdownKey(key: string) {
    Contains(key, "markdown")
  }

  /** Under the default key pattern, no array index ever selects an element. */
  lemma IndexKeyIsNeverMarkdownKey(i: nat)
    ensures !IsMarkdownKey(IndexKey(i))
  {
    var s := IndexKey(i);
    forall k | 0 <= k <= |s| - 8 ensures !OccursAt(s, "markdown", k) {
      assert '0' <= s[k] <= '9';
    }
  }
}
