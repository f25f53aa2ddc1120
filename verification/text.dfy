/** The Kotlin string operations the phone conversion relies on. */
module Text {
  import opened Wrappers

  /** `s.startsWith(p)`. */
  predicate StartsWith(s: string, p: string)
  {
    |p| <= |s| && s[..|p|] == p
  }

  /** `p` occurs in `s` starting at index `i`. */
  predicate OccursAt(s: string, p: string, i: nat)
  {
    i + |p| <= |s| && s[i..i + |p|] == p
  }

  /** The first index at or after `from` where `p` occurs in `s`. */
  function IndexOfFrom(s: string, p: string, from: nat): (r: Option<nat>)
    ensures r.Some? ==> from <= r.value && OccursAt(s, p, r.value)
    ensures r.Some? ==> forall j :: from <= j < r.value ==> !OccursAt(s, p, j)
    ensures r.None? ==> forall j :: from <= j ==> !OccursAt(s, p, j)
    decreases |s| + 1 - from
  {
    if from + |p| > |s| then None
    else if OccursAt(s, p, from) then Some(from)
    else IndexOfFrom(s, p, from + 1)
  }

  /** `s.indexOf(p)`: the first occurrence of `p` in `s`, `None` for Kotlin's -1. */
  function IndexOf(s: string, p: string): Option<nat>
  {
    IndexOfFrom(s, p, 0)
  }

  /**
   * `s.replaceFirst(target, replacement)`: the first occurrence of `target`
   * is replaced; without an occurrence the string comes back unchanged.
   */
  function ReplaceFirst(s: string, target: string, replacement: string): (r: string)
    ensures IndexOf(s, target).None? ==> r == s
    ensures IndexOf(s, target).Some? ==>
      var i := IndexOf(s, target).value;
      |r| == |s| - |target| + |replacement| && r[..i] == s[..i] && r[i..i + |replacement|] == replacement && r[i + |replacement|..] == s[i + |target|..]
  {
    match IndexOf(s, target)
    case None => s
    case Some(i) => s[..i] + replacement + s[i + |target|..]
  }

  /** When `s` starts with `target`, the first occurrence is the prefix itself. */
  lemma ReplaceFirstOfPrefix(s: string, target: string, replacement: string)
    requires StartsWith(s, target)
    ensures ReplaceFirst(s, target, replacement) == replacement + s[|target|..]
  {
  }
}
