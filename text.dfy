/** The few operations on Python strings that the tool relies on:
    `str.startswith` (with a tuple of prefixes), `str.endswith` and `str.lower`. */
module Text {

  /** `s.startswith(prefix)`: Dafny's `<=` on sequences is the prefix order. */
  predicate StartsWith(s: string, prefix: string): (b: bool)
    ensures b <==> |prefix| <= |s| && s[..|prefix|] == prefix
  {
    prefix <= s
  }

  /** `s.endswith(suffix)` */
  predicate EndsWith(s: string, suffix: string): (b: bool)
    ensures b <==> |suffix| <= |s| && s == s[..|s| - |suffix|] + suffix
  {
    |suffix| <= |s| && s[|s| - |suffix|..] == suffix
  }

  /** `s.startswith(tuple(prefixes))`: true when at least one prefix matches;
      an empty tuple matches nothing. */
  predicate HasAnyPrefix(s: string, prefixes: seq<string>)
  {
    exists k | 0 <= k < |prefixes| :: StartsWith(s, prefixes[k])
  }

  /** The tuple test as membership: some prefix in the tuple matches. */
  lemma HasAnyPrefixMembership(s: string, prefixes: seq<string>)
    ensures HasAnyPrefix(s, prefixes) <==> exists p :: p in prefixes && StartsWith(s, p)
    ensures prefixes == [] ==> !HasAnyPrefix(s, prefixes)
  {
    if HasAnyPrefix(s, prefixes) {
      var k :| 0 <= k < |prefixes| && StartsWith(s, prefixes[k]);
      assert prefixes[k] in prefixes;
    }
  }

  predicate IsUpper(c: char)
  {
    'A' <= c <= 'Z'
  }

  /** Lower-casing of one character. Only ASCII letters are folded: no other
      character lower-cases to one of the letters of "red" or "green", so the
      colour comparisons of the diagram builder come out as with `str.lower`. */
  function LowerChar(c: char): (r: char)
    ensures IsUpper(c) ==> r as int == c as int + 32
    ensures !IsUpper(c) ==> r == c
    ensures !IsUpper(r)
  {
    if IsUpper(c) then (c as int + 32) as char else c
  }

  /** `s.lower()`, character by character. */
  function Lower(s: string): (r: string)
    ensures |r| == |s|
    ensures forall i :: 0 <= i < |s| ==> r[i] == LowerChar(s[i])
  {
    if s == [] then [] else [LowerChar(s[0])] + Lower(s[1..])
  }

  /** Lower-casing is idempotent. */
  lemma LowerIdempotent(s: string)
    ensures Lower(Lower(s)) == Lower(s)
  {
  }

  /** A string without upper-case letters is its own lower-case form. */
  lemma LowerFixesLowercase(s: string)
    requires forall i :: 0 <= i < |s| ==> !IsUpper(s[i])
    ensures Lower(s) == s
  {
  }

  /** `s + "_"` never ends with a suffix that does not end in '_'. */
  lemma EndsWithAppended(s: string, suffix: string, c: char)
    requires |suffix| > 0 && suffix[|suffix| - 1] != c
    ensures !EndsWith(s + [c], suffix)
  {
  }
}
