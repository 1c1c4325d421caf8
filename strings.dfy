/** Searching a string for a character, as `indexOf` and `split` do. */
module Strings {
  import opened Results

  /** The position of the first `c` in `s`, if any. */
  function IndexOf(s: string, c: char): (r: Option<nat>)
    ensures r.Some? ==> r.value < |s| && s[r.value] == c && c !in s[..r.value]
    ensures r.None? <==> c !in s
  {
    if s == [] then None
    else if s[0] == c then Some(0)
    else match IndexOf(s[1..], c)
      case None => None
      case Some(i) =>
        assert s[..i + 1] == [s[0]] + s[1..][..i];
        Some(i + 1)
  }

  /** Skipping a prefix that lacks `c` moves the first `c` by the prefix's length. */
  lemma {:induction false} IndexOfAfter(prefix: string, c: char, rest: string)
    requires c !in prefix
    ensures IndexOf(prefix + [c] + rest, c) == Some(|prefix|)
  {
    if prefix != [] {
      assert (prefix + [c] + rest)[1..] == prefix[1..] + [c] + rest;
      IndexOfAfter(prefix[1..], c, rest);
    }
  }
}
