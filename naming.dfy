/** The name normaliser `remove_replicaset_hash`: strip one trailing `-<alnum+>` segment. */
module Naming {
  import opened Wrappers
  import opened Text

  /** Position of the last `-` in `s`, if there is one. */
  function LastDash(s: string): (r: Option<nat>)
    ensures r.Some? ==> r.value < |s| && s[r.value] == '-'
    ensures r.Some? ==> forall j :: r.value < j < |s| ==> s[j] != '-'
    ensures r.None? ==> forall j :: 0 <= j < |s| ==> s[j] != '-'
    decreases |s|
  {
    if s == [] then None
    else if s[|s| - 1] == '-' then Some(|s| - 1)
    else LastDash(s[..|s| - 1])
  }

  /** The pattern `-[a-zA-Z0-9]+$` matches `s` starting at position `i`. */
  predicate HashSuffixAt(s: string, i: int) {
    0 <= i < |s| - 1 && s[i] == '-' && AllAlnum(s[i + 1..])
  }

  /**
   * Cut `s` at its last `-` when what follows is a non-empty run of ASCII
   * letters and digits; otherwise return `s` unchanged.
   */
  function RemoveHash(s: string): (r: string)
    ensures r <= s
  {
    match LastDash(s)
    case None => s
    case Some(i) => if i + 1 < |s| && AllAlnum(s[i + 1..]) then s[..i] else s
  }

  /**
   * RemoveHash is the regular-expression substitution of `-[a-zA-Z0-9]+$`
   * by the empty string: the match is cut off, and with no match the input
   * comes back unchanged.
   */
  lemma RemoveHashMatchesPattern(s: string)
    ensures forall i :: HashSuffixAt(s, i) ==> RemoveHash(s) == s[..i]
    ensures (forall i :: !HashSuffixAt(s, i)) ==> RemoveHash(s) == s
  {
    match LastDash(s)
    case None =>
      forall i | HashSuffixAt(s, i) ensures false {
      }
    case Some(d) =>
      if d + 1 < |s| && AllAlnum(s[d + 1..]) {
        assert HashSuffixAt(s, d);
      }
      forall i | HashSuffixAt(s, i) ensures RemoveHash(s) == s[..i] {
        assert HashSuffixAt(s, d);
      }
  }

  /** Appending `-h` for an alphanumeric `h` and normalising gives back exactly the stem. */
  lemma RemoveHashStripsOneSegment(stem: string, h: string)
    requires h != [] && AllAlnum(h)
    ensures RemoveHash(stem + "-" + h) == stem
  {
    var s := stem + "-" + h;
    assert s[|stem| + 1..] == h;
    assert HashSuffixAt(s, |stem|);
    RemoveHashMatchesPattern(s);
    assert s[..|stem|] == stem;
  }

  /** With no `-` at all, or with `-` as the last character, the name is kept. */
  lemma RemoveHashKeeps(s: string)
    requires '-' !in s || (s != [] && s[|s| - 1] == '-')
    ensures RemoveHash(s) == s
  {
  }

  /** The normaliser removes one segment per call, so applying it twice can remove two. */
  lemma RemoveHashNotIdempotent()
    ensures exists s :: RemoveHash(RemoveHash(s)) != RemoveHash(s)
  {
    RemoveHashStripsOneSegment("app-x", "y");
    RemoveHashStripsOneSegment("app", "x");
    assert RemoveHash("app-x-y") == "app-x";
    assert RemoveHash(RemoveHash("app-x-y")) == "app";
  }
}
