/** First-match search, as the core's `.first()` queries and `for ... break` loops do it. */
module Sequences {
  import opened Wrappers

  /** The first index of `s` whose element satisfies `p`. */
  function FirstWhere<T>(s: seq<T>, p: T -> bool): (r: Option<nat>)
    ensures r.Some? ==> r.value < |s| && p(s[r.value]) && forall k :: 0 <= k < r.value ==> !p(s[k])
    ensures r.None? ==> forall k :: 0 <= k < |s| ==> !p(s[k])
  {
    if s == [] then None
    else if p(s[0]) then Some(0)
    else
      match FirstWhere(s[1..], p)
      case None => None
      case Some(k) => Some(k + 1)
  }

  /** An index whose element is the first to satisfy `p` is the one found. */
  lemma FirstWhereAt<T>(s: seq<T>, p: T -> bool, i: nat)
    requires i < |s| && p(s[i]) && forall k :: 0 <= k < i ==> !p(s[k])
    ensures FirstWhere(s, p) == Some(i)
  {
  }
}
