/** Lists as sequences: looking an element up and taking one out. */
module Sequences {
  import opened Options

  /** The first element from `i` on that `p` holds of, as a walk with a return finds it. */
  function FirstFrom<T>(s: seq<T>, p: T -> bool, i: nat): (r: Option<nat>)
    requires i <= |s|
    ensures r.Some? ==> i <= r.value < |s| && p(s[r.value]) && forall j :: i <= j < r.value ==> !p(s[j])
    ensures r.None? ==> forall j :: i <= j < |s| ==> !p(s[j])
    decreases |s| - i
  {
    if i == |s| then None else if p(s[i]) then Some(i) else FirstFrom(s, p, i + 1)
  }

  /** The list with the element at `i` deleted. */
  function Without<T>(s: seq<T>, i: nat): seq<T>
    requires i < |s|
  {
    s[..i] + s[i + 1..]
  }
}
