/** The searches of `std::string` that the models share. */
module Strings {
  import opened Buffers
  import opened Wrappers

  /** `std::string::find`: the first place of `t` from `p` on. */
  function Find(d: string, p: nat, t: string): (r: Option<nat>)
    ensures r.Some? ==> p <= r.value && r.value + |t| <= |d| && At(d, r.value, t)
    ensures r.Some? ==> forall k :: p <= k < r.value ==> !At(d, k, t)
    ensures r.None? ==> forall k :: p <= k <= |d| ==> !At(d, k, t)
    decreases |d| - p
  {
    if At(d, p, t) then Some(p)
    else if p >= |d| then None
    else Find(d, p + 1, t)
  }
}
