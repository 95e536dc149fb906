/** Array.prototype.find over an immutable table, as used for both static lookup tables. */
module Find {
  import opened Wrappers

  /** Position of the first element satisfying p, or |s| when none does. */
  function FirstIndex<T>(s: seq<T>, p: T -> bool): (j: nat)
    ensures j <= |s|
    ensures forall k :: 0 <= k < j ==> !p(s[k])
    ensures j < |s| ==> p(s[j])
  {
    if s == [] then 0
    else if p(s[0]) then 0
    else 1 + FirstIndex(s[1..], p)
  }

  /** The first element satisfying p, or None (JavaScript's undefined). */
  function FindFirst<T>(s: seq<T>, p: T -> bool): (r: Option<T>)
    ensures r.None? <==> forall k :: 0 <= k < |s| ==> !p(s[k])
    ensures r.Some? ==> exists j :: 0 <= j < |s| && s[j] == r.value && p(s[j]) && forall k :: 0 <= k < j ==> !p(s[k])
  {
    var j := FirstIndex(s, p);
    if j < |s| then Some(s[j]) else None
  }
}
