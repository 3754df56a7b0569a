/** Lookups in a table held as a sequence of rows: `query.filter_by(...).first()`
    and `query.get(...)` both yield the first row that matches, if any. */
module Query {
  import opened Wrappers

  /** Index of the first element of `s` satisfying `p`. */
  function First<T>(s: seq<T>, p: T -> bool): (r: Option<nat>)
    ensures r.Some? ==> r.value < |s| && p(s[r.value])
    ensures r.Some? ==> forall j :: 0 <= j < r.value ==> !p(s[j])
    ensures r.None? <==> forall j :: 0 <= j < |s| ==> !p(s[j])
  {
    if s == [] then None
    else if p(s[0]) then Some(0)
    else
      match First(s[1..], p)
      case None => None
      case Some(k) => Some(k + 1)
  }

  /** When exactly one row matches, the lookup finds that row. */
  lemma FirstOfOnly<T>(s: seq<T>, i: nat, p: T -> bool)
    requires i < |s| && p(s[i])
    requires forall j :: 0 <= j < |s| && j != i ==> !p(s[j])
    ensures First(s, p) == Some(i)
  {
  }
}
