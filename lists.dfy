/** The array helpers the order service is written with: `filter`, and what
    taking element `[0]` of a filter result means. */
module Lists {

  /** `s.filter(keep)`: the elements of `s` that satisfy `keep`, in their
      order. `keep` may be partial; it need only be defined on `s`. */
  function Filter<T>(s: seq<T>, keep: T --> bool): (r: seq<T>)
    requires forall x :: x in s ==> keep.requires(x)
    ensures |r| <= |s|
    ensures forall x :: x in r ==> x in s && keep(x)
    decreases |s|
  {
    if s == [] then []
    else if keep(s[0]) then [s[0]] + Filter(s[1..], keep)
    else Filter(s[1..], keep)
  }

  /** `k` is the first position of `s` whose element satisfies `keep`. */
  ghost predicate IsFirst<T>(s: seq<T>, keep: T --> bool, k: int)
    requires forall x :: x in s ==> keep.requires(x)
  {
    0 <= k < |s| && keep(s[k]) && forall j :: 0 <= j < k ==> !keep(s[j])
  }

  /** A filter comes back empty exactly when nothing in `s` satisfies `keep`. */
  lemma {:induction false} FilterEmpty<T>(s: seq<T>, keep: T --> bool)
    requires forall x :: x in s ==> keep.requires(x)
    ensures Filter(s, keep) == [] <==> forall k :: 0 <= k < |s| ==> !keep(s[k])
    decreases |s|
  {
    if s != [] {
      FilterEmpty(s[1..], keep);
      assert forall k :: 1 <= k < |s| ==> s[k] == s[1..][k - 1];
    }
  }

  /** Element `[0]` of a non-empty filter is the first element of `s` that
      satisfies `keep`. */
  lemma {:induction false} FilterHead<T>(s: seq<T>, keep: T --> bool)
    requires forall x :: x in s ==> keep.requires(x)
    requires Filter(s, keep) != []
    ensures exists k :: IsFirst(s, keep, k) && Filter(s, keep)[0] == s[k]
    decreases |s|
  {
    if keep(s[0]) {
      assert IsFirst(s, keep, 0);
    } else {
      FilterHead(s[1..], keep);
      var j :| IsFirst(s[1..], keep, j) && Filter(s[1..], keep)[0] == s[1..][j];
      assert forall i :: 1 <= i <= j + 1 ==> s[i] == s[1..][i - 1];
      assert IsFirst(s, keep, j + 1);
    }
  }
}
