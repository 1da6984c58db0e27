/** The java.util.List operations the combat screen uses, over a list held as a sequence. */
module ListOps {
  import opened Wrappers

  /**
   * No element occurs twice. The quantifier fires only on an explicit
   * `Differ` term, which keeps it from flooding proofs that merely carry it.
   */
  ghost predicate Distinct<T>(s: seq<T>) {
    forall i, j :: 0 <= i < j < |s| ==> Differ(s, i, j)
  }

  ghost predicate Differ<T>(s: seq<T>, i: int, j: int) {
    0 <= i < |s| && 0 <= j < |s| && s[i] != s[j]
  }

  lemma DistinctAt<T>(s: seq<T>, i: nat, j: nat)
    requires Distinct(s) && i < |s| && j < |s| && i != j
    ensures s[i] != s[j]
  {
    if i < j { assert Differ(s, i, j); } else { assert Differ(s, j, i); }
  }

  /** Appending an element not yet present keeps a list free of duplicates. */
  lemma DistinctAppend<T>(s: seq<T>, x: T)
    requires Distinct(s) && x !in s
    ensures Distinct(s + [x])
  {
    var r := s + [x];
    forall i, j | 0 <= i < j < |r|
      ensures Differ(r, i, j)
    {
      if j < |s| { assert Differ(s, i, j); }
    }
  }

  /** `List.indexOf`: the position of the first element equal to `x`; None stands for -1. */
  function IndexOf<T(==)>(s: seq<T>, x: T): (r: Option<nat>)
    ensures r.None? <==> x !in s
    ensures r.Some? ==> r.value < |s| && s[r.value] == x && x !in s[..r.value]
  {
    if |s| == 0 then None
    else if s[0] == x then Some(0)
    else match IndexOf(s[1..], x)
      case None => None
      case Some(i) => assert s[1..][..i] == s[1..i + 1]; Some(i + 1)
  }

  /** `List.remove(int)`: the list without its element at position `k`. */
  function RemoveAt<T>(s: seq<T>, k: nat): (r: seq<T>)
    requires k < |s|
    ensures |r| == |s| - 1
    ensures forall i :: 0 <= i < k ==> r[i] == s[i]
    ensures forall i :: k <= i < |r| ==> r[i] == s[i + 1]
  {
    s[..k] + s[k + 1..]
  }

  /** `remove(indexOf(x))` guarded by `indexOf(x) >= 0`: drops the first occurrence of `x`, if any. */
  function RemoveFirst<T(==)>(s: seq<T>, x: T): (r: seq<T>)
    ensures x !in s ==> r == s
    ensures x in s ==> |r| == |s| - 1 && multiset(r) == multiset(s) - multiset{x}
    ensures x in s ==> exists k :: 0 <= k < |s| && s[k] == x && x !in s[..k] && r == s[..k] + s[k + 1..]
  {
    match IndexOf(s, x)
    case None => s
    case Some(k) =>
      assert s == s[..k] + [x] + s[k + 1..];
      RemoveAt(s, k)
  }

  /** In a list without duplicates, the element at `k` is found at `k`. */
  lemma IndexOfDistinct<T>(s: seq<T>, k: nat)
    requires Distinct(s) && k < |s|
    ensures IndexOf(s, s[k]) == Some(k)
  {
    var r := IndexOf(s, s[k]);
    if r.value != k {
      DistinctAt(s, r.value, k);
    }
  }

  /** Removing an element keeps a list free of duplicates and drops exactly that element. */
  lemma RemoveAtDistinct<T>(s: seq<T>, k: nat)
    requires Distinct(s) && k < |s|
    ensures Distinct(RemoveAt(s, k))
    ensures s[k] !in RemoveAt(s, k)
    ensures forall i :: 0 <= i < |s| && i != k ==> s[i] in RemoveAt(s, k)
  {
    var r := RemoveAt(s, k);
    forall i, j | 0 <= i < j < |r|
      ensures Differ(r, i, j)
    {
      var i', j' := if i < k then i else i + 1, if j < k then j else j + 1;
      DistinctAt(s, i', j');
    }
    forall i | 0 <= i < |r|
      ensures r[i] != s[k]
    {
      DistinctAt(s, if i < k then i else i + 1, k);
    }
    forall i | 0 <= i < |s| && i != k
      ensures s[i] in r
    {
      if i < k { assert r[i] == s[i]; } else { assert r[i - 1] == s[i]; }
    }
  }
}
