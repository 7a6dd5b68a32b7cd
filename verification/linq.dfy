/**
  The handful of list queries the service runs over its in-memory lists:
  `FirstOrDefault` with a predicate, `Where`, `Any` and `List.Remove`.
  A C# reference that may be null is an `Option`.
 */
module Linq {

  datatype Option<+T> = None | Some(value: T)

  /** Position of the first element satisfying `p`; `None` plays the part of
      the null that `FirstOrDefault` yields when nothing matches. */
  function FirstIndex<T>(s: seq<T>, p: T -> bool): (r: Option<nat>)
    ensures r.None? <==> forall i :: 0 <= i < |s| ==> !p(s[i])
    ensures r.Some? ==> r.value < |s| && p(s[r.value])
    ensures r.Some? ==> forall j :: 0 <= j < r.value ==> !p(s[j])
  {
    if |s| == 0 then None
    else if p(s[0]) then Some(0)
    else
      match FirstIndex(s[1..], p)
      case None => None
      case Some(i) => Some(i + 1)
  }

  /** `Any(p)`: some element satisfies `p`. */
  function Any<T>(s: seq<T>, p: T -> bool): (b: bool)
    ensures b <==> FirstIndex(s, p).Some?
  {
    exists i :: 0 <= i < |s| && p(s[i])
  }

  /** `Where(p)`: the elements satisfying `p`, in their original order. */
  function Where<T(==,!new)>(s: seq<T>, p: T -> bool): (r: seq<T>)
    ensures forall x :: multiset(r)[x] == if p(x) then multiset(s)[x] else 0
    ensures forall x :: x in r <==> x in s && p(x)
    ensures |r| <= |s|
  {
    if |s| == 0 then []
    else
      assert s == [s[0]] + s[1..];
      (if p(s[0]) then [s[0]] else []) + Where(s[1..], p)
  }

  lemma ConcatAssoc<T>(x: seq<T>, y: seq<T>, z: seq<T>)
    ensures x + (y + z) == (x + y) + z
  {
  }

  /** `Where` keeps the input order: filtering a concatenation filters each
      part in turn. With the contract above on one-element lists, this
      determines `Where` on every list. */
  lemma {:induction false} WhereConcat<T(!new)>(a: seq<T>, b: seq<T>, p: T -> bool)
    ensures Where(a + b, p) == Where(a, p) + Where(b, p)
  {
    if |a| == 0 {
      assert a + b == b;
    } else {
      var head := if p(a[0]) then [a[0]] else [];
      assert (a + b)[0] == a[0];
      assert (a + b)[1..] == a[1..] + b;
      assert Where(a, p) == head + Where(a[1..], p);
      assert Where(a + b, p) == head + Where(a[1..] + b, p);
      WhereConcat(a[1..], b, p);
      ConcatAssoc(head, Where(a[1..], p), Where(b, p));
    }
  }

  /** The list with the element at position `k` removed, as `List.Remove`
      does once it has found that element. */
  function RemoveAt<T>(s: seq<T>, k: nat): (r: seq<T>)
    requires k < |s|
    ensures |r| == |s| - 1
    ensures forall j :: 0 <= j < k ==> r[j] == s[j]
    ensures forall j :: k <= j < |r| ==> r[j] == s[j + 1]
  {
    s[..k] + s[k + 1..]
  }
}
