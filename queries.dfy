/** The LINQ operators the store applies to its tables, over sequences in table order. */
module Queries {
  import opened Outcomes

  /** Where: the elements satisfying p, in their original order. */
  function Filter<T>(s: seq<T>, p: T -> bool): (r: seq<T>)
    ensures |r| <= |s|
    ensures forall i :: 0 <= i < |r| ==> r[i] in s && p(r[i])
    ensures forall i :: 0 <= i < |s| && p(s[i]) ==> s[i] in r
  {
    if s == [] then []
    else
      assert forall i :: 1 <= i < |s| ==> s[i] == s[1..][i - 1];
      (if p(s[0]) then [s[0]] else []) + Filter(s[1..], p)
  }

  /** Count(p): how many elements satisfy p. */
  function CountWhere<T>(s: seq<T>, p: T -> bool): (r: nat)
    ensures r <= |s|
    ensures r == 0 <==> forall i :: 0 <= i < |s| ==> !p(s[i])
  {
    if s == [] then 0
    else
      assert forall i :: 1 <= i < |s| ==> s[i] == s[1..][i - 1];
      (if p(s[0]) then 1 else 0) + CountWhere(s[1..], p)
  }

  /** The position FirstOrDefault stops at: the first element satisfying p. */
  function FirstIndex<T>(s: seq<T>, p: T -> bool): (r: Option<nat>)
    ensures r.None? <==> forall i :: 0 <= i < |s| ==> !p(s[i])
    ensures r.Some? ==> r.value < |s| && p(s[r.value]) && forall j :: 0 <= j < r.value ==> !p(s[j])
  {
    if s == [] then None
    else if p(s[0]) then Some(0)
    else
      assert forall i :: 1 <= i < |s| ==> s[i] == s[1..][i - 1];
      match FirstIndex(s[1..], p)
      case None => None
      case Some(k) => Some(k + 1)
  }

  /** FirstOrDefault(p): the first element satisfying p, or null. */
  function FirstOrDefault<T>(s: seq<T>, p: T -> bool): (r: Option<T>)
    ensures r.None? <==> forall i :: 0 <= i < |s| ==> !p(s[i])
    ensures r.Some? ==> exists i :: 0 <= i < |s| && s[i] == r.value && p(s[i]) &&
                                    forall j :: 0 <= j < i ==> !p(s[j])
  {
    match FirstIndex(s, p)
    case None => None
    case Some(i) => Some(s[i])
  }

  /** SingleOrDefault(p): null when nothing satisfies p, the element when exactly one
      does, and an InvalidOperationException when two or more do. */
  function SingleOrDefault<T>(s: seq<T>, p: T -> bool): (r: Result<Option<T>>)
    ensures r == Ok(None) <==> forall i :: 0 <= i < |s| ==> !p(s[i])
    ensures r.Err? <==> exists i, j :: 0 <= i < j < |s| && p(s[i]) && p(s[j])
    ensures r.Err? ==> r.error == MoreThanOneMatch
    ensures r.Ok? && r.value.Some? ==>
              (exists i :: 0 <= i < |s| && s[i] == r.value.value && p(s[i])) &&
              forall i :: 0 <= i < |s| && p(s[i]) ==> s[i] == r.value.value
  {
    if s == [] then Ok(None)
    else
      var rest := SingleOrDefault(s[1..], p);
      assert forall i :: 1 <= i < |s| ==> s[i] == s[1..][i - 1];
      if !p(s[0]) then
        assert (exists i, j :: 0 <= i < j < |s| && p(s[i]) && p(s[j])) ==>
               exists i, j :: 0 <= i < j < |s[1..]| && p(s[1..][i]) && p(s[1..][j]) by {
          if i, j :| 0 <= i < j < |s| && p(s[i]) && p(s[j]) {
            assert 0 <= i - 1 < j - 1 < |s[1..]| && p(s[1..][i - 1]) && p(s[1..][j - 1]);
          }
        }
        assert (exists i, j :: 0 <= i < j < |s[1..]| && p(s[1..][i]) && p(s[1..][j])) ==>
               exists i, j :: 0 <= i < j < |s| && p(s[i]) && p(s[j]) by {
          if i, j :| 0 <= i < j < |s[1..]| && p(s[1..][i]) && p(s[1..][j]) {
            assert 0 <= i + 1 < j + 1 < |s| && p(s[i + 1]) && p(s[j + 1]);
          }
        }
        rest
      else if rest == Ok(None) then
        Ok(Some(s[0]))
      else
        assert exists k :: 1 <= k < |s| && p(s[k]);
        Err(MoreThanOneMatch)
  }

  /** SingleOrDefault when exactly one element, s[i], satisfies p: that element. */
  lemma SingleOrDefaultUnique<T>(s: seq<T>, p: T -> bool, i: int)
    requires 0 <= i < |s| && p(s[i])
    requires forall j :: 0 <= j < |s| && j != i ==> !p(s[j])
    ensures SingleOrDefault(s, p) == Ok(Some(s[i]))
  {
    assert forall a, b :: 0 <= a < b < |s| && p(s[a]) && p(s[b]) ==> a == i && b == i;
  }

  /** Membership in Where's result, for one element. */
  lemma FilterMembership<T>(s: seq<T>, p: T -> bool, x: T)
    ensures x in Filter(s, p) <==> x in s && p(x)
  {
    var r := Filter(s, p);
    if x in r {
      var i :| 0 <= i < |r| && r[i] == x;
    }
    if x in s && p(x) {
      var i :| 0 <= i < |s| && s[i] == x;
    }
  }

  /** Where gives the same rows for two predicates that agree on every row. */
  lemma {:induction false} FilterCongruence<T>(s: seq<T>, p: T -> bool, q: T -> bool)
    requires forall i :: 0 <= i < |s| ==> p(s[i]) == q(s[i])
    ensures Filter(s, p) == Filter(s, q)
  {
    if s != [] {
      assert forall i :: 1 <= i < |s| ==> s[i] == s[1..][i - 1];
      FilterCongruence(s[1..], p, q);
    }
  }

  /** Where distributes over concatenation: the rows of the first part come first. */
  lemma {:induction false} FilterConcat<T>(a: seq<T>, b: seq<T>, p: T -> bool)
    ensures Filter(a + b, p) == Filter(a, p) + Filter(b, p)
    decreases |a|
  {
    if a == [] {
      assert a + b == b;
    } else {
      assert (a + b)[0] == a[0];
      assert (a + b)[1..] == a[1..] + b;
      FilterConcat(a[1..], b, p);
    }
  }

  /** Where returns as many elements as Count(p) counts. */
  lemma {:induction false} FilterCount<T>(s: seq<T>, p: T -> bool)
    ensures |Filter(s, p)| == CountWhere(s, p)
    decreases |s|
  {
    if s != [] {
      FilterCount(s[1..], p);
    }
  }

  /** Where keeps every satisfying element as often as it occurs, and no other. */
  lemma {:induction false} FilterMultiset<T>(s: seq<T>, p: T -> bool, x: T)
    ensures multiset(Filter(s, p))[x] == if p(x) then multiset(s)[x] else 0
    decreases |s|
  {
    if s != [] {
      FilterMultiset(s[1..], p, x);
      assert s == [s[0]] + s[1..];
      assert multiset(s) == multiset([s[0]]) + multiset(s[1..]);
    }
  }
}
