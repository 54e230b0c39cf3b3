/** `Array.prototype.filter` and `find` over sequences, with what they preserve. */
module Lists {
  import opened Wrappers

  /** `s.filter(keep)`: the elements that `keep` accepts, in their original order. */
  function Filter<T>(s: seq<T>, keep: T -> bool): seq<T>
    decreases |s|
  {
    if s == [] then [] else (if keep(s[0]) then [s[0]] else []) + Filter(s[1..], keep)
  }

  /** `r` is `s` with some elements left out and the rest in the same order. */
  predicate IsSubsequence<T(==)>(r: seq<T>, s: seq<T>)
    decreases |s|
  {
    if r == [] then true
    else if s == [] then false
    else if r[0] == s[0] then IsSubsequence(r[1..], s[1..])
    else IsSubsequence(r, s[1..])
  }

  /** An element survives the filter exactly when it is in the input and is accepted. */
  lemma {:induction false} FilterMembership<T>(s: seq<T>, keep: T -> bool)
    ensures forall x :: x in Filter(s, keep) <==> x in s && keep(x)
    ensures forall i :: 0 <= i < |Filter(s, keep)| ==> Filter(s, keep)[i] in s && keep(Filter(s, keep)[i])
    decreases |s|
  {
    if s != [] {
      FilterMembership(s[1..], keep);
      assert s == [s[0]] + s[1..];
    }
  }

  /** The filter keeps the order of the elements it keeps. */
  lemma {:induction false} FilterIsSubsequence<T>(s: seq<T>, keep: T -> bool)
    ensures IsSubsequence(Filter(s, keep), s)
    decreases |s|
  {
    if s != [] {
      FilterIsSubsequence(s[1..], keep);
      var rest := Filter(s[1..], keep);
      if keep(s[0]) {
        assert Filter(s, keep) == [s[0]] + rest;
        assert ([s[0]] + rest)[1..] == rest;
      } else {
        FilterMembership(s[1..], keep);
        assert Filter(s, keep) == rest;
        assert rest != [] ==> rest[0] != s[0];
      }
    }
  }

  /** A filter that accepts every element returns its input unchanged. */
  lemma {:induction false} FilterKeepsAll<T>(s: seq<T>, keep: T -> bool)
    requires forall i :: 0 <= i < |s| ==> keep(s[i])
    ensures Filter(s, keep) == s
    decreases |s|
  {
    if s != [] {
      FilterKeepsAll(s[1..], keep);
      assert s == [s[0]] + s[1..];
    }
  }

  /** `s` is in non-increasing order of `key` (newest first, for a timestamp). */
  predicate DescendingBy<T>(s: seq<T>, key: T -> int)
  {
    forall i, j :: 0 <= i < j < |s| ==> key(s[i]) >= key(s[j])
  }

  /** A filtered newest-first list is still newest first. */
  lemma {:induction false} FilterKeepsDescending<T>(s: seq<T>, keep: T -> bool, key: T -> int)
    requires DescendingBy(s, key)
    ensures DescendingBy(Filter(s, keep), key)
    decreases |s|
  {
    if s != [] {
      FilterKeepsDescending(s[1..], keep, key);
      var rest := Filter(s[1..], keep);
      if keep(s[0]) {
        FilterMembership(s[1..], keep);
        forall j | 0 <= j < |rest| ensures key(s[0]) >= key(rest[j]) {
          assert rest[j] in s[1..];
          var k :| 0 <= k < |s[1..]| && s[1..][k] == rest[j];
          assert s[k + 1] == rest[j];
        }
        var r := Filter(s, keep);
        assert r == [s[0]] + rest;
        forall i, j | 0 <= i < j < |r| ensures key(r[i]) >= key(r[j]) {
          if i > 0 {
            assert r[i] == rest[i - 1] && r[j] == rest[j - 1];
          } else {
            assert r[j] == rest[j - 1];
          }
        }
      }
    }
  }

  /** Index of the first element `p` accepts, or `|s|` when there is none. */
  function FirstIndexWhere<T>(s: seq<T>, p: T -> bool): (k: nat)
    ensures k <= |s|
    ensures forall j :: 0 <= j < k ==> !p(s[j])
    ensures k < |s| ==> p(s[k])
    decreases |s|
  {
    if s == [] then 0
    else if p(s[0]) then 0
    else
      var k := FirstIndexWhere(s[1..], p);
      assert forall j :: 1 <= j < k + 1 ==> s[j] == s[1..][j - 1];
      k + 1
  }

  /** `s.find(p)`: the first element `p` accepts, `undefined` when none does. */
  function Find<T>(s: seq<T>, p: T -> bool): (r: Option<T>)
    ensures r.None? <==> forall i :: 0 <= i < |s| ==> !p(s[i])
    ensures r.Some? ==> r.value == s[FirstIndexWhere(s, p)] && p(r.value)
  {
    var k := FirstIndexWhere(s, p);
    if k < |s| then Some(s[k]) else None
  }

  /** Two searches whose predicates agree position by position stop at the same index. */
  lemma FirstIndexWhereAgree<T, U>(s: seq<T>, p: T -> bool, t: seq<U>, q: U -> bool)
    requires |s| == |t|
    requires forall i :: 0 <= i < |s| ==> p(s[i]) == q(t[i])
    ensures FirstIndexWhere(s, p) == FirstIndexWhere(t, q)
  {
    var k1, k2 := FirstIndexWhere(s, p), FirstIndexWhere(t, q);
    assert k1 < |s| ==> q(t[k1]);
    assert k2 < |t| ==> p(s[k2]);
  }
}
