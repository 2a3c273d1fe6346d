/**
 * `Array.prototype.filter`, which every part of the source uses to select
 * rows, columns and header names, together with the facts the rest of the
 * model needs about it: it keeps exactly the elements that pass, in their
 * order, and filtering again with the same test changes nothing.
 */
module Seqs {

  /** `a` is `b` with some elements left out and the rest in their original order. */
  ghost predicate IsSubsequence<T>(a: seq<T>, b: seq<T>)
    decreases |b|
  {
    |a| <= |b| &&
    (a == [] || (a[0] == b[0] && IsSubsequence(a[1..], b[1..])) || IsSubsequence(a, b[1..]))
  }

  /** `s.filter(p)`. */
  function Filter<T>(s: seq<T>, p: T -> bool): (r: seq<T>)
    ensures |r| <= |s|
    ensures forall i :: 0 <= i < |r| ==> p(r[i])
    ensures IsSubsequence(r, s)
  {
    if |s| == 0 then []
    else
      var rest := Filter(s[1..], p);
      if p(s[0]) then
        assert ([s[0]] + rest)[1..] == rest;
        [s[0]] + rest
      else rest
  }

  /** An element is in the result exactly when it is in the input and passes the test. */
  lemma {:induction false} FilterMember<T>(s: seq<T>, p: T -> bool, x: T)
    ensures x in Filter(s, p) <==> x in s && p(x)
  {
    if |s| > 0 {
      FilterMember(s[1..], p, x);
      assert s == [s[0]] + s[1..];
    }
  }

  /** Filtering distributes over concatenation, so the relative order of the kept elements is the input order. */
  lemma {:induction false} FilterAppend<T>(a: seq<T>, b: seq<T>, p: T -> bool)
    ensures Filter(a + b, p) == Filter(a, p) + Filter(b, p)
  {
    if |a| > 0 {
      assert (a + b)[1..] == a[1..] + b;
      FilterAppend(a[1..], b, p);
    } else {
      assert a + b == b;
    }
  }

  /** When every element passes, nothing is dropped. */
  lemma {:induction false} FilterKeepsAll<T>(s: seq<T>, p: T -> bool)
    requires forall i :: 0 <= i < |s| ==> p(s[i])
    ensures Filter(s, p) == s
  {
    if |s| > 0 {
      FilterKeepsAll(s[1..], p);
      assert s == [s[0]] + s[1..];
    }
  }

  /** An element that passes keeps all its copies; one that fails keeps none. */
  lemma {:induction false} FilterMultiplicity<T>(s: seq<T>, p: T -> bool, x: T)
    ensures multiset(Filter(s, p))[x] == if p(x) then multiset(s)[x] else 0
  {
    if |s| > 0 {
      FilterMultiplicity(s[1..], p, x);
      assert s == [s[0]] + s[1..];
    }
  }

  /** `j` is the position of the first element of `s` that passes `p`. */
  predicate IsFirstPassing<T>(s: seq<T>, p: T -> bool, j: int)
  {
    0 <= j < |s| && p(s[j]) && forall k :: 0 <= k < j ==> !p(s[k])
  }

  /** The result starts with the first element that passes, and it is non-empty only when some element passes. */
  lemma {:induction false} FilterHead<T>(s: seq<T>, p: T -> bool)
    ensures forall j :: IsFirstPassing(s, p, j) ==> |Filter(s, p)| > 0 && Filter(s, p)[0] == s[j]
    ensures |Filter(s, p)| > 0 ==> exists j :: IsFirstPassing(s, p, j)
  {
    if |s| > 0 {
      FilterHead(s[1..], p);
      if p(s[0]) {
        assert IsFirstPassing(s, p, 0);
      } else {
        forall j | IsFirstPassing(s, p, j) ensures |Filter(s, p)| > 0 && Filter(s, p)[0] == s[j] {
          forall k | 0 <= k < j - 1 ensures !p(s[1..][k]) {
            assert s[1..][k] == s[k + 1];
          }
          assert IsFirstPassing(s[1..], p, j - 1);
        }
        if |Filter(s, p)| > 0 {
          var j :| IsFirstPassing(s[1..], p, j);
          forall k | 0 <= k < j + 1 ensures !p(s[k]) {
            if k > 0 {
              assert s[k] == s[1..][k - 1];
            }
          }
          assert IsFirstPassing(s, p, j + 1);
        }
      }
    }
  }

  /** Filtering a second time with the same test changes nothing. */
  lemma FilterIdempotent<T>(s: seq<T>, p: T -> bool)
    ensures Filter(Filter(s, p), p) == Filter(s, p)
  {
    FilterKeepsAll(Filter(s, p), p);
  }

  /** The groups one after the other, as a loop pushing each group's elements in turn produces them. */
  function Flatten<T>(groups: seq<seq<T>>): seq<T>
  {
    if |groups| == 0 then [] else Flatten(groups[..|groups| - 1]) + groups[|groups| - 1]
  }

  lemma FlattenAppend<T>(groups: seq<seq<T>>, g: seq<T>)
    ensures Flatten(groups + [g]) == Flatten(groups) + g
  {
    assert (groups + [g])[..|groups|] == groups;
  }

  /** An element is in the flattening exactly when it is in one of the groups. */
  lemma {:induction false} FlattenMember<T>(groups: seq<seq<T>>, x: T)
    ensures x in Flatten(groups) <==> exists i :: 0 <= i < |groups| && x in groups[i]
    decreases |groups|
  {
    if |groups| > 0 {
      var n := |groups| - 1;
      var init := groups[..n];
      FlattenMember(init, x);
      assert forall i :: 0 <= i < n ==> init[i] == groups[i];
    }
  }
}
