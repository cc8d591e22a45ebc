/** The "try each candidate until one works" loop the scrapers run over selector lists,
  * paths and elements, and Python's `s[:k]` slice. */
module Ladders {
  import opened Wrappers

  /** The first candidate for which `pick` yields a value, and that value. */
  function FirstSomeOf<T, U>(cands: seq<T>, pick: T -> Option<U>): Option<U>
    decreases |cands|
  {
    if cands == [] then None
    else if pick(cands[0]).Some? then pick(cands[0])
    else FirstSomeOf(cands[1..], pick)
  }

  /** Position `i` is the first candidate `pick` accepts. */
  predicate FirstHit<T, U>(cands: seq<T>, pick: T -> Option<U>, i: int)
  {
    0 <= i < |cands| && pick(cands[i]).Some?
    && forall j :: 0 <= j < i ==> pick(cands[j]).None?
  }

  /** The ladder yields what the first accepted candidate yields. */
  lemma {:induction false} FirstSomeOfAt<T, U>(cands: seq<T>, pick: T -> Option<U>, i: int)
    requires FirstHit(cands, pick, i)
    ensures FirstSomeOf(cands, pick) == pick(cands[i])
    decreases i
  {
    if i > 0 {
      assert pick(cands[0]).None?;
      assert FirstHit(cands[1..], pick, i - 1) by {
        forall j | 0 <= j < i - 1
          ensures pick(cands[1..][j]).None?
        {
          assert cands[1..][j] == cands[j + 1];
        }
      }
      FirstSomeOfAt(cands[1..], pick, i - 1);
    }
  }

  /** The ladder yields nothing exactly when no candidate is accepted. */
  lemma {:induction false} FirstSomeOfNone<T, U>(cands: seq<T>, pick: T -> Option<U>)
    ensures FirstSomeOf(cands, pick).None? <==> forall i :: 0 <= i < |cands| ==> pick(cands[i]).None?
    decreases |cands|
  {
    if cands != [] {
      FirstSomeOfNone(cands[1..], pick);
      assert forall i :: 1 <= i < |cands| ==> cands[i] == cands[1..][i - 1];
    }
  }

  /** Whatever the ladder yields, some candidate yielded it. */
  lemma {:induction false} FirstSomeOfFrom<T, U>(cands: seq<T>, pick: T -> Option<U>)
    ensures FirstSomeOf(cands, pick).Some? ==>
      exists i :: 0 <= i < |cands| && pick(cands[i]) == FirstSomeOf(cands, pick)
    decreases |cands|
  {
    if cands != [] && pick(cands[0]).None? {
      FirstSomeOfFrom(cands[1..], pick);
      if FirstSomeOf(cands[1..], pick).Some? {
        var i :| 0 <= i < |cands[1..]| && pick(cands[1..][i]) == FirstSomeOf(cands[1..], pick);
        assert pick(cands[i + 1]) == FirstSomeOf(cands, pick);
      }
    } else if cands != [] {
      assert pick(cands[0]) == FirstSomeOf(cands, pick);
    }
  }

  /** Two sequences holding the same multiset hold the same elements. */
  lemma SameElements<T>(a: seq<T>, b: seq<T>)
    requires multiset(a) == multiset(b)
    ensures forall u :: u in a <==> u in b
  {
    forall u
      ensures u in a <==> u in b
    {
      assert u in a <==> u in multiset(a);
      assert u in b <==> u in multiset(b);
    }
  }

  /** The loop form of the ladder: stop at the first candidate that yields a value. */
  method FirstSome<T, U>(cands: seq<T>, pick: T -> Option<U>) returns (r: Option<U>)
    ensures r == FirstSomeOf(cands, pick)
    ensures r.None? <==> forall i :: 0 <= i < |cands| ==> pick(cands[i]).None?
  {
    FirstSomeOfNone(cands, pick);
    var i := 0;
    while i < |cands|
      invariant 0 <= i <= |cands|
      invariant FirstSomeOf(cands[i..], pick) == FirstSomeOf(cands, pick)
    {
      var p := pick(cands[i]);
      if p.Some? {
        return p;
      }
      assert cands[i..][1..] == cands[i + 1..];
      i := i + 1;
    }
    return None;
  }

  /** The elements of `s` that satisfy `p`, in order (a list comprehension with a guard). */
  function Filter<T(!new)>(s: seq<T>, p: T -> bool): (r: seq<T>)
    ensures |r| <= |s|
    ensures forall x :: x in r <==> x in s && p(x)
    ensures multiset(r) <= multiset(s)
    decreases |s|
  {
    if s == [] then []
    else
      var rest := Filter(s[..|s| - 1], p);
      var last := s[|s| - 1];
      assert s == s[..|s| - 1] + [last];
      if p(last) then rest + [last] else rest
  }

  /** No element occurs twice. */
  predicate NoDuplicates<X(==)>(s: seq<X>)
  {
    forall i, j :: 0 <= i < j < |s| ==> s[i] != s[j]
  }

  /** Python's `s[:k]`: `k = None` keeps everything, a negative `k` counts from the end. */
  function SliceTo<T>(s: seq<T>, k: Option<int>): (r: seq<T>)
    ensures |r| <= |s| && r == s[..|r|]
    ensures k.None? ==> r == s
    ensures k.Some? && 0 <= k.value ==> |r| == if k.value < |s| then k.value else |s|
    ensures k.Some? && k.value < 0 ==> |r| == if |s| + k.value < 0 then 0 else |s| + k.value
  {
    match k
    case None => s
    case Some(n) =>
      if 0 <= n then (if n < |s| then s[..n] else s)
      else (if |s| + n < 0 then [] else s[..|s| + n])
  }
}
