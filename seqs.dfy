/** Order-preserving `filter`, `find` and `findIndex` over sequences, with the facts the pages rely on. */
module Seqs {
  import opened Wrappers

  /** `s.filter(p)`: the elements satisfying `p`, in their original order. */
  function Filter<T>(s: seq<T>, p: T -> bool): (r: seq<T>)
    ensures |r| <= |s|
    ensures forall i :: 0 <= i < |r| ==> r[i] in s && p(r[i])
    ensures forall i :: 0 <= i < |s| && p(s[i]) ==> s[i] in r
    decreases |s|
  {
    if s == [] then [] else (if p(s[0]) then [s[0]] else []) + Filter(s[1..], p)
  }

  /** Filtering keeps exactly the satisfying occurrences, so it commutes with `multiset`. */
  lemma {:induction false} FilterMultiset<T>(s: seq<T>, p: T -> bool, x: T)
    ensures multiset(Filter(s, p))[x] == if p(x) then multiset(s)[x] else 0
    decreases |s|
  {
    if s != [] {
      FilterMultiset(s[1..], p, x);
      assert s == [s[0]] + s[1..];
    }
  }

  /**
   * When every element of `s` satisfying `p` satisfies exactly one of `a`, `b`, `c`, and
   * each of those implies `p`, the three filters split the `p`-filter: same elements, same
   * counts.
   */
  lemma {:induction false} FilterPartition3<T>(s: seq<T>, p: T -> bool, a: T -> bool, b: T -> bool, c: T -> bool)
    requires forall i :: 0 <= i < |s| && p(s[i]) ==> a(s[i]) || b(s[i]) || c(s[i])
    requires forall i :: 0 <= i < |s| && a(s[i]) ==> p(s[i]) && !b(s[i]) && !c(s[i])
    requires forall i :: 0 <= i < |s| && b(s[i]) ==> p(s[i]) && !c(s[i])
    requires forall i :: 0 <= i < |s| && c(s[i]) ==> p(s[i])
    ensures multiset(Filter(s, a)) + multiset(Filter(s, b)) + multiset(Filter(s, c))
         == multiset(Filter(s, p))
    ensures |Filter(s, a)| + |Filter(s, b)| + |Filter(s, c)| == |Filter(s, p)|
    decreases |s|
  {
    if s != [] {
      var x, t := s[0], s[1..];
      assert forall i :: 0 <= i < |t| ==> t[i] == s[i + 1];
      FilterPartition3(t, p, a, b, c);
      var ea, eb, ec, ep := Single(x, a), Single(x, b), Single(x, c), Single(x, p);
      assert Filter(s, a) == ea + Filter(t, a);
      assert Filter(s, b) == eb + Filter(t, b);
      assert Filter(s, c) == ec + Filter(t, c);
      assert Filter(s, p) == ep + Filter(t, p);
      assert multiset(ea) + multiset(eb) + multiset(ec) == multiset(ep) by {
        assert p(x) ==> a(x) || b(x) || c(x);
        assert a(x) ==> p(x) && !b(x) && !c(x);
        assert b(x) ==> p(x) && !c(x);
        assert c(x) ==> p(x);
      }
      SumOfParts(multiset(ea), multiset(eb), multiset(ec), multiset(ep),
                 multiset(Filter(t, a)), multiset(Filter(t, b)), multiset(Filter(t, c)), multiset(Filter(t, p)));
    }
  }

  /** `[x]` when `x` satisfies `p`, else `[]`. */
  function Single<T>(x: T, p: T -> bool): seq<T> {
    if p(x) then [x] else []
  }

  /** Adding a head part to each of three tails that sum to a fourth keeps the sum. */
  lemma SumOfParts<T>(ea: multiset<T>, eb: multiset<T>, ec: multiset<T>, ep: multiset<T>,
                      ta: multiset<T>, tb: multiset<T>, tc: multiset<T>, tp: multiset<T>)
    requires ea + eb + ec == ep && ta + tb + tc == tp
    ensures (ea + ta) + (eb + tb) + (ec + tc) == ep + tp
  {
  }

  /** `s.findIndex(p)`: the first index satisfying `p`, or -1. */
  function FindIndex<T>(s: seq<T>, p: T -> bool): (i: int)
    ensures -1 <= i < |s|
    ensures 0 <= i ==> p(s[i]) && forall j :: 0 <= j < i ==> !p(s[j])
    ensures i == -1 ==> forall j :: 0 <= j < |s| ==> !p(s[j])
    decreases |s|
  {
    if s == [] then -1
    else if p(s[0]) then 0
    else
      var k := FindIndex(s[1..], p);
      if k < 0 then -1 else k + 1
  }

  /** `s.find(p)`: the first element satisfying `p`, or `undefined`. */
  function Find<T>(s: seq<T>, p: T -> bool): (r: Option<T>)
    ensures r.None? <==> forall j :: 0 <= j < |s| ==> !p(s[j])
    ensures r.Some? ==> exists i :: 0 <= i < |s| && s[i] == r.value && p(s[i]) &&
                                   forall j :: 0 <= j < i ==> !p(s[j])
  {
    var i := FindIndex(s, p);
    if i < 0 then None else Some(s[i])
  }
}
