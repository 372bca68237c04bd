/**
 * The array primitives of JavaScript that the status line's selections are built from:
 * `Array.prototype.filter` and `slice(0, n)`, with the positions a filter keeps.
 */
module Seqs {

  // ---------------------------------------------------------------------------
  // Array.prototype.filter and slice(0, n)

  /** The elements of `s` that satisfy `f`, in their order in `s`. */
  function Filter<T>(s: seq<T>, f: T -> bool): (r: seq<T>)
    ensures |r| <= |s|
    ensures forall x :: x in r ==> x in s && f(x)
    ensures forall x {:trigger x in r} :: x in s && f(x) ==> x in r
    decreases |s|
  {
    if |s| == 0 then [] else (if f(s[0]) then [s[0]] else []) + Filter(s[1..], f)
  }

  /** `idx` lists positions of `b`, strictly increasing, at which `a` occurs element by element. */
  ghost predicate Embeds<T>(a: seq<T>, b: seq<T>, idx: seq<nat>) {
    && |idx| == |a|
    && (forall k :: 0 <= k < |idx| ==> idx[k] < |b| && b[idx[k]] == a[k])
    && (forall k, l :: 0 <= k < l < |idx| ==> idx[k] < idx[l])
  }

  function Shift(idx: seq<nat>): (r: seq<nat>)
    ensures |r| == |idx|
    ensures forall k :: 0 <= k < |idx| ==> r[k] == idx[k] + 1
  {
    seq(|idx|, k requires 0 <= k < |idx| => idx[k] + 1)
  }

  /** Positions in `b[1..]` are positions in `b` one further on. */
  lemma EmbedsShift<T>(a: seq<T>, b: seq<T>, idx: seq<nat>)
    requires |b| > 0 && Embeds(a, b[1..], idx)
    ensures Embeds(a, b, Shift(idx))
    ensures forall j :: 0 < j < |b| ==> (j in Shift(idx) <==> j - 1 in idx)
    ensures 0 !in Shift(idx)
  {
    var sh := Shift(idx);
    forall k | 0 <= k < |idx|
      ensures sh[k] < |b| && b[sh[k]] == a[k]
    {
      assert b[1..][idx[k]] == a[k];
    }
    forall j | 0 < j < |b|
      ensures j in sh <==> j - 1 in idx
    {
      if j in sh {
        var k :| 0 <= k < |sh| && sh[k] == j;
        assert idx[k] == j - 1;
      }
      if j - 1 in idx {
        var k :| 0 <= k < |idx| && idx[k] == j - 1;
        assert sh[k] == j;
      }
    }
  }

  /** Matching the head of `b` as well puts position 0 in front. */
  lemma EmbedsCons<T>(a: seq<T>, b: seq<T>, idx: seq<nat>)
    requires |b| > 0 && Embeds(a, b, idx) && 0 !in idx
    ensures Embeds([b[0]] + a, b, [0] + idx)
  {
    var ix := [0] + idx;
    forall k, l | 0 <= k < l < |ix|
      ensures ix[k] < ix[l]
    {
      if k == 0 {
        assert ix[l] == idx[l - 1] && ix[l] in idx;
      } else {
        assert ix[k] == idx[k - 1] && ix[l] == idx[l - 1];
      }
    }
  }

  /**
   * Filtering keeps exactly the positions of `s` whose element satisfies `f`, in
   * increasing order: the result is `s` read at those positions and at no others.
   */
  lemma {:induction false} FilterPositions<T>(s: seq<T>, f: T -> bool) returns (idx: seq<nat>)
    ensures Embeds(Filter(s, f), s, idx)
    ensures forall j :: 0 <= j < |s| ==> (j in idx <==> f(s[j]))
    decreases |s|
  {
    if |s| == 0 {
      idx := [];
    } else {
      var rest := FilterPositions(s[1..], f);
      EmbedsShift(Filter(s[1..], f), s, rest);
      var sh := Shift(rest);
      forall j | 0 < j < |s|
        ensures j in sh <==> f(s[j])
      {
        assert s[1..][j - 1] == s[j];
      }
      if f(s[0]) {
        EmbedsCons(Filter(s[1..], f), s, sh);
        idx := [0] + sh;
        forall j | 0 < j < |s|
          ensures j in idx <==> f(s[j])
        {
          assert j in idx <==> j in sh;
        }
      } else {
        idx := sh;
        assert Filter(s, f) == Filter(s[1..], f);
      }
    }
  }

  /** Filtering a sequence with a given first element. */
  lemma FilterCons<T>(x: T, s: seq<T>, f: T -> bool)
    ensures Filter([x] + s, f) == (if f(x) then [x] else []) + Filter(s, f)
  {
    assert ([x] + s)[1..] == s;
  }

  /** The number of elements kept from a sequence with a given first element. */
  lemma FilterConsLength<T>(x: T, s: seq<T>, f: T -> bool)
    ensures |Filter([x] + s, f)| == (if f(x) then 1 else 0) + |Filter(s, f)|
  {
    FilterCons(x, s, f);
  }

  /** Filtering a concatenation filters each part. */
  lemma {:induction false} FilterAppend<T>(a: seq<T>, b: seq<T>, f: T -> bool)
    ensures Filter(a + b, f) == Filter(a, f) + Filter(b, f)
    decreases |a|
  {
    if |a| == 0 {
      assert a + b == b;
    } else {
      FilterAppend(a[1..], b, f);
      assert a + b == [a[0]] + (a[1..] + b);
      assert a == [a[0]] + a[1..];
      var h := if f(a[0]) then [a[0]] else [];
      FilterCons(a[0], a[1..] + b, f);
      FilterCons(a[0], a[1..], f);
      assert h + (Filter(a[1..], f) + Filter(b, f)) == (h + Filter(a[1..], f)) + Filter(b, f);
    }
  }

  /** Filtering counts each value as often as `s` holds it, if it satisfies `f`, and never otherwise. */
  lemma {:induction false} FilterMultiset<T>(s: seq<T>, f: T -> bool, x: T)
    ensures multiset(Filter(s, f))[x] == if f(x) then multiset(s)[x] else 0
    decreases |s|
  {
    if |s| != 0 {
      FilterMultiset(s[1..], f, x);
      assert s == [s[0]] + s[1..];
    }
  }

  /** The first `n` elements of `s`, or all of it when it is shorter (JavaScript's `slice(0, n)`). */
  function Take<T>(s: seq<T>, n: nat): seq<T> {
    if |s| <= n then s else s[..n]
  }

  /** The first `n` elements of an embedded sequence are embedded at the first `n` positions. */
  lemma EmbedsPrefix<T>(a: seq<T>, b: seq<T>, idx: seq<nat>, n: nat)
    requires Embeds(a, b, idx) && n <= |a|
    ensures Embeds(a[..n], b, idx[..n])
  {
  }

  /**
   * The first `n` elements that satisfy `f` are read from `s` at increasing positions
   * `idx`; every position of an element satisfying `f` is among them when fewer than `n`
   * were taken, and otherwise when it comes no later than the last one taken.
   */
  lemma TakeFilterPositions<T>(s: seq<T>, f: T -> bool, n: nat) returns (idx: seq<nat>)
    ensures |idx| <= n
    ensures Embeds(Take(Filter(s, f), n), s, idx)
    ensures forall j :: 0 <= j < |s| && f(s[j]) && (|idx| < n || (0 < |idx| && j <= idx[|idx| - 1])) ==> j in idx
  {
    var all := FilterPositions(s, f);
    if |all| <= n {
      idx := all;
    } else {
      idx := all[..n];
      EmbedsPrefix(Filter(s, f), s, all, n);
      forall j | 0 <= j < |s| && f(s[j]) && 0 < n && j <= all[n - 1]
        ensures j in idx
      {
        PositionBefore(all, j, n);
      }
    }
  }

  /** A member of increasing positions that is at most the `n`-th lies among the first `n`. */
  lemma PositionBefore(all: seq<nat>, j: nat, n: nat)
    requires forall k, l :: 0 <= k < l < |all| ==> all[k] < all[l]
    requires 0 < n <= |all| && j in all && j <= all[n - 1]
    ensures j in all[..n]
  {
    var m :| 0 <= m < |all| && all[m] == j;
    if m < n {
      assert all[..n][m] == j;
    }
  }
}
