/** Small sequence vocabulary shared by the other modules. */
module Seqs {

  /** The final element (Python's `xs[-1]`). */
  function Last<T>(xs: seq<T>): T
    requires |xs| > 0
  {
    xs[|xs| - 1]
  }

  /** Concatenation of a sequence of sequences, in order. */
  function Flatten<T>(xss: seq<seq<T>>): seq<T>
  {
    if |xss| == 0 then [] else xss[0] + Flatten(xss[1..])
  }

  /** Flattening distributes over concatenation of the outer sequence. */
  lemma {:induction false} FlattenAppend<T>(a: seq<seq<T>>, b: seq<seq<T>>)
    ensures Flatten(a + b) == Flatten(a) + Flatten(b)
    decreases |a|
  {
    if |a| == 0 {
      assert a + b == b;
    } else {
      assert (a + b)[1..] == a[1..] + b;
      FlattenAppend(a[1..], b);
    }
  }

  /** `small` can be obtained from `big` by deleting elements, keeping the order. */
  predicate IsSubsequence<T(==)>(small: seq<T>, big: seq<T>)
    decreases |big|
  {
    if |small| == 0 then true
    else if |big| == 0 then false
    else if small[0] == big[0] then IsSubsequence(small[1..], big[1..])
    else IsSubsequence(small, big[1..])
  }

  /** Appending the same element to both sides preserves being a
      subsequence, and so does appending one to the larger side only. */
  lemma {:induction false} SubsequenceSnoc<T>(small: seq<T>, big: seq<T>, x: T)
    requires IsSubsequence(small, big)
    ensures IsSubsequence(small + [x], big + [x])
    ensures IsSubsequence(small, big + [x])
    decreases |big|
  {
    if |small| == 0 {
      LastIsSubsequence(big, x);
      assert small + [x] == [x];
    } else {
      assert |big| > 0;
      assert (big + [x])[1..] == big[1..] + [x];
      assert (small + [x])[1..] == small[1..] + [x];
      if small[0] == big[0] {
        SubsequenceSnoc(small[1..], big[1..], x);
      } else {
        SubsequenceSnoc(small, big[1..], x);
      }
    }
  }

  /** An element is a subsequence of any sequence ending with it. */
  lemma {:induction false} LastIsSubsequence<T>(big: seq<T>, x: T)
    ensures IsSubsequence([x], big + [x])
    decreases |big|
  {
    if |big| > 0 && big[0] != x {
      assert (big + [x])[1..] == big[1..] + [x];
      LastIsSubsequence(big[1..], x);
    }
  }

  /** `[f(xs[0], ids[0]), f(xs[1], ids[1]), ...]`: each element mapped
      together with the id handed out for it; ids beyond the last element
      are not used. */
  function MapIds<A, B>(xs: seq<A>, f: (A, int) -> B, ids: seq<int>): (r: seq<B>)
    requires |xs| <= |ids|
    ensures |r| == |xs|
  {
    if |xs| == 0 then [] else [f(xs[0], ids[0])] + MapIds(xs[1..], f, ids[1..])
  }

  /** Element `i` is the `i`-th input under the `i`-th id. */
  lemma {:induction false} MapIdsAt<A, B>(xs: seq<A>, f: (A, int) -> B, ids: seq<int>, i: nat)
    requires i < |xs| <= |ids|
    ensures MapIds(xs, f, ids)[i] == f(xs[i], ids[i])
    decreases i
  {
    if i > 0 {
      MapIdsAt(xs[1..], f, ids[1..], i - 1);
    }
  }

  /** The ids continue across a concatenation. */
  lemma {:induction false} MapIdsAppend<A, B>(a: seq<A>, b: seq<A>, f: (A, int) -> B, ids: seq<int>)
    requires |a| + |b| <= |ids|
    ensures MapIds(a + b, f, ids) == MapIds(a, f, ids) + MapIds(b, f, ids[|a|..])
    decreases |a|
  {
    if |a| == 0 {
      assert a + b == b;
      assert ids[0..] == ids;
    } else {
      assert (a + b)[1..] == a[1..] + b;
      assert ids[1..][|a| - 1..] == ids[|a|..];
      MapIdsAppend(a[1..], b, f, ids[1..]);
    }
  }

  /** Flattening the mapped first `k` elements is flattening the first
      `k - 1` and appending the `k`-th one's image under the `k`-th id. */
  lemma FlattenMapIdsSnoc<A, B>(xs: seq<A>, f: (A, int) -> seq<B>, ids: seq<int>, k: nat, last: seq<B>)
    requires 0 < k <= |xs| <= |ids| && f(xs[k - 1], ids[k - 1]) == last
    ensures Flatten(MapIds(xs[..k], f, ids)) == Flatten(MapIds(xs[..k - 1], f, ids)) + last
  {
    assert xs[..k] == xs[..k - 1] + [xs[k - 1]];
    MapIdsAppend(xs[..k - 1], [xs[k - 1]], f, ids);
    assert MapIds([xs[k - 1]], f, ids[k - 1..]) == [last];
    FlattenAppend(MapIds(xs[..k - 1], f, ids), [last]);
    assert Flatten([last]) == last + Flatten([]);
  }

  /** How many of the first `k` elements satisfy `p`, counted one by one. */
  function CountWhere<T>(xs: seq<T>, p: T -> bool, k: nat): nat
    requires k <= |xs|
  {
    if k == 0 then 0 else CountWhere(xs, p, k - 1) + (if p(xs[k - 1]) then 1 else 0)
  }

  /** The positions among the first `k` whose element satisfies `p`. */
  function Positions<T>(xs: seq<T>, p: T -> bool, k: nat): set<nat>
    requires k <= |xs|
  {
    set i: nat | i < k && p(xs[i])
  }

  /** Counting one by one gives the number of satisfying positions, which
      is at most `k`. */
  lemma {:induction false} CountWhereIsPositions<T>(xs: seq<T>, p: T -> bool, k: nat)
    requires k <= |xs|
    ensures CountWhere(xs, p, k) == |Positions(xs, p, k)|
    ensures CountWhere(xs, p, k) <= k
  {
    if k == 0 {
      assert Positions(xs, p, 0) == {};
    } else {
      CountWhereIsPositions(xs, p, k - 1);
      var before := Positions(xs, p, k - 1);
      if p(xs[k - 1]) {
        assert Positions(xs, p, k) == before + {k - 1};
        assert k - 1 !in before;
      } else {
        assert Positions(xs, p, k) == before;
      }
    }
  }
}
