/**
 * Order-preserving greedy packing under a token ceiling.
 *
 * Both the word splitter and the content batcher of CommonUtility walk their
 * input once, keep a running token sum for the open group, and close the group
 * as soon as the next element would push the sum past the ceiling. This module
 * states what such a walk produces and proves the facts both algorithms share.
 */
module Packing {

  /** Sum of `cost` over `xs` (a Java stream `mapToInt(...).sum()`). */
  function Sum<T>(xs: seq<T>, cost: T -> nat): nat
  {
    if xs == [] then 0 else Sum(xs[..|xs| - 1], cost) + cost(xs[|xs| - 1])
  }

  /** The groups laid end to end. */
  function Flatten<T>(bs: seq<seq<T>>): seq<T>
  {
    if bs == [] then [] else Flatten(bs[..|bs| - 1]) + bs[|bs| - 1]
  }

  /**
   * `bs` is what a single greedy left-to-right pass over `xs` yields:
   * the groups reproduce `xs` in order, none is empty, each fits under
   * `limit` unless it is a lone oversized element, and no group could have
   * taken the first element of the next one.
   */
  ghost predicate IsGreedyPacking<T>(bs: seq<seq<T>>, xs: seq<T>, cost: T -> nat, limit: nat)
  {
    && Flatten(bs) == xs
    && (forall i :: 0 <= i < |bs| ==> bs[i] != [])
    && (forall i :: 0 <= i < |bs| ==> Sum(bs[i], cost) <= limit || |bs[i]| == 1)
    && (forall i :: 0 <= i < |bs| - 1 ==> ClosedWhenFull(bs, i, cost, limit))
  }

  /** Group `i` was closed because the first element of group `i + 1` did not fit. */
  ghost predicate ClosedWhenFull<T>(bs: seq<seq<T>>, i: nat, cost: T -> nat, limit: nat)
    requires i + 1 < |bs|
  {
    bs[i + 1] != [] && Sum(bs[i], cost) + cost(bs[i + 1][0]) > limit
  }

  lemma {:induction false} SumAppend<T>(a: seq<T>, b: seq<T>, cost: T -> nat)
    ensures Sum(a + b, cost) == Sum(a, cost) + Sum(b, cost)
    decreases |b|
  {
    if b == [] {
      assert a + b == a;
    } else {
      var n := |b| - 1;
      assert (a + b)[..|a + b| - 1] == a + b[..n];
      SumAppend(a, b[..n], cost);
    }
  }

  lemma {:induction false} FlattenAppend<T>(a: seq<seq<T>>, b: seq<seq<T>>)
    ensures Flatten(a + b) == Flatten(a) + Flatten(b)
    decreases |b|
  {
    if b == [] {
      assert a + b == a;
    } else {
      var n := |b| - 1;
      var ab := a + b;
      assert ab[..|ab| - 1] == a + b[..n];
      assert ab[|ab| - 1] == b[n];
      assert Flatten(ab) == Flatten(a + b[..n]) + b[n];
      FlattenAppend(a, b[..n]);
      assert Flatten(b) == Flatten(b[..n]) + b[n];
    }
  }

  lemma FlattenCons<T>(b: seq<T>, rest: seq<seq<T>>)
    ensures Flatten([b] + rest) == b + Flatten(rest)
  {
    FlattenAppend([b], rest);
    assert [b][..0] == [];
  }

  lemma SumSnoc<T>(xs: seq<T>, x: T, cost: T -> nat)
    ensures Sum(xs + [x], cost) == Sum(xs, cost) + cost(x)
  {
    assert (xs + [x])[..|xs|] == xs;
  }

  lemma SumSingle<T>(x: T, cost: T -> nat)
    ensures Sum([x], cost) == cost(x)
  {
    assert [x][..0] == [];
  }

  lemma PrefixSnoc<T>(xs: seq<T>, k: nat)
    requires k < |xs|
    ensures xs[..k + 1] == xs[..k] + [xs[k]]
  {
  }

  /** A prefix never costs more than a longer prefix. */
  lemma SumPrefixMonotone<T>(xs: seq<T>, i: nat, j: nat, cost: T -> nat)
    requires i <= j <= |xs|
    ensures Sum(xs[..i], cost) <= Sum(xs[..j], cost)
  {
    assert xs[..j] == xs[..i] + xs[i..j];
    SumAppend(xs[..i], xs[i..j], cost);
  }

  /** Opening step: a single element is a greedy packing of itself. */
  lemma PackingStart<T>(x: T, cost: T -> nat, limit: nat)
    ensures IsGreedyPacking([[x]], [x], cost, limit)
  {
    FlattenCons([x], []);
  }

  /** The element fits into the open group: append it there. */
  lemma PackingExtend<T>(closed: seq<seq<T>>, cur: seq<T>, xs: seq<T>, x: T, cost: T -> nat, limit: nat)
    requires IsGreedyPacking(closed + [cur], xs, cost, limit)
    requires Sum(cur, cost) + cost(x) <= limit
    ensures IsGreedyPacking(closed + [cur + [x]], xs + [x], cost, limit)
  {
    var before, after := closed + [cur], closed + [cur + [x]];
    FlattenSnoc(closed, cur);
    FlattenSnoc(closed, cur + [x]);
    assert (cur + [x])[..|cur|] == cur;
    assert Sum(cur + [x], cost) == Sum(cur, cost) + cost(x);
    assert before[|closed|] == cur && cur != [];
    forall i | 0 <= i < |after|
      ensures after[i] != [] && (Sum(after[i], cost) <= limit || |after[i]| == 1)
    {
      if i < |closed| { assert after[i] == before[i]; } else { assert after[i] == cur + [x]; }
    }
    forall i | 0 <= i < |after| - 1
      ensures ClosedWhenFull(after, i, cost, limit)
    {
      assert ClosedWhenFull(before, i, cost, limit);
      assert after[i] == before[i];
      assert after[i + 1][0] == before[i + 1][0];
    }
  }

  /** Appending one group appends its elements. */
  lemma FlattenSnoc<T>(bs: seq<seq<T>>, b: seq<T>)
    ensures Flatten(bs + [b]) == Flatten(bs) + b
  {
    assert (bs + [b])[..|bs|] == bs;
  }

  /** The element does not fit: close the open group and open `[x]`. */
  lemma PackingClose<T>(closed: seq<seq<T>>, cur: seq<T>, xs: seq<T>, x: T, cost: T -> nat, limit: nat)
    requires IsGreedyPacking(closed + [cur], xs, cost, limit)
    requires Sum(cur, cost) + cost(x) > limit
    ensures IsGreedyPacking((closed + [cur]) + [[x]], xs + [x], cost, limit)
  {
    var before := closed + [cur];
    var after := before + [[x]];
    FlattenSnoc(before, [x]);
    assert [x][..0] == [];
    assert Sum([x], cost) == cost(x);
    forall i | 0 <= i < |after|
      ensures after[i] != [] && (Sum(after[i], cost) <= limit || |after[i]| == 1)
    {
      if i < |before| { assert after[i] == before[i]; }
    }
    forall i | 0 <= i < |after| - 1
      ensures ClosedWhenFull(after, i, cost, limit)
    {
      assert after[i] == before[i];
      if i + 1 < |before| {
        assert ClosedWhenFull(before, i, cost, limit);
        assert after[i + 1] == before[i + 1];
      } else {
        assert after[i] == cur && after[i + 1] == [x];
      }
    }
  }

  /** Dropping the first group leaves a greedy packing of the rest. */
  lemma PackingTail<T>(bs: seq<seq<T>>, xs: seq<T>, cost: T -> nat, limit: nat)
    requires IsGreedyPacking(bs, xs, cost, limit) && bs != []
    ensures xs == bs[0] + Flatten(bs[1..])
    ensures IsGreedyPacking(bs[1..], xs[|bs[0]|..], cost, limit)
  {
    assert bs == [bs[0]] + bs[1..];
    FlattenCons(bs[0], bs[1..]);
    var tl := bs[1..];
    forall i | 0 <= i < |tl| - 1
      ensures ClosedWhenFull(tl, i, cost, limit)
    {
      assert tl[i] == bs[i + 1] && tl[i + 1] == bs[i + 2];
      assert ClosedWhenFull(bs, i + 1, cost, limit);
    }
  }

  /** The empty input has exactly one greedy packing: no groups. */
  lemma PackingOfEmpty<T>(bs: seq<seq<T>>, cost: T -> nat, limit: nat)
    requires IsGreedyPacking(bs, [], cost, limit)
    ensures bs == []
  {
    if bs != [] {
      PackingTail(bs, [], cost, limit);
      assert false;
    }
  }

  /**
   * The four conditions pin the packing down completely: a single greedy
   * pass has exactly one possible outcome, whatever the algorithm computing it.
   */
  lemma {:induction false} GreedyPackingUnique<T>(bs: seq<seq<T>>, cs: seq<seq<T>>, xs: seq<T>, cost: T -> nat, limit: nat)
    requires IsGreedyPacking(bs, xs, cost, limit)
    requires IsGreedyPacking(cs, xs, cost, limit)
    ensures bs == cs
    decreases |xs|
  {
    if xs == [] {
      PackingOfEmpty(bs, cost, limit);
      PackingOfEmpty(cs, cost, limit);
    } else {
      PackingTail(bs, xs, cost, limit);
      PackingTail(cs, xs, cost, limit);
      var p, q := |bs[0]|, |cs[0]|;
      assert bs[0] == xs[..p] && cs[0] == xs[..q];
      if p < q {
        FirstGroupMaximal(bs, cs, xs, cost, limit);
      } else if q < p {
        FirstGroupMaximal(cs, bs, xs, cost, limit);
      }
      assert p == q && bs[0] == cs[0];
      GreedyPackingUnique(bs[1..], cs[1..], xs[p..], cost, limit);
      assert bs == [bs[0]] + bs[1..] && cs == [cs[0]] + cs[1..];
    }
  }

  /** What a greedy packing says about its first group: a non-empty prefix of
      the input that fits unless it is a lone element, and that the next
      element would have overflowed when there is a next group. */
  lemma PackingHead<T>(bs: seq<seq<T>>, xs: seq<T>, cost: T -> nat, limit: nat)
    requires IsGreedyPacking(bs, xs, cost, limit) && bs != []
    ensures 0 < |bs[0]| <= |xs| && xs[..|bs[0]|] == bs[0]
    ensures |bs[0]| >= 2 ==> Sum(bs[0], cost) <= limit
    ensures |bs| == 1 ==> bs[0] == xs
    ensures |bs| >= 2 ==> |bs[0]| < |xs| && Sum(bs[0], cost) + cost(xs[|bs[0]|]) > limit
  {
    PackingTail(bs, xs, cost, limit);
    var rest := bs[1..];
    if |bs| >= 2 {
      assert rest == [bs[1]] + bs[2..];
      FlattenCons(bs[1], bs[2..]);
      assert ClosedWhenFull(bs, 0, cost, limit);
    } else {
      assert rest == [];
    }
  }

  /** Two greedy packings cannot disagree on the length of their first group. */
  lemma FirstGroupMaximal<T>(bs: seq<seq<T>>, cs: seq<seq<T>>, xs: seq<T>, cost: T -> nat, limit: nat)
    requires IsGreedyPacking(bs, xs, cost, limit)
    requires IsGreedyPacking(cs, xs, cost, limit)
    requires bs != [] && cs != []
    ensures !(|bs[0]| < |cs[0]|)
  {
    var p, q := |bs[0]|, |cs[0]|;
    PackingHead(bs, xs, cost, limit);
    PackingHead(cs, xs, cost, limit);
    if p < q {
      PrefixSnoc(xs, p);
      SumSnoc(xs[..p], xs[p], cost);
      SumPrefixMonotone(xs, p + 1, q, cost);
      assert false;
    }
  }

  /** A group exceeds the ceiling only as a lone element that alone exceeds it. */
  lemma PackingOverflowIsSingleton<T>(bs: seq<seq<T>>, xs: seq<T>, cost: T -> nat, limit: nat, i: nat)
    requires IsGreedyPacking(bs, xs, cost, limit)
    requires i < |bs| && Sum(bs[i], cost) > limit
    ensures |bs[i]| == 1 && cost(bs[i][0]) > limit
  {
    assert bs[i] == [bs[i][0]];
    assert bs[i][..0] == [];
  }

  /** Every element of a group is an element of the input. */
  lemma {:induction false} FlattenContains<T>(bs: seq<seq<T>>, i: nat, j: nat)
    requires i < |bs| && j < |bs[i]|
    ensures bs[i][j] in Flatten(bs)
    decreases |bs|
  {
    var n := |bs| - 1;
    if i < n {
      FlattenContains(bs[..n], i, j);
      assert bs[..n][i] == bs[i];
    } else {
      assert Flatten(bs) == Flatten(bs[..n]) + bs[n];
      assert Flatten(bs)[|Flatten(bs[..n])| + j] == bs[i][j];
    }
  }

  /** Elements of equal cost `c` sum to `c` times their number. */
  lemma {:induction false} SumOfEqualCosts<T>(xs: seq<T>, cost: T -> nat, c: nat)
    requires forall k :: 0 <= k < |xs| ==> cost(xs[k]) == c
    ensures Sum(xs, cost) == c * |xs|
    decreases |xs|
  {
    if xs != [] {
      SumOfEqualCosts(xs[..|xs| - 1], cost, c);
      assert c * |xs| == c * (|xs| - 1) + c;
    }
  }

  /** When no single element exceeds the ceiling, no group does. */
  lemma PackingAllFit<T>(bs: seq<seq<T>>, xs: seq<T>, cost: T -> nat, limit: nat)
    requires IsGreedyPacking(bs, xs, cost, limit)
    requires forall k :: 0 <= k < |xs| ==> cost(xs[k]) <= limit
    ensures forall i :: 0 <= i < |bs| ==> Sum(bs[i], cost) <= limit
  {
    forall i | 0 <= i < |bs|
      ensures Sum(bs[i], cost) <= limit
    {
      if Sum(bs[i], cost) > limit {
        PackingOverflowIsSingleton(bs, xs, cost, limit, i);
        FlattenContains(bs, i, 0);
        assert false;
      }
    }
  }

  // ---------------------------------------------------------------------
  // A functional greedy pass

  /** Where the first group of a greedy pass over `xs` ends, given that its
      first `k` elements are already in: one more element joins while it fits. */
  function GroupEnd<T>(xs: seq<T>, cost: T -> nat, limit: nat, k: nat): (e: nat)
    requires 1 <= k <= |xs|
    ensures k <= e <= |xs|
    decreases |xs| - k
  {
    if k < |xs| && Sum(xs[..k], cost) + cost(xs[k]) <= limit then GroupEnd(xs, cost, limit, k + 1) else k
  }

  /** The first group fits unless it is the element it started with, and it
      ends at the input's end or where the next element does not fit. */
  lemma {:induction false} GroupEndBounds<T>(xs: seq<T>, cost: T -> nat, limit: nat, k: nat)
    requires 1 <= k <= |xs|
    ensures var e := GroupEnd(xs, cost, limit, k);
      && (e == k || Sum(xs[..e], cost) <= limit)
      && (e < |xs| ==> Sum(xs[..e], cost) + cost(xs[e]) > limit)
    decreases |xs| - k
  {
    if k < |xs| && Sum(xs[..k], cost) + cost(xs[k]) <= limit {
      GroupEndBounds(xs, cost, limit, k + 1);
      var e := GroupEnd(xs, cost, limit, k + 1);
      if e == k + 1 {
        PrefixSnoc(xs, k);
        SumSnoc(xs[..k], xs[k], cost);
      }
    }
  }

  /** The groups of a greedy left-to-right pass, computed front to back. */
  function GreedyPack<T>(xs: seq<T>, cost: T -> nat, limit: nat): (r: seq<seq<T>>)
    ensures Flatten(r) == xs
    ensures forall i :: 0 <= i < |r| ==> r[i] != []
    decreases |xs|
  {
    if xs == [] then []
    else
      var e := GroupEnd(xs, cost, limit, 1);
      var rest := GreedyPack(xs[e..], cost, limit);
      FlattenCons(xs[..e], rest);
      assert xs[..e] + xs[e..] == xs;
      [xs[..e]] + rest
  }

  /** A group placed in front of a greedy packing of the rest, when it is
      non-empty, fits or is a lone element, and cannot take the rest's first
      element, gives a greedy packing of the whole. */
  lemma PackingCons<T>(g: seq<T>, rest: seq<seq<T>>, ys: seq<T>, cost: T -> nat, limit: nat)
    requires g != [] && (Sum(g, cost) <= limit || |g| == 1)
    requires IsGreedyPacking(rest, ys, cost, limit)
    requires ys != [] ==> Sum(g, cost) + cost(ys[0]) > limit
    ensures IsGreedyPacking([g] + rest, g + ys, cost, limit)
  {
    var bs := [g] + rest;
    FlattenCons(g, rest);
    ConsGroups(g, rest, cost, limit);
    ConsClosed(g, rest, cost, limit);
    if rest != [] {
      PackingFirstElement(rest, ys, cost, limit);
      assert ClosedWhenFull(bs, 0, cost, limit);
    }
    forall i | 0 <= i < |bs| - 1
      ensures ClosedWhenFull(bs, i, cost, limit)
    {
      if i > 0 {
        assert 0 < i < |bs| - 1;
      }
    }
  }

  lemma ConsGroups<T>(g: seq<T>, rest: seq<seq<T>>, cost: T -> nat, limit: nat)
    requires g != [] && (Sum(g, cost) <= limit || |g| == 1)
    requires forall i :: 0 <= i < |rest| ==> rest[i] != [] && (Sum(rest[i], cost) <= limit || |rest[i]| == 1)
    ensures var bs := [g] + rest;
      forall i :: 0 <= i < |bs| ==> bs[i] != [] && (Sum(bs[i], cost) <= limit || |bs[i]| == 1)
  {
    var bs := [g] + rest;
    forall i | 0 <= i < |bs|
      ensures bs[i] != [] && (Sum(bs[i], cost) <= limit || |bs[i]| == 1)
    {
      if i > 0 {
        assert bs[i] == rest[i - 1];
      }
    }
  }

  lemma ConsClosed<T>(g: seq<T>, rest: seq<seq<T>>, cost: T -> nat, limit: nat)
    requires forall i :: 0 <= i < |rest| - 1 ==> ClosedWhenFull(rest, i, cost, limit)
    ensures var bs := [g] + rest;
      forall i :: 0 < i < |bs| - 1 ==> ClosedWhenFull(bs, i, cost, limit)
  {
    var bs := [g] + rest;
    forall i | 0 < i < |bs| - 1
      ensures ClosedWhenFull(bs, i, cost, limit)
    {
      assert ClosedWhenFull(rest, i - 1, cost, limit);
      assert bs[i] == rest[i - 1] && bs[i + 1] == rest[i];
    }
  }

  /** The first element of a non-empty packing's input opens its first group. */
  lemma PackingFirstElement<T>(bs: seq<seq<T>>, xs: seq<T>, cost: T -> nat, limit: nat)
    requires IsGreedyPacking(bs, xs, cost, limit) && bs != []
    ensures xs != [] && bs[0][0] == xs[0]
  {
    PackingTail(bs, xs, cost, limit);
  }

  /** The functional pass meets the greedy-packing specification. */
  lemma {:induction false} GreedyPackIsGreedy<T>(xs: seq<T>, cost: T -> nat, limit: nat)
    ensures IsGreedyPacking(GreedyPack(xs, cost, limit), xs, cost, limit)
    decreases |xs|
  {
    if xs == [] {
      assert Flatten<T>([]) == [];
    } else {
      var e := GroupEnd(xs, cost, limit, 1);
      GroupEndBounds(xs, cost, limit, 1);
      GreedyPackIsGreedy(xs[e..], cost, limit);
      if e < |xs| {
        assert xs[e..][0] == xs[e];
      }
      PackingCons(xs[..e], GreedyPack(xs[e..], cost, limit), xs[e..], cost, limit);
      assert xs[..e] + xs[e..] == xs;
    }
  }

  /** Every greedy packing is the one the functional pass computes. */
  lemma PackingIsGreedyPack<T>(bs: seq<seq<T>>, xs: seq<T>, cost: T -> nat, limit: nat)
    requires IsGreedyPacking(bs, xs, cost, limit)
    ensures bs == GreedyPack(xs, cost, limit)
  {
    GreedyPackIsGreedy(xs, cost, limit);
    GreedyPackingUnique(bs, GreedyPack(xs, cost, limit), xs, cost, limit);
  }
}
