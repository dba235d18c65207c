/** The point-budget sampler: at most 80% of the budget goes to edge points,
    chosen without replacement; uniformly random points fill the rest.
    The two random draws are parameters: `chosen` plays the index draw
    without replacement, `rand` the batch of random pixel positions. */
module Sampler {
  import opened Geometry

  /** The edge quota int(n * 0.8), computed exactly on integers. */
  function EdgeQuota(n: int): (q: int)
    requires n >= 0
    ensures 0 <= q <= n
    ensures 5 * q <= 4 * n < 5 * q + 5
  {
    (4 * n) / 5
  }

  /** More edge points than 80% of the budget, compared exactly on integers. */
  predicate OverBudget(e: int, n: int) {
    5 * e > 4 * n
  }

  /** The number of random points the source asks for (possibly <= 0). */
  function NumRandom(e: nat, n: int): (r: int)
    requires n >= 0
  {
    if OverBudget(e, n) then n - EdgeQuota(n) else n - e
  }

  /** How many random points are actually drawn: none unless the count is positive. */
  function RandomCount(e: nat, n: int): (r: nat)
    requires n >= 0
  {
    if NumRandom(e, n) > 0 then NumRandom(e, n) else 0
  }

  /** No index occurs twice. */
  predicate Distinct<T(==)>(s: seq<T>) {
    forall i, j :: 0 <= i < j < |s| ==> s[i] != s[j]
  }

  /** A draw of k distinct indices below `bound`, as sampling without replacement gives. */
  predicate IsChoice(chosen: seq<int>, bound: nat, k: int) {
    |chosen| == k && Distinct(chosen) && forall i :: 0 <= i < |chosen| ==> 0 <= chosen[i] < bound
  }

  /** The edge points at the drawn indices, in draw order. */
  function Pick(edges: seq<Pt>, chosen: seq<int>): (r: seq<Pt>)
    requires forall i :: 0 <= i < |chosen| ==> 0 <= chosen[i] < |edges|
    ensures |r| == |chosen|
    ensures forall i :: 0 <= i < |r| ==> r[i] == edges[chosen[i]]
  {
    seq(|chosen|, i requires 0 <= i < |chosen| => edges[chosen[i]])
  }

  /** The edge points that the sampler keeps. */
  function EdgePart(edges: seq<Pt>, n: int, chosen: seq<int>): (r: seq<Pt>)
    requires n >= 0
    requires OverBudget(|edges|, n) ==> IsChoice(chosen, |edges|, EdgeQuota(n))
  {
    if OverBudget(|edges|, n) then Pick(edges, chosen) else edges
  }

  /** The combined point list handed to the triangulator. */
  function SamplePoints(edges: seq<Pt>, n: int, w: int, h: int, chosen: seq<int>, rand: seq<Pt>): (r: seq<Pt>)
    requires n >= 0
    requires OverBudget(|edges|, n) ==> IsChoice(chosen, |edges|, EdgeQuota(n))
    requires |rand| == RandomCount(|edges|, n)
    requires forall i :: 0 <= i < |rand| ==> PtInImage(rand[i], w, h)
    ensures |r| == n
    ensures OverBudget(|edges|, n) ==>
      r == Pick(edges, chosen) + rand && |rand| == n - EdgeQuota(n)
    ensures !OverBudget(|edges|, n) ==> r == edges + rand && |rand| == n - |edges|
    ensures forall i :: |r| - |rand| <= i < |r| ==> PtInImage(r[i], w, h)
  {
    var points := EdgePart(edges, n, chosen);
    var numRandom := NumRandom(|edges|, n);
    if numRandom > 0 then
      (if |points| > 0 then points + rand else rand)
    else
      points
  }

  /** With a budget of at least one point the random fill is never empty. */
  lemma RandomFillPositive(e: nat, n: int)
    requires n >= 1
    ensures NumRandom(e, n) > 0
    ensures !OverBudget(e, n) ==> e < n
  {
  }

  /** Edge points come from distinct indices, hence from distinct entries;
      if the edge list itself has no repeats, neither does the kept part. */
  lemma EdgePartDistinct(edges: seq<Pt>, n: int, chosen: seq<int>)
    requires n >= 0
    requires OverBudget(|edges|, n) ==> IsChoice(chosen, |edges|, EdgeQuota(n))
    requires Distinct(edges)
    ensures Distinct(EdgePart(edges, n, chosen))
  {
  }

  /** Sampling without replacement takes a sub-multiset of the edge points. */
  lemma {:induction false} PickSubMultiset(edges: seq<Pt>, chosen: seq<int>)
    requires Distinct(chosen)
    requires forall i :: 0 <= i < |chosen| ==> 0 <= chosen[i] < |edges|
    ensures multiset(Pick(edges, chosen)) <= multiset(edges)
    decreases |edges|
  {
    if chosen != [] {
      assert 0 <= chosen[0] < |edges|;
      var last := |edges| - 1;
      var init := edges[..last];
      assert edges == init + [edges[last]];
      if p :| 0 <= p < |chosen| && chosen[p] == last {
        var rest := chosen[..p] + chosen[p + 1..];
        assert Distinct(rest) by {
          forall i, j | 0 <= i < j < |rest| ensures rest[i] != rest[j] {
            var i' := if i < p then i else i + 1;
            var j' := if j < p then j else j + 1;
            assert rest[i] == chosen[i'] && rest[j] == chosen[j'];
          }
        }
        forall i | 0 <= i < |rest| ensures 0 <= rest[i] < last {
          var i' := if i < p then i else i + 1;
          assert rest[i] == chosen[i'] && i' != p;
        }
        PickSubMultiset(init, rest);
        PickSplit(edges, chosen, p);
        PickPrefix(edges, init, rest);
      } else {
        forall i | 0 <= i < |chosen| ensures 0 <= chosen[i] < last {
        }
        PickSubMultiset(init, chosen);
        PickPrefix(edges, init, chosen);
      }
    }
  }

  /** Picking from a prefix of the list gives the same points when every index falls in the prefix. */
  lemma PickPrefix(edges: seq<Pt>, init: seq<Pt>, chosen: seq<int>)
    requires init <= edges
    requires forall i :: 0 <= i < |chosen| ==> 0 <= chosen[i] < |init|
    ensures Pick(edges, chosen) == Pick(init, chosen)
  {
  }

  /** Removing the pick at position p takes exactly its point out of the multiset. */
  lemma PickSplit(edges: seq<Pt>, chosen: seq<int>, p: nat)
    requires p < |chosen|
    requires forall i :: 0 <= i < |chosen| ==> 0 <= chosen[i] < |edges|
    ensures multiset(Pick(edges, chosen))
         == multiset(Pick(edges, chosen[..p] + chosen[p + 1..])) + multiset{edges[chosen[p]]}
  {
    var rest := chosen[..p] + chosen[p + 1..];
    assert |rest| == |chosen| - 1;
    forall i | 0 <= i < |rest| ensures rest[i] == chosen[if i < p then i else i + 1] {
    }
    var a := Pick(edges, chosen);
    var b := Pick(edges, rest);
    var front, back := a[..p], a[p + 1..];
    assert a == front + [a[p]] + back;
    forall i | 0 <= i < |b| ensures b[i] == (front + back)[i] {
    }
    assert b == front + back;
    calc {
      multiset(a);
      multiset(front) + multiset{a[p]} + multiset(back);
      multiset(b) + multiset{edges[chosen[p]]};
    }
  }
}
