/** Memory left after losing a node: the overprovisioning check of `getClusterHealth` and the total in
    `get_resource_metrics`. */
module NMinusOne {

  datatype NodeMemory = NodeMemory(total: nat, alloc: nat)

  function Sum(s: seq<nat>): nat {
    if s == [] then 0 else Sum(s[..|s| - 1]) + s[|s| - 1]
  }

  function Largest(s: seq<nat>): nat {
    if s == [] then 0
    else if s[|s| - 1] > Largest(s[..|s| - 1]) then s[|s| - 1] else Largest(s[..|s| - 1])
  }

  function Without(s: seq<nat>, i: nat): seq<nat>
    requires i < |s|
  {
    s[..i] + s[i + 1..]
  }

  function Totals(nodes: seq<NodeMemory>): seq<nat> {
    seq(|nodes|, i requires 0 <= i < |nodes| => nodes[i].total)
  }

  function Allocations(nodes: seq<NodeMemory>): seq<nat> {
    seq(|nodes|, i requires 0 <= i < |nodes| => nodes[i].alloc)
  }

  lemma {:induction false} SumConcat(a: seq<nat>, b: seq<nat>)
    ensures Sum(a + b) == Sum(a) + Sum(b)
  {
    if b == [] {
      assert a + b == a;
    } else {
      var n := |b| - 1;
      assert (a + b)[..|a + b| - 1] == a + b[..n];
      SumConcat(a, b[..n]);
    }
  }

  lemma SumOne(x: nat)
    ensures Sum([x]) == x
  {
    assert [x][..0] == [];
  }

  lemma SumWithout(s: seq<nat>, i: nat)
    requires i < |s|
    ensures Sum(Without(s, i)) == Sum(s) - s[i]
  {
    hide Sum;
    var a, b := s[..i], s[i + 1..];
    SumConcat(a, b);
    SumConcat(a, [s[i]] + b);
    SumConcat([s[i]], b);
    SumOne(s[i]);
    assert s == a + ([s[i]] + b);
  }

  lemma {:induction false} LargestIs(s: seq<nat>)
    ensures forall i | 0 <= i < |s| :: s[i] <= Largest(s)
    ensures s != [] ==> Largest(s) in s
  {
    if s != [] {
      LargestIs(s[..|s| - 1]);
      assert s == s[..|s| - 1] + [s[|s| - 1]];
    }
  }

  lemma {:induction false} SameSum(s: seq<nat>, t: seq<nat>)
    requires multiset(s) == multiset(t)
    ensures Sum(s) == Sum(t)
    decreases |s|
  {
    if s == [] {
      assert |multiset(t)| == 0;
    } else {
      var n := |s| - 1;
      assert s[n] in multiset(t);
      var i :| 0 <= i < |t| && t[i] == s[n];
      assert s == s[..n] + [s[n]];
      assert multiset(s) == multiset(s[..n]) + multiset{s[n]};
      assert multiset(t) == multiset(Without(t, i)) + multiset{t[i]} by {
        assert t == t[..i] + [t[i]] + t[i + 1..];
      }
      assert multiset(s[..n]) == multiset(s) - multiset{s[n]};
      assert multiset(Without(t, i)) == multiset(t) - multiset{t[i]};
      assert multiset(s[..n]) == multiset(Without(t, i));
      SameSum(s[..n], Without(t, i));
      SumWithout(t, i);
    }
  }

  /** The largest-index total is the smallest of the totals left by losing some one node. */
  lemma WorstLoss(s: seq<nat>)
    ensures forall i | 0 <= i < |s| :: Sum(s) - Largest(s) <= Sum(Without(s, i))
    ensures s != [] ==> exists i | 0 <= i < |s| :: Sum(s) - Largest(s) == Sum(Without(s, i))
  {
    LargestIs(s);
    forall i | 0 <= i < |s| ensures Sum(s) - Largest(s) <= Sum(Without(s, i)) {
      SumWithout(s, i);
    }
    if s != [] {
      var i :| 0 <= i < |s| && s[i] == Largest(s);
      SumWithout(s, i);
    }
  }

  /** Summing all but the last of the sorted totals, as the metrics do, gives the same. */
  lemma SortedDropLast(s: seq<nat>, sorted: seq<nat>)
    requires multiset(s) == multiset(sorted)
    requires forall i, j | 0 <= i < j < |sorted| :: sorted[i] <= sorted[j]
    ensures Sum(if sorted == [] then [] else sorted[..|sorted| - 1]) == Sum(s) - Largest(s)
  {
    SameSum(s, sorted);
    LargestIs(s);
    if sorted == [] {
      assert |multiset(s)| == 0;
    } else {
      var top := sorted[|sorted| - 1];
      assert top in multiset(sorted);
      assert |multiset(s)| == |sorted|;
      assert Largest(s) in multiset(s);
      var i :| 0 <= i < |sorted| && sorted[i] == Largest(s);
      assert top in s;
      assert top == Largest(s);
    }
  }

  /** The loops of the health check. The cluster counts as overprovisioned exactly when the loss of some
      node would leave less memory than the VMs were given. */
  method CheckOverprovisioning(nodes: seq<NodeMemory>) returns (remaining: nat, overprovisioned: bool)
    ensures remaining == Sum(Totals(nodes)) - Largest(Totals(nodes))
    ensures overprovisioned <==>
      exists i | 0 <= i < |nodes| :: Sum(Without(Totals(nodes), i)) < Sum(Allocations(nodes))
  {
    ghost var totals, allocations := Totals(nodes), Allocations(nodes);
    var alloc := 0;
    var largestIndex, largestCount := -1, 0;
    for i := 0 to |nodes|
      invariant alloc == Sum(allocations[..i])
      invariant largestCount == Largest(totals[..i])
      invariant -1 <= largestIndex < i
      invariant if largestIndex == -1 then largestCount == 0 else totals[largestIndex] == largestCount
    {
      assert totals[..i + 1][..i] == totals[..i] && allocations[..i + 1][..i] == allocations[..i];
      alloc := alloc + nodes[i].alloc;
      if nodes[i].total > largestCount {
        largestIndex, largestCount := i, nodes[i].total;
      }
    }
    assert totals[..|nodes|] == totals && allocations[..|nodes|] == allocations;
    var others: seq<NodeMemory> := [];
    for i := 0 to |nodes|
      invariant Sum(Totals(others)) ==
        Sum(totals[..i]) - if 0 <= largestIndex < i then largestCount else 0
    {
      assert totals[..i + 1][..i] == totals[..i];
      if i == largestIndex {
        continue;
      }
      assert Totals(others + [nodes[i]])[..|others|] == Totals(others);
      others := others + [nodes[i]];
    }
    remaining := 0;
    for i := 0 to |others|
      invariant remaining == Sum(Totals(others)[..i])
    {
      assert Totals(others)[..i + 1][..i] == Totals(others)[..i];
      remaining := remaining + others[i].total;
    }
    assert Totals(others)[..|others|] == Totals(others);
    overprovisioned := alloc > remaining;
    WorstLoss(totals);
  }
}
