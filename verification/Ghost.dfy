/**
 GHOST fork choice of consensus/ghost.py: the explicit-stack subtree weight, the greedy
 head selection, and what the head means.
 */
module Ghost {
  import opened Wrappers

  datatype Node = Node(parent: Option<string>, children: seq<string>, number: int)

  type Tree = map<string, Node>

  function Children(tree: Tree, h: string): seq<string> {
    if h in tree then tree[h].children else []
  }

  function Number(tree: Tree, h: string): int {
    if h in tree then tree[h].number else 0
  }

  /** Acyclicity, witnessed by a rank that falls from every block to its children. */
  ghost predicate Ranked(tree: Tree, rank: string -> nat) {
    forall h, i :: h in tree && 0 <= i < |tree[h].children| ==> rank(tree[h].children[i]) < rank(h)
  }

  function Get(weights: map<string, int>): string -> int {
    (h: string) => if h in weights then weights[h] else 0
  }

  // ----- the recursive specification -----

  ghost function Weight(tree: Tree, f: string -> int, rank: string -> nat, h: string): int
    requires Ranked(tree, rank)
    decreases rank(h), 1, 0
  {
    f(h) + Weights(tree, f, rank, Children(tree, h), rank(h))
  }

  ghost function Weights(tree: Tree, f: string -> int, rank: string -> nat, hs: seq<string>, bound: nat): int
    requires Ranked(tree, rank) && forall i :: 0 <= i < |hs| ==> rank(hs[i]) < bound
    decreases bound, 0, |hs|
  {
    if hs == [] then 0
    else Weights(tree, f, rank, hs[..|hs| - 1], bound) + Weight(tree, f, rank, hs[|hs| - 1])
  }

  /** A block weighs its own entry, 0 without one, plus its children; without children just that. */
  lemma WeightOfLeaf(tree: Tree, weights: map<string, int>, rank: string -> nat, h: string)
    requires Ranked(tree, rank) && (h in tree ==> tree[h].children == [])
    ensures Weight(tree, Get(weights), rank, h) == if h in weights then weights[h] else 0
  {
  }

  // ----- the stack machine -----

  type Entry = (string, bool)

  const VISIT_COST: string -> int := (h: string) => 2

  /** Turns of the loop that an entry can still cause: two per visit of each block below it. */
  ghost function EntryWork(tree: Tree, rank: string -> nat, e: Entry): int
    requires Ranked(tree, rank)
  {
    if e.1 then 1 else Weight(tree, VISIT_COST, rank, e.0)
  }

  ghost function StackWork(tree: Tree, rank: string -> nat, stack: seq<Entry>): int
    requires Ranked(tree, rank)
  {
    if stack == [] then 0
    else StackWork(tree, rank, stack[..|stack| - 1]) + EntryWork(tree, rank, stack[|stack| - 1])
  }

  lemma {:induction false} WorkIsPositive(tree: Tree, rank: string -> nat, h: string)
    requires Ranked(tree, rank)
    ensures Weight(tree, VISIT_COST, rank, h) >= 2
    decreases rank(h), 1, 0
  {
    WorksAreNonNegative(tree, rank, Children(tree, h), rank(h));
  }

  lemma {:induction false} WorksAreNonNegative(tree: Tree, rank: string -> nat, hs: seq<string>, bound: nat)
    requires Ranked(tree, rank) && forall i :: 0 <= i < |hs| ==> rank(hs[i]) < bound
    ensures Weights(tree, VISIT_COST, rank, hs, bound) >= 0
    decreases bound, 0, |hs|
  {
    if hs != [] {
      WorksAreNonNegative(tree, rank, hs[..|hs| - 1], bound);
      WorkIsPositive(tree, rank, hs[|hs| - 1]);
    }
  }

  lemma {:induction false} StackWorkIsNonNegative(tree: Tree, rank: string -> nat, stack: seq<Entry>)
    requires Ranked(tree, rank)
    ensures StackWork(tree, rank, stack) >= 0
  {
    if stack != [] {
      StackWorkIsNonNegative(tree, rank, stack[..|stack| - 1]);
      if !stack[|stack| - 1].1 { WorkIsPositive(tree, rank, stack[|stack| - 1].0); }
    }
  }

  ghost predicate OnStack(stack: seq<Entry>, above: int, h: string) {
    exists j :: above < j < |stack| && 0 <= j && stack[j].0 == h
  }

  /** Every child of an expanded entry is summed up already or waits higher on the stack. */
  ghost predicate Pending(tree: Tree, memo: map<string, int>, stack: seq<Entry>) {
    forall i, k :: 0 <= i < |stack| && stack[i].1 && 0 <= k < |Children(tree, stack[i].0)| ==>
      var c := Children(tree, stack[i].0)[k];
      c in memo || OnStack(stack, i, c)
  }

  ghost predicate MemoOk(tree: Tree, f: string -> int, rank: string -> nat, memo: map<string, int>)
    requires Ranked(tree, rank)
  {
    forall h :: h in memo ==> memo[h] == Weight(tree, f, rank, h)
  }

  /** Sums the children's memo entries, as the expanded branch of the loop does. */
  method SumChildren(tree: Tree, weights: map<string, int>, node: string, memo: map<string, int>, ghost rank: string -> nat)
    returns (total: int)
    requires Ranked(tree, rank) && MemoOk(tree, Get(weights), rank, memo)
    requires forall k :: 0 <= k < |Children(tree, node)| ==> Children(tree, node)[k] in memo
    ensures total == Weight(tree, Get(weights), rank, node)
  {
    total := if node in weights then weights[node] else 0;
    var children := Children(tree, node);
    for k := 0 to |children|
      invariant total == Get(weights)(node) + Weights(tree, Get(weights), rank, children[..k], rank(node))
    {
      assert children[..k + 1][..k] == children[..k];
      total := total + memo[children[k]];
    }
    assert children[..|children|] == children;
  }

  /** Pushes the expanded entry and then the children that still have to be visited. */
  method PushChildren(tree: Tree, node: string, memo: map<string, int>, base: seq<Entry>, ghost rank: string -> nat)
    returns (stack: seq<Entry>)
    requires Ranked(tree, rank)
    ensures |stack| > |base| && stack[..|base| + 1] == base + [(node, true)]
    ensures forall j :: |base| < j < |stack| ==> !stack[j].1
    ensures forall k :: 0 <= k < |Children(tree, node)| ==>
              Children(tree, node)[k] in memo || OnStack(stack, |base|, Children(tree, node)[k])
    ensures StackWork(tree, rank, stack) < StackWork(tree, rank, base) + Weight(tree, VISIT_COST, rank, node)
  {
    hide StackWork, Weight, Weights, OnStack;
    stack := base + [(node, true)];
    StackWorkPops(tree, rank, base, (node, true));
    var children := Children(tree, node);
    var k := |children|;
    assert children[..k] == children;
    while k > 0
      invariant 0 <= k <= |children|
      invariant |stack| > |base| && stack[..|base| + 1] == base + [(node, true)]
      invariant forall j :: |base| < j < |stack| ==> !stack[j].1
      invariant forall i :: k <= i < |children| ==> children[i] in memo || OnStack(stack, |base|, children[i])
      invariant StackWork(tree, rank, stack) + Weights(tree, VISIT_COST, rank, children[..k], rank(node))
                <= StackWork(tree, rank, base) + 1 + Weights(tree, VISIT_COST, rank, children, rank(node))
    {
      k := k - 1;
      ghost var before := stack;
      WeightsSplit(tree, rank, children, k, rank(node));
      if children[k] !in memo {
        stack := stack + [(children[k], false)];
        StackWorkPops(tree, rank, before, (children[k], false));
        OnStackExtends(before, (children[k], false), |base|);
      }
    }
    NodeWork(tree, rank, node);
  }

  lemma WeightsSplit(tree: Tree, rank: string -> nat, hs: seq<string>, k: nat, bound: nat)
    requires Ranked(tree, rank) && k < |hs| && forall i :: 0 <= i < |hs| ==> rank(hs[i]) < bound
    ensures Weights(tree, VISIT_COST, rank, hs[..k + 1], bound)
            == Weights(tree, VISIT_COST, rank, hs[..k], bound) + Weight(tree, VISIT_COST, rank, hs[k])
    ensures Weight(tree, VISIT_COST, rank, hs[k]) >= 2
  {
    assert hs[..k + 1][..k] == hs[..k];
    WorkIsPositive(tree, rank, hs[k]);
  }

  lemma NodeWork(tree: Tree, rank: string -> nat, node: string)
    requires Ranked(tree, rank)
    ensures Weight(tree, VISIT_COST, rank, node) == 2 + Weights(tree, VISIT_COST, rank, Children(tree, node), rank(node))
    ensures Weights(tree, VISIT_COST, rank, Children(tree, node)[..0], rank(node)) == 0
  {
  }

  lemma OnStackExtends(stack: seq<Entry>, e: Entry, above: int)
    ensures forall h :: OnStack(stack, above, h) ==> OnStack(stack + [e], above, h)
    ensures above < |stack| ==> OnStack(stack + [e], above, e.0)
  {
    var longer := stack + [e];
    assert longer[|stack|] == e;
    forall h | OnStack(stack, above, h) ensures OnStack(longer, above, h) {
      var j :| above < j < |stack| && 0 <= j && stack[j].0 == h;
      assert longer[j].0 == h;
    }
  }

  lemma PendingAfterExpansion(tree: Tree, memo: map<string, int>, stack: seq<Entry>, node: string, stack': seq<Entry>)
    requires Pending(tree, memo, stack + [(node, false)])
    requires |stack'| > |stack| && stack'[..|stack| + 1] == stack + [(node, true)]
    requires forall j :: |stack| < j < |stack'| ==> !stack'[j].1
    requires forall k :: 0 <= k < |Children(tree, node)| ==>
               Children(tree, node)[k] in memo || OnStack(stack', |stack|, Children(tree, node)[k])
    ensures Pending(tree, memo, stack')
  {
    var before := stack + [(node, false)];
    forall i, k | 0 <= i < |stack'| && stack'[i].1 && 0 <= k < |Children(tree, stack'[i].0)|
      ensures var c := Children(tree, stack'[i].0)[k]; c in memo || OnStack(stack', i, c)
    {
      assert i <= |stack|;
      assert stack'[i] == stack'[..|stack| + 1][i];
      if i < |stack| {
        assert before[i] == stack'[i];
        var c := Children(tree, before[i].0)[k];
        if c !in memo {
          var j :| i < j < |before| && 0 <= j && before[j].0 == c;
          assert stack'[j] == stack'[..|stack| + 1][j];
          assert stack'[j].0 == c;
        }
      }
    }
  }

  lemma PendingAfterSum(tree: Tree, memo: map<string, int>, stack: seq<Entry>, node: string, w: int)
    requires Pending(tree, memo, stack + [(node, true)])
    ensures Pending(tree, memo[node := w], stack)
    ensures forall k :: 0 <= k < |Children(tree, node)| ==> Children(tree, node)[k] in memo
  {
    var before := stack + [(node, true)];
    assert before[|stack|] == (node, true);
    forall i, k | 0 <= i < |stack| && stack[i].1 && 0 <= k < |Children(tree, stack[i].0)|
      ensures var c := Children(tree, stack[i].0)[k]; c in memo[node := w] || OnStack(stack, i, c)
    {
      assert before[i] == stack[i];
      var c := Children(tree, before[i].0)[k];
      if c !in memo && c != node {
        var j :| i < j < |before| && 0 <= j && before[j].0 == c;
        assert stack[j].0 == c;
      }
    }
  }

  /**
   The iterative weight: terminates on every acyclic block graph and equals the recursive sum
   over the subtree. The rank is only a witness of acyclicity.
   */
  method GetCumulativeWeight(tree: Tree, weights: map<string, int>, blockHash: string, ghost rank: string -> nat)
    returns (total: int)
    requires Ranked(tree, rank)
    ensures total == Weight(tree, Get(weights), rank, blockHash)
  {
    hide Pending, StackWork, Weight;
    var memo: map<string, int> := map[];
    var stack: seq<Entry> := [(blockHash, false)];
    InitialPending(tree, blockHash);
    while stack != []
      invariant MemoOk(tree, Get(weights), rank, memo)
      invariant Pending(tree, memo, stack)
      invariant blockHash in memo || (stack != [] && stack[0].0 == blockHash)
      decreases StackWork(tree, rank, stack)
    {
      ghost var before := stack;
      var (node, expanded) := stack[|stack| - 1];
      stack := stack[..|stack| - 1];
      assert before == stack + [(node, expanded)];
      StackWorkPops(tree, rank, stack, (node, expanded));
      StackWorkIsNonNegative(tree, rank, before);
      if expanded {
        ghost var memo0 := memo;
        PendingAfterSum(tree, memo0, stack, node, Weight(tree, Get(weights), rank, node));
        var sum := SumChildren(tree, weights, node, memo, rank);
        memo := memo[node := sum];
      } else {
        var pushed := PushChildren(tree, node, memo, stack, rank);
        PendingAfterExpansion(tree, memo, stack, node, pushed);
        assert pushed[0] == pushed[..|stack| + 1][0];
        stack := pushed;
      }
    }
    total := memo[blockHash];  // the default given to the final lookup is never needed
  }

  lemma InitialPending(tree: Tree, h: string)
    ensures Pending(tree, map[], [(h, false)])
  {
  }

  lemma StackWorkPops(tree: Tree, rank: string -> nat, stack: seq<Entry>, e: Entry)
    requires Ranked(tree, rank)
    ensures StackWork(tree, rank, stack + [e]) == StackWork(tree, rank, stack) + EntryWork(tree, rank, e)
    ensures EntryWork(tree, rank, e) >= 1
    ensures !e.1 ==> EntryWork(tree, rank, e) == Weight(tree, VISIT_COST, rank, e.0)
  {
    assert (stack + [e])[..|stack|] == stack;
    if !e.1 { WorkIsPositive(tree, rank, e.0); }
  }
}
