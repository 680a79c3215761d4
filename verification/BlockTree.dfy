/**
 The block tree of the consensus engines: `add_block` keeps it a rooted tree, subtree weight
 is the sum over the subtree's blocks, and the majority theorem in terms of stake.
 */
module BlockTree {
  import opened Wrappers
  import opened Sums
  import opened Ghost
  import opened GhostHead
  import opened Lmd

  /** Every block but the root is listed by the parent it names. */
  ghost predicate ParentsList(tree: Tree, root: string) {
    forall h :: h in tree && h != root ==>
      tree[h].parent.Some? && tree[h].parent.value in tree && h in tree[tree[h].parent.value].children
  }

  /** Every listed child is in the tree and names the block that lists it. */
  ghost predicate ChildrenName(tree: Tree) {
    forall h, i :: h in tree && 0 <= i < |tree[h].children| ==>
      tree[h].children[i] in tree && tree[tree[h].children[i]].parent == Some(h)
  }

  ghost predicate DistinctChildren(tree: Tree) {
    forall h, i, j :: h in tree && 0 <= i < j < |tree[h].children| ==> tree[h].children[i] != tree[h].children[j]
  }

  ghost predicate Rooted(tree: Tree, rank: string -> nat, root: string) {
    && Ranked(tree, rank)
    && root in tree && tree[root].parent.None?
    && ParentsList(tree, root)
    && ChildrenName(tree)
    && DistinctChildren(tree)
  }

  // ----- add_block -----

  function AddBlock(tree: Tree, h: string, parent: Option<string>, number: int): Tree {
    var t1 := if h in tree then tree else tree[h := Node(parent, [], number)];
    if parent.None? then t1
    else
      var p := parent.value;
      var t2 := if p in t1 then t1 else t1[p := Node(None, [], 0)];
      if h in t2[p].children then t2 else t2[p := t2[p].(children := t2[p].children + [h])]
  }

  /**
   What `add_block` writes: a new block with its parent and number, its place at the end of the
   parent's children, a placeholder for an unknown parent, and nothing else.
   */
  lemma AddBlockRows(tree: Tree, h: string, parent: Option<string>, number: int, x: string)
    ensures var t := AddBlock(tree, h, parent, number);
            && (x in t <==> x in tree || x == h || parent == Some(x))
            && (x in tree ==> t[x].parent == tree[x].parent && t[x].number == tree[x].number)
            && (h !in tree ==> t[h].parent == parent && t[h].number == number)
            && (x in t && x !in tree && x != h ==> t[x].parent == None && t[x].number == 0)
            && (x in t ==>
                  var before := if x in tree then tree[x].children else [];
                  t[x].children == if parent == Some(x) && h !in before then before + [h] else before)
  {
  }

  function RaisedRank(rank: string -> nat, leaf: string): string -> nat {
    (x: string) => if x == leaf then 0 else rank(x) + 1
  }

  function WithLeaf(tree: Tree, h: string, p: string, number: int): Tree
    requires p in tree
  {
    tree[h := Node(Some(p), [], number)][p := tree[p].(children := tree[p].children + [h])]
  }

  lemma AddIsWithLeaf(tree: Tree, h: string, p: string, number: int)
    requires ChildrenName(tree) && h !in tree && p in tree
    ensures AddBlock(tree, h, Some(p), number) == WithLeaf(tree, h, p, number)
    ensures h !in tree[p].children
  {
    assert forall i :: 0 <= i < |tree[p].children| ==> tree[p].children[i] in tree;
  }

  lemma LeafKeepsParents(tree: Tree, root: string, h: string, p: string, number: int)
    requires ParentsList(tree, root) && h !in tree && p in tree
    ensures ParentsList(WithLeaf(tree, h, p, number), root)
  {
    var t := WithLeaf(tree, h, p, number);
    forall x | x in t && x != root
      ensures t[x].parent.Some? && t[x].parent.value in t && x in t[t[x].parent.value].children
    {
      if x == h {
        assert t[p].children[|tree[p].children|] == h;
      } else {
        assert t[x].parent == tree[x].parent;
        var q := tree[x].parent.value;
        var i :| 0 <= i < |tree[q].children| && tree[q].children[i] == x;
        assert t[q].children[i] == x;
      }
    }
  }

  lemma LeafKeepsChildren(tree: Tree, rank: string -> nat, h: string, p: string, number: int)
    requires Ranked(tree, rank) && ChildrenName(tree) && DistinctChildren(tree)
    requires h !in tree && p in tree && h !in tree[p].children
    ensures ChildrenName(WithLeaf(tree, h, p, number))
    ensures DistinctChildren(WithLeaf(tree, h, p, number))
    ensures Ranked(WithLeaf(tree, h, p, number), RaisedRank(rank, h))
  {
  }

  /** Parent-first delivery keeps the tree rooted, with the same root. */
  lemma AddKeepsRooted(tree: Tree, rank: string -> nat, root: string, h: string, p: string, number: int)
    requires Rooted(tree, rank, root) && h !in tree && p in tree
    ensures Rooted(AddBlock(tree, h, Some(p), number), RaisedRank(rank, h), root)
  {
    hide Ranked, ParentsList, ChildrenName, DistinctChildren;
    AddIsWithLeaf(tree, h, p, number);
    LeafKeepsParents(tree, root, h, p, number);
    LeafKeepsChildren(tree, rank, h, p, number);
  }

  /** The first block may come with or without a parent: either way one root. */
  lemma FirstBlockIsRooted(h: string, parent: Option<string>, number: int)
    requires parent.Some? ==> parent.value != h
    ensures var t := AddBlock(map[], h, parent, number);
            if parent.None? then Rooted(t, (x: string) => 0, h)
            else Rooted(t, (x: string) => if x == h then 0 else 1, parent.value)
  {
  }

  /** What `add_block` can take without breaking the tree: a new block under a known parent, or a repetition. */
  predicate Fits(tree: Tree, h: string, parent: Option<string>) {
    if h in tree then parent.None? || tree[h].parent == parent
    else parent.Some? && parent.value in tree
  }

  lemma RepetitionChangesNothing(tree: Tree, rank: string -> nat, root: string, h: string, parent: Option<string>, number: int)
    requires Rooted(tree, rank, root) && h in tree && Fits(tree, h, parent)
    ensures AddBlock(tree, h, parent, number) == tree
  {
    if parent.Some? {
      assert h != root;
      assert h in tree[parent.value].children;
    }
  }

  /** A delivery that does not fit leaves a second parentless block, a cycle, or a child with another parent. */
  lemma MisfitBreaksRoot(tree: Tree, rank: string -> nat, root: string, h: string, parent: Option<string>, number: int,
                         r: string -> nat)
    requires Rooted(tree, rank, root) && !Fits(tree, h, parent)
    ensures !Rooted(AddBlock(tree, h, parent, number), r, root)
  {
    hide Ranked;
    var t := AddBlock(tree, h, parent, number);
    if parent.None? {
      assert t[h].parent.None? && h != root;
    } else {
      var p := parent.value;
      assert h in t[p].children;
      var i :| 0 <= i < |t[p].children| && t[p].children[i] == h;
      if p == h {
        if Ranked(t, r) { ChildRank(t, r, h, i); }
      } else if p !in tree {
        assert t[p].parent.None? && p != root;
      } else {
        assert t[h].parent == tree[h].parent != Some(p);
      }
    }
  }

  /** `add_block` keeps a rooted tree rooted if and only if the delivery fits. */
  lemma AddKeepsRootedIff(tree: Tree, rank: string -> nat, root: string, h: string, parent: Option<string>, number: int)
    requires Rooted(tree, rank, root)
    ensures (exists r :: Rooted(AddBlock(tree, h, parent, number), r, root)) <==> Fits(tree, h, parent)
  {
    hide Rooted;
    var t := AddBlock(tree, h, parent, number);
    if Fits(tree, h, parent) {
      if h in tree {
        RepetitionChangesNothing(tree, rank, root, h, parent, number);
        assert Rooted(t, rank, root);
      } else {
        AddKeepsRooted(tree, rank, root, h, parent.value, number);
        assert Rooted(t, RaisedRank(rank, h), root);
      }
    } else {
      forall r ensures !Rooted(t, r, root) { MisfitBreaksRoot(tree, rank, root, h, parent, number, r); }
    }
  }

  datatype Delivery = Delivery(block: string, parent: Option<string>, number: int)

  function Build(ds: seq<Delivery>): Tree {
    if ds == [] then map[]
    else
      var d := ds[|ds| - 1];
      AddBlock(Build(ds[..|ds| - 1]), d.block, d.parent, d.number)
  }

  /** The first block starts the tree; every later one fits when it arrives. */
  ghost predicate ParentFirst(ds: seq<Delivery>) {
    && ds != [] && ds[0].parent != Some(ds[0].block)
    && forall i :: 1 <= i < |ds| ==> Fits(Build(ds[..i]), ds[i].block, ds[i].parent)
  }

  function RootOf(d: Delivery): string {
    if d.parent.Some? then d.parent.value else d.block
  }

  /** Every tree built by parent-first delivery is rooted at the first block (or the parent it names). */
  lemma {:induction false} BuiltTreeIsRooted(ds: seq<Delivery>) returns (rank: string -> nat)
    requires ParentFirst(ds)
    ensures Rooted(Build(ds), rank, RootOf(ds[0]))
  {
    hide Rooted, AddBlock, Fits;
    var last := |ds| - 1;
    var d := ds[last];
    if last == 0 {
      assert ds[..0] == [];
      FirstBlockIsRooted(d.block, d.parent, d.number);
      rank := if d.parent.None? then (x: string) => 0 else (x: string) => if x == d.block then 0 else 1;
    } else {
      assert Fits(Build(ds[..last]), d.block, d.parent);
      forall i | 1 <= i < last ensures Fits(Build(ds[..last][..i]), ds[..last][i].block, ds[..last][i].parent) {
        assert ds[..last][..i] == ds[..i];
      }
      var before := BuiltTreeIsRooted(ds[..last]);
      AddKeepsRootedIff(Build(ds[..last]), before, RootOf(ds[0]), d.block, d.parent, d.number);
      rank :| Rooted(AddBlock(Build(ds[..last]), d.block, d.parent, d.number), rank, RootOf(ds[0]));
    }
  }

  // ----- ancestry -----

  lemma {:induction false} DescendsBelow(tree: Tree, rank: string -> nat, a: string, x: string)
    requires Ranked(tree, rank) && Descends(tree, rank, a, x)
    ensures rank(x) <= rank(a) && (a != x ==> rank(x) < rank(a))
    decreases rank(a)
  {
    if a != x {
      var i :| 0 <= i < |Children(tree, a)| && Descends(tree, rank, Children(tree, a)[i], x);
      DescendsBelow(tree, rank, Children(tree, a)[i], x);
    }
  }

  lemma {:induction false} DescendsExtends(tree: Tree, rank: string -> nat, a: string, p: string, i: nat)
    requires Ranked(tree, rank) && Descends(tree, rank, a, p) && i < |Children(tree, p)|
    ensures Descends(tree, rank, a, Children(tree, p)[i])
    decreases rank(a)
  {
    if a == p {
      assert Descends(tree, rank, Children(tree, a)[i], Children(tree, p)[i]);
    } else {
      var k :| 0 <= k < |Children(tree, a)| && Descends(tree, rank, Children(tree, a)[k], p);
      DescendsExtends(tree, rank, Children(tree, a)[k], p, i);
    }
  }

  lemma {:induction false} DescendsViaParent(tree: Tree, rank: string -> nat, root: string, a: string, x: string)
    requires Rooted(tree, rank, root) && Descends(tree, rank, a, x) && a != x
    ensures x in tree && tree[x].parent.Some? && Descends(tree, rank, a, tree[x].parent.value)
    decreases rank(a)
  {
    var i :| 0 <= i < |Children(tree, a)| && Descends(tree, rank, Children(tree, a)[i], x);
    var c := Children(tree, a)[i];
    if c != x {
      DescendsViaParent(tree, rank, root, c, x);
      assert Descends(tree, rank, Children(tree, a)[i], tree[x].parent.value);
    }
  }

  /** Subtrees of different siblings are disjoint. */
  lemma {:induction false} SiblingsDisjoint(tree: Tree, rank: string -> nat, root: string, h: string, i: nat, j: nat, x: string)
    requires Rooted(tree, rank, root) && h in tree && i < |tree[h].children| && j < |tree[h].children| && i != j
    ensures !(Descends(tree, rank, tree[h].children[i], x) && Descends(tree, rank, tree[h].children[j], x))
    decreases rank(h) - rank(x)
  {
    hide Ranked;
    var c, d := tree[h].children[i], tree[h].children[j];
    assert c != d && tree[c].parent == Some(h) && tree[d].parent == Some(h);
    if Descends(tree, rank, c, x) && Descends(tree, rank, d, x) {
      ChildRank(tree, rank, h, i);
      ChildRank(tree, rank, h, j);
      if x == c {
        DescendsViaParent(tree, rank, root, d, x);
        DescendsBelow(tree, rank, d, h);
        assert false;
      } else if x == d {
        DescendsViaParent(tree, rank, root, c, x);
        DescendsBelow(tree, rank, c, h);
        assert false;
      } else {
        DescendsViaParent(tree, rank, root, c, x);
        DescendsViaParent(tree, rank, root, d, x);
        var p := tree[x].parent.value;
        DescendsBelow(tree, rank, c, p);
        ParentRank(tree, rank, root, x);
        SiblingsDisjoint(tree, rank, root, h, i, j, p);
      }
    }
  }

  lemma ChildRank(tree: Tree, rank: string -> nat, h: string, i: nat)
    requires Ranked(tree, rank) && h in tree && i < |tree[h].children|
    ensures rank(tree[h].children[i]) < rank(h)
  {
  }

  lemma ParentRank(tree: Tree, rank: string -> nat, root: string, x: string)
    requires Rooted(tree, rank, root) && x in tree && tree[x].parent.Some?
    ensures tree[x].parent.value in tree && rank(x) < rank(tree[x].parent.value)
  {
    var p := tree[x].parent.value;
    var i :| 0 <= i < |tree[p].children| && tree[p].children[i] == x;
  }

  ghost function Above(tree: Tree, rank: string -> nat, x: string): set<string> {
    set y | y in tree && rank(y) > rank(x)
  }

  lemma ParentIsHigher(tree: Tree, rank: string -> nat, root: string, x: string)
    requires Rooted(tree, rank, root) && x in tree && tree[x].parent.Some?
    ensures tree[x].parent.value in tree
    ensures |Above(tree, rank, tree[x].parent.value)| < |Above(tree, rank, x)|
  {
    var p := tree[x].parent.value;
    ParentRank(tree, rank, root, x);
    assert p in Above(tree, rank, x) && p !in Above(tree, rank, p);
    ProperSubsetIsSmaller(Above(tree, rank, p), Above(tree, rank, x));
  }

  lemma {:induction false} RootReaches(tree: Tree, rank: string -> nat, root: string, x: string)
    requires Rooted(tree, rank, root) && x in tree
    ensures Descends(tree, rank, root, x)
    decreases |Above(tree, rank, x)|
  {
    if x != root {
      var p := tree[x].parent.value;
      ParentIsHigher(tree, rank, root, x);
      RootReaches(tree, rank, root, p);
      var i :| 0 <= i < |tree[p].children| && tree[p].children[i] == x;
      DescendsExtends(tree, rank, root, p, i);
    }
  }

  lemma ProperSubsetIsSmaller(a: set<string>, b: set<string>)
    requires a < b
    ensures |a| < |b|
  {
    assert b == a + (b - a);
    assert b - a != {};
  }

  // ----- weight as a sum over the subtree -----

  ghost function Subtree(tree: Tree, rank: string -> nat, h: string): set<string>
    requires Ranked(tree, rank)
  {
    set x | x in tree && Descends(tree, rank, h, x)
  }

  ghost function Subtrees(tree: Tree, rank: string -> nat, hs: seq<string>): set<string>
    requires Ranked(tree, rank)
  {
    set x | x in tree && exists i :: 0 <= i < |hs| && Descends(tree, rank, hs[i], x)
  }

  lemma {:induction false} WeightIsSum(tree: Tree, f: string -> int, rank: string -> nat, root: string, h: string)
    requires Rooted(tree, rank, root) && h in tree
    ensures Weight(tree, f, rank, h) == Sum(Subtree(tree, rank, h), f)
    decreases rank(h), 1, 0
  {
    hide Sum;
    var hs := tree[h].children;
    WeightsAreSum(tree, f, rank, root, h, |hs|);
    assert hs[..|hs|] == hs;
    var below := Subtrees(tree, rank, hs);
    SubtreeSplits(tree, rank, h);
    SumAdd(below, f, h);
  }

  lemma SubtreeSplits(tree: Tree, rank: string -> nat, h: string)
    requires Ranked(tree, rank) && h in tree
    ensures var below := Subtrees(tree, rank, tree[h].children);
            h !in below && Subtree(tree, rank, h) == below + {h}
  {
    var hs := tree[h].children;
    if h in Subtrees(tree, rank, hs) {
      var i :| 0 <= i < |hs| && Descends(tree, rank, hs[i], h);
      DescendsBelow(tree, rank, hs[i], h);
      assert false;
    }
    forall x | x in Subtree(tree, rank, h) ensures x in Subtrees(tree, rank, hs) + {h} {
      if x != h {
        var i :| 0 <= i < |Children(tree, h)| && Descends(tree, rank, Children(tree, h)[i], x);
        assert Descends(tree, rank, hs[i], x);
      }
    }
    forall x | x in Subtrees(tree, rank, hs) ensures x in Subtree(tree, rank, h) {
      var i :| 0 <= i < |hs| && Descends(tree, rank, hs[i], x);
      assert Descends(tree, rank, Children(tree, h)[i], x);
    }
  }

  lemma {:induction false} WeightsAreSum(tree: Tree, f: string -> int, rank: string -> nat, root: string, h: string, k: nat)
    requires Rooted(tree, rank, root) && h in tree && k <= |tree[h].children|
    ensures Weights(tree, f, rank, tree[h].children[..k], rank(h)) == Sum(Subtrees(tree, rank, tree[h].children[..k]), f)
    decreases rank(h), 0, k
  {
    var hs := tree[h].children;
    if k == 0 {
      assert Subtrees(tree, rank, hs[..0]) == {};
    } else {
      WeightsAreSum(tree, f, rank, root, h, k - 1);
      assert hs[..k][..k - 1] == hs[..k - 1];
      WeightIsSum(tree, f, rank, root, hs[k - 1]);
      SubtreesGrow(tree, rank, root, h, k);
      SumUnion(Subtrees(tree, rank, hs[..k - 1]), Subtree(tree, rank, hs[k - 1]), f);
    }
  }

  lemma SubtreesGrow(tree: Tree, rank: string -> nat, root: string, h: string, k: nat)
    requires Rooted(tree, rank, root) && h in tree && 1 <= k <= |tree[h].children|
    ensures var hs := tree[h].children;
            && Subtrees(tree, rank, hs[..k]) == Subtrees(tree, rank, hs[..k - 1]) + Subtree(tree, rank, hs[k - 1])
            && Subtrees(tree, rank, hs[..k - 1]) !! Subtree(tree, rank, hs[k - 1])
  {
    hide Descends, ParentsList, ChildrenName, DistinctChildren;
    var hs := tree[h].children;
    var a, b, c := Subtrees(tree, rank, hs[..k]), Subtrees(tree, rank, hs[..k - 1]), Subtree(tree, rank, hs[k - 1]);
    forall x | x in a ensures x in b + c {
      var i :| 0 <= i < k && Descends(tree, rank, hs[..k][i], x);
      if i < k - 1 { assert Descends(tree, rank, hs[..k - 1][i], x); }
    }
    forall x | x in b + c ensures x in a {
      if x in b {
        var i :| 0 <= i < k - 1 && Descends(tree, rank, hs[..k - 1][i], x);
        assert Descends(tree, rank, hs[..k][i], x);
      } else {
        assert Descends(tree, rank, hs[..k][k - 1], x);
      }
    }
    forall x | x in b ensures x !in c {
      var i :| 0 <= i < k - 1 && Descends(tree, rank, hs[..k - 1][i], x);
      SiblingsDisjoint(tree, rank, root, h, i, k - 1, x);
    }
  }

  // ----- the consensus theorem in terms of stake -----

  /**
   The subtree weight under the table's weights is the stake of the validators whose latest
   vote lies in the subtree; at the root, of all validators whose latest vote is in the tree.
   */
  lemma WeightIsStake(tree: Tree, rank: string -> nat, root: string, h: string,
                      latest: map<string, Vote>, stakes: map<string, int>, weights: map<string, int>)
    requires Rooted(tree, rank, root) && h in tree
    requires forall x :: Get(weights)(x) == BlockWeight(latest, stakes)(x)
    ensures Weight(tree, Get(weights), rank, h) == StakeBehind(latest, stakes, Subtree(tree, rank, h))
    ensures Subtree(tree, rank, root) == tree.Keys
  {
    var f, g := Get(weights), BlockWeight(latest, stakes);
    WeightIsSum(tree, f, rank, root, h);
    SumCongruent(Subtree(tree, rank, h), f, g);
    VotesAddUp(latest, stakes, Subtree(tree, rank, h));
    forall x | x in tree ensures x in Subtree(tree, rank, root) {
      RootReaches(tree, rank, root, x);
    }
  }

  /**
   If the latest votes inside the subtree of `b` carry more than half of all stake voting in
   the tree, the head chosen from the root is `b` or a descendant of `b`, and a leaf.
   */
  lemma StakeMajorityWins(tree: Tree, rank: string -> nat, root: string, b: string,
                          latest: map<string, Vote>, stakes: map<string, int>, weights: map<string, int>)
    requires Rooted(tree, rank, root) && b in tree
    requires forall v :: v in stakes ==> stakes[v] >= 0
    requires forall x :: Get(weights)(x) == BlockWeight(latest, stakes)(x)
    requires 2 * StakeBehind(latest, stakes, Subtree(tree, rank, b)) > StakeBehind(latest, stakes, tree.Keys)
    ensures var head := Head(tree, Get(weights), rank, root);
            Descends(tree, rank, b, head) && Children(tree, head) == []
  {
    hide Weight, StakeBehind, Head;
    WeightIsStake(tree, rank, root, b, latest, stakes, weights);
    WeightIsStake(tree, rank, root, root, latest, stakes, weights);
    BlockWeightsAreNonNegative(latest, stakes);
    assert NonNegative(Get(weights)) by {
      forall x ensures Get(weights)(x) >= 0 { assert Get(weights)(x) == BlockWeight(latest, stakes)(x); }
    }
    RootReaches(tree, rank, root, b);
    MajorityWins(tree, Get(weights), rank, root, b);
    HeadIsLeaf(tree, Get(weights), rank, root);
  }

  lemma BlockWeightsAreNonNegative(latest: map<string, Vote>, stakes: map<string, int>)
    requires forall v :: v in stakes ==> stakes[v] >= 0
    ensures forall x :: BlockWeight(latest, stakes)(x) >= 0
  {
    forall x ensures BlockWeight(latest, stakes)(x) >= 0 {
      SumNonNegative(VotersFor(latest, {x}), StakeOf(stakes));
    }
  }

  // ----- the canonical chain -----

  /** A path of parent links from the root down to `h`. */
  ghost predicate PathFromRoot(tree: Tree, root: string, path: seq<string>, h: string) {
    && path != [] && path[0] == root && path[|path| - 1] == h
    && (forall i :: 0 <= i < |path| ==> path[i] in tree)
    && (forall i :: 1 <= i < |path| ==> tree[path[i]].parent == Some(path[i - 1]))
  }

  /** The parent walk of `get_chain_from_head`: the path from the root to the head. */
  method ChainFromHead(tree: Tree, head: string, ghost rank: string -> nat, ghost root: string) returns (chain: seq<string>)
    requires Rooted(tree, rank, root) && head in tree
    ensures PathFromRoot(tree, root, chain, head)
  {
    hide Above, Ranked, ChildrenName, DistinctChildren;
    chain := [head];
    var current := head;
    while tree[current].parent.Some?
      invariant chain != [] && current == chain[0] && current in tree
      invariant chain[|chain| - 1] == head
      invariant forall i :: 0 <= i < |chain| ==> chain[i] in tree
      invariant forall i :: 1 <= i < |chain| ==> tree[chain[i]].parent == Some(chain[i - 1])
      decreases |Above(tree, rank, current)|
    {
      ParentIsHigher(tree, rank, root, current);
      current := tree[current].parent.value;
      chain := [current] + chain;
    }
  }
}
