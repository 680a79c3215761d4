/** The greedy walk of `select_head`, its independence of list orders, and the majority theorem. */
module GhostHead {
  import opened Wrappers
  import opened Names
  import opened Ghost

  // ----- the preferred child -----

  /** `a` is preferred to `b`: heavier subtree, then higher number, then smaller hash. */
  ghost predicate Better(tree: Tree, f: string -> int, rank: string -> nat, a: string, b: string)
    requires Ranked(tree, rank)
  {
    var wa, wb := Weight(tree, f, rank, a), Weight(tree, f, rank, b);
    wa > wb || (wa == wb && (Number(tree, a) > Number(tree, b) ||
                             (Number(tree, a) == Number(tree, b) && Lt(a, b))))
  }

  lemma BetterTransitive(tree: Tree, f: string -> int, rank: string -> nat, a: string, b: string, c: string)
    requires Ranked(tree, rank) && Better(tree, f, rank, a, b) && Better(tree, f, rank, b, c)
    ensures Better(tree, f, rank, a, c)
  {
    hide Weight;
    if Lt(a, b) && Lt(b, c) { LtTransitive(a, b, c); }
  }

  lemma BetterTotal(tree: Tree, f: string -> int, rank: string -> nat, a: string, b: string)
    requires Ranked(tree, rank)
    ensures a == b || Better(tree, f, rank, a, b) || Better(tree, f, rank, b, a)
    ensures !(Better(tree, f, rank, a, b) && Better(tree, f, rank, b, a))
  {
    hide Weight;
    LtTotal(a, b);
    if Lt(a, b) { LtAsymmetric(a, b); }
  }

  /** The child the walk moves to: of non-negative weight and preferred to every other child. */
  ghost predicate IsBest(tree: Tree, f: string -> int, rank: string -> nat, hs: seq<string>, c: string)
    requires Ranked(tree, rank)
  {
    && c in hs
    && Weight(tree, f, rank, c) >= 0
    && forall d :: d in hs && d != c ==> Better(tree, f, rank, c, d)
  }

  lemma BestIsUnique(tree: Tree, f: string -> int, rank: string -> nat, hs: seq<string>, a: string, b: string)
    requires Ranked(tree, rank) && IsBest(tree, f, rank, hs, a) && IsBest(tree, f, rank, hs, b)
    ensures a == b
  {
    hide Better, Weight;
    BetterTotal(tree, f, rank, a, b);
  }

  /** The head of the subtree of `h`: follow preferred children as long as there is one. */
  ghost function Head(tree: Tree, f: string -> int, rank: string -> nat, h: string): string
    requires Ranked(tree, rank)
    decreases rank(h)
  {
    if exists c :: IsBest(tree, f, rank, Children(tree, h), c) then
      var c :| IsBest(tree, f, rank, Children(tree, h), c);
      Head(tree, f, rank, c)
    else h
  }

  lemma HeadVia(tree: Tree, f: string -> int, rank: string -> nat, h: string, c: string)
    requires Ranked(tree, rank) && IsBest(tree, f, rank, Children(tree, h), c)
    ensures Head(tree, f, rank, h) == Head(tree, f, rank, c)
  {
    hide IsBest;
    var d :| IsBest(tree, f, rank, Children(tree, h), d) && Head(tree, f, rank, h) == Head(tree, f, rank, d);
    BestIsUnique(tree, f, rank, Children(tree, h), c, d);
  }

  /** The inner loop of `select_head`. */
  method BestChild(tree: Tree, weights: map<string, int>, children: seq<string>, ghost rank: string -> nat)
    returns (best: Option<string>)
    requires Ranked(tree, rank)
    ensures best.Some? ==> IsBest(tree, Get(weights), rank, children, best.value)
    ensures best.Some? ==> Wins(tree, Get(weights), rank, children, best.value)
    ensures best.None? ==> forall c :: c in children ==> Weight(tree, Get(weights), rank, c) < 0
  {
    hide Weight;
    ghost var f := Get(weights);
    best := None;
    var bestWeight := -1;
    for k := 0 to |children|
      invariant best.None? ==> bestWeight == -1
      invariant best.None? ==> forall c :: c in children[..k] ==> Weight(tree, f, rank, c) < 0
      invariant best.Some? ==> IsBest(tree, f, rank, children[..k], best.value)
      invariant best.Some? ==> bestWeight == Weight(tree, f, rank, best.value)
    {
      var child := children[k];
      assert forall c :: c in children[..k + 1] <==> c in children[..k] || c == child;
      var cum := GetCumulativeWeight(tree, weights, child, rank);
      if cum > bestWeight {
        if best.Some? { NewBest(tree, f, rank, children[..k], best.value, child); }
        bestWeight := cum;
        best := Some(child);
      } else if cum == bestWeight && best.Some? {
        BetterTotal(tree, f, rank, best.value, child);
        if Number(tree, child) > Number(tree, best.value)
           || (Number(tree, child) == Number(tree, best.value) && Lt(child, best.value)) {
          NewBest(tree, f, rank, children[..k], best.value, child);
          best := Some(child);
        }
      }
    }
    assert children[..|children|] == children;
    if best.Some? { BestWins(tree, f, rank, children, best.value); }
  }

  /** Among the children: never lighter, on equal weight never lower, on equal number first in string order. */
  ghost predicate Wins(tree: Tree, f: string -> int, rank: string -> nat, hs: seq<string>, c: string)
    requires Ranked(tree, rank)
  {
    c in hs && Weight(tree, f, rank, c) >= 0 && forall d :: d in hs && d != c ==>
      var wc, wd := Weight(tree, f, rank, c), Weight(tree, f, rank, d);
      var nc, nd := if c in tree then tree[c].number else 0, if d in tree then tree[d].number else 0;
      wc > wd || (wc == wd && (nc > nd || (nc == nd && Precedes(c, d))))
  }

  lemma BestWins(tree: Tree, f: string -> int, rank: string -> nat, hs: seq<string>, c: string)
    requires Ranked(tree, rank)
    ensures IsBest(tree, f, rank, hs, c) <==> Wins(tree, f, rank, hs, c)
  {
    hide Weight, Lt, Precedes;
    forall d | d in hs ensures Lt(c, d) <==> Precedes(c, d) { LtIsPrecedes(c, d); }
  }

  lemma NewBest(tree: Tree, f: string -> int, rank: string -> nat, hs: seq<string>, b: string, c: string)
    requires Ranked(tree, rank) && IsBest(tree, f, rank, hs, b) && Better(tree, f, rank, c, b)
    ensures forall d :: d in hs ==> Better(tree, f, rank, c, d)
  {
    hide Weight;
    forall d | d in hs && d != b ensures Better(tree, f, rank, c, d) {
      BetterTransitive(tree, f, rank, c, b, d);
    }
  }

  function FirstRoot(tree: Tree, order: seq<string>): Option<string> {
    if order == [] then None
    else if order[0] in tree && tree[order[0]].parent.None? then Some(order[0])
    else FirstRoot(tree, order[1..])
  }

  /** The first parentless block in dictionary order, if there is one. */
  lemma {:induction false} FirstRootMeaning(tree: Tree, order: seq<string>)
    ensures match FirstRoot(tree, order)
            case None => forall i :: 0 <= i < |order| && order[i] in tree ==> tree[order[i]].parent.Some?
            case Some(r) => exists i :: 0 <= i < |order| && order[i] == r && r in tree && tree[r].parent.None?
                              && forall j :: 0 <= j < i && order[j] in tree ==> tree[order[j]].parent.Some?
  {
    if order != [] && !(order[0] in tree && tree[order[0]].parent.None?) {
      FirstRootMeaning(tree, order[1..]);
      if FirstRoot(tree, order).Some? {
        var r := FirstRoot(tree, order).value;
        var i :| 0 <= i < |order[1..]| && order[1..][i] == r && r in tree && tree[r].parent.None?
          && forall j :: 0 <= j < i && order[1..][j] in tree ==> tree[order[1..][j]].parent.Some?;
        assert order[i + 1] == r;
        forall j | 0 <= j < i + 1 && order[j] in tree ensures tree[order[j]].parent.Some? {
          if j > 0 { assert order[1..][j - 1] == order[j]; }
        }
      }
    }
  }

  /** With a single root, dictionary order does not matter. */
  lemma {:induction false} SingleRootIsFirst(tree: Tree, order: seq<string>, root: string)
    requires root in order && root in tree && tree[root].parent.None?
    requires forall h :: h in tree && tree[h].parent.None? ==> h == root
    ensures FirstRoot(tree, order) == Some(root)
  {
    if order[0] != root {
      assert root in order[1..];
      SingleRootIsFirst(tree, order[1..], root);
    }
  }

  /**
   `select_head`; `order` is the iteration order of the tree dictionary. On an acyclic tree
   the guard against revisiting a block never fires.
   */
  method SelectHead(tree: Tree, order: seq<string>, weights: map<string, int>, ghost rank: string -> nat)
    returns (head: Option<string>)
    requires Ranked(tree, rank)
    requires forall h :: h in order <==> h in tree
    ensures match FirstRoot(tree, order)
            case None => head.None?
            case Some(root) => head == Some(Head(tree, Get(weights), rank, root))
  {
    var genesis: Option<string> := None;
    for i := 0 to |order|
      invariant genesis.None? && FirstRoot(tree, order) == FirstRoot(tree, order[i..])
    {
      if tree[order[i]].parent.None? {
        genesis := Some(order[i]);
        break;
      }
      assert order[i..][1..] == order[i + 1..];
    }
    if genesis.None? { return None; }
    var current := genesis.value;
    var visited: set<string> := {};
    while current !in visited
      invariant Head(tree, Get(weights), rank, current) == Head(tree, Get(weights), rank, genesis.value)
      invariant forall v :: v in visited ==> rank(v) > rank(current)
      decreases rank(current)
    {
      visited := visited + {current};
      var children := Children(tree, current);
      if children == [] { return Some(current); }
      var best := BestChild(tree, weights, children, rank);
      if best.None? { return Some(current); }
      HeadVia(tree, Get(weights), rank, current, best.value);
      current := best.value;
    }
    return Some(current);
  }

  // ----- weights of subtrees -----

  ghost predicate NonNegative(f: string -> int) {
    forall h :: f(h) >= 0
  }

  /** `b` is `a` or below it. */
  ghost predicate Descends(tree: Tree, rank: string -> nat, a: string, b: string)
    requires Ranked(tree, rank)
    decreases rank(a)
  {
    a == b || exists i :: 0 <= i < |Children(tree, a)| && Descends(tree, rank, Children(tree, a)[i], b)
  }

  lemma {:induction false} WeightIsNonNegative(tree: Tree, f: string -> int, rank: string -> nat, h: string)
    requires Ranked(tree, rank) && NonNegative(f)
    ensures Weight(tree, f, rank, h) >= f(h) >= 0
    decreases rank(h), 1, 0
  {
    WeightsAreNonNegative(tree, f, rank, Children(tree, h), rank(h));
  }

  lemma {:induction false} WeightsAreNonNegative(tree: Tree, f: string -> int, rank: string -> nat, hs: seq<string>, bound: nat)
    requires Ranked(tree, rank) && NonNegative(f) && forall i :: 0 <= i < |hs| ==> rank(hs[i]) < bound
    ensures Weights(tree, f, rank, hs, bound) >= 0
    decreases bound, 0, |hs|
  {
    if hs != [] {
      WeightsAreNonNegative(tree, f, rank, hs[..|hs| - 1], bound);
      WeightIsNonNegative(tree, f, rank, hs[|hs| - 1]);
    }
  }

  /** One summand, and any two different summands, are bounded by the sum. */
  lemma {:induction false} SummandsFit(tree: Tree, f: string -> int, rank: string -> nat, hs: seq<string>, bound: nat, i: nat, j: nat)
    requires Ranked(tree, rank) && NonNegative(f) && forall k :: 0 <= k < |hs| ==> rank(hs[k]) < bound
    requires i < |hs| && j < |hs|
    ensures Weight(tree, f, rank, hs[i]) <= Weights(tree, f, rank, hs, bound)
    ensures i != j ==> Weight(tree, f, rank, hs[i]) + Weight(tree, f, rank, hs[j]) <= Weights(tree, f, rank, hs, bound)
    decreases |hs|
  {
    hide Weight;
    var last := |hs| - 1;
    WeightsAreNonNegative(tree, f, rank, hs[..last], bound);
    WeightIsNonNegative(tree, f, rank, hs[last]);
    if i < last && j < last {
      SummandsFit(tree, f, rank, hs[..last], bound, i, j);
    } else if i < last {
      SummandsFit(tree, f, rank, hs[..last], bound, i, i);
    } else if j < last {
      SummandsFit(tree, f, rank, hs[..last], bound, j, j);
    }
  }

  lemma ChildrenFit(tree: Tree, f: string -> int, rank: string -> nat, h: string, i: nat, j: nat)
    requires Ranked(tree, rank) && NonNegative(f) && i < |Children(tree, h)| && j < |Children(tree, h)|
    ensures var hs := Children(tree, h);
            && Weight(tree, f, rank, hs[i]) <= Weight(tree, f, rank, h)
            && (i != j ==> Weight(tree, f, rank, hs[i]) + Weight(tree, f, rank, hs[j]) <= Weight(tree, f, rank, h))
  {
    SummandsFit(tree, f, rank, Children(tree, h), rank(h), i, j);
    WeightIsNonNegative(tree, f, rank, h);
  }

  lemma {:induction false} DescendantIsLighter(tree: Tree, f: string -> int, rank: string -> nat, a: string, b: string)
    requires Ranked(tree, rank) && NonNegative(f) && Descends(tree, rank, a, b)
    ensures Weight(tree, f, rank, b) <= Weight(tree, f, rank, a)
    decreases rank(a)
  {
    if a != b {
      var i :| 0 <= i < |Children(tree, a)| && Descends(tree, rank, Children(tree, a)[i], b);
      DescendantIsLighter(tree, f, rank, Children(tree, a)[i], b);
      ChildrenFit(tree, f, rank, a, i, i);
    }
  }

  /** The head of a subtree is in that subtree and has no child of non-negative weight. */
  lemma {:induction false} HeadDescends(tree: Tree, f: string -> int, rank: string -> nat, h: string)
    requires Ranked(tree, rank)
    ensures Descends(tree, rank, h, Head(tree, f, rank, h))
    ensures !exists c :: IsBest(tree, f, rank, Children(tree, Head(tree, f, rank, h)), c)
    decreases rank(h)
  {
    hide Weight, Better;
    if exists c :: IsBest(tree, f, rank, Children(tree, h), c) {
      var c :| IsBest(tree, f, rank, Children(tree, h), c);
      HeadVia(tree, f, rank, h, c);
      HeadDescends(tree, f, rank, c);
      var i :| 0 <= i < |Children(tree, h)| && Children(tree, h)[i] == c;
      assert Descends(tree, rank, Children(tree, h)[i], Head(tree, f, rank, h));
    }
  }

  // ----- there is always a preferred child -----

  lemma {:induction false} SomeBestExists(tree: Tree, f: string -> int, rank: string -> nat, hs: seq<string>)
    requires Ranked(tree, rank) && hs != [] && forall i :: 0 <= i < |hs| ==> Weight(tree, f, rank, hs[i]) >= 0
    ensures exists c :: IsBest(tree, f, rank, hs, c)
  {
    hide Weight;
    var last := |hs| - 1;
    var rest, x := hs[..last], hs[last];
    assert forall d :: d in hs <==> d in rest || d == x;
    if rest == [] {
      assert IsBest(tree, f, rank, hs, x);
    } else {
      SomeBestExists(tree, f, rank, rest);
      var b :| IsBest(tree, f, rank, rest, b);
      BetterTotal(tree, f, rank, b, x);
      if Better(tree, f, rank, x, b) {
        NewBest(tree, f, rank, rest, b, x);
        assert IsBest(tree, f, rank, hs, x);
      } else {
        assert IsBest(tree, f, rank, hs, b);
      }
    }
  }

  /** With non-negative weights the head is a leaf. */
  lemma HeadIsLeaf(tree: Tree, f: string -> int, rank: string -> nat, h: string)
    requires Ranked(tree, rank) && NonNegative(f)
    ensures Children(tree, Head(tree, f, rank, h)) == []
  {
    hide Weight, IsBest;
    var head := Head(tree, f, rank, h);
    HeadDescends(tree, f, rank, h);
    if Children(tree, head) != [] {
      forall i | 0 <= i < |Children(tree, head)| ensures Weight(tree, f, rank, Children(tree, head)[i]) >= 0 {
        WeightIsNonNegative(tree, f, rank, Children(tree, head)[i]);
      }
      SomeBestExists(tree, f, rank, Children(tree, head));
    }
  }

  // ----- majority -----

  lemma HeavyChildIsBest(tree: Tree, f: string -> int, rank: string -> nat, h: string, i: nat)
    requires Ranked(tree, rank) && NonNegative(f) && i < |Children(tree, h)|
    requires 2 * Weight(tree, f, rank, Children(tree, h)[i]) > Weight(tree, f, rank, h)
    ensures IsBest(tree, f, rank, Children(tree, h), Children(tree, h)[i])
  {
    hide Weight;
    var hs := Children(tree, h);
    var c := hs[i];
    WeightIsNonNegative(tree, f, rank, h);
    forall d | d in hs && d != c ensures Better(tree, f, rank, c, d) {
      var j :| 0 <= j < |hs| && hs[j] == d;
      ChildrenFit(tree, f, rank, h, i, j);
    }
  }

  /**
   GHOST majority: a block whose subtree carries more than half of the weight of a subtree
   containing it is an ancestor of that subtree's head.
   */
  lemma {:induction false} MajorityWins(tree: Tree, f: string -> int, rank: string -> nat, h: string, b: string)
    requires Ranked(tree, rank) && NonNegative(f) && Descends(tree, rank, h, b)
    requires 2 * Weight(tree, f, rank, b) > Weight(tree, f, rank, h)
    ensures Descends(tree, rank, b, Head(tree, f, rank, h))
    decreases rank(h)
  {
    hide Weight, IsBest, Head;
    if h == b {
      HeadDescends(tree, f, rank, h);
    } else {
      var i :| 0 <= i < |Children(tree, h)| && Descends(tree, rank, Children(tree, h)[i], b);
      var c := Children(tree, h)[i];
      DescendantIsLighter(tree, f, rank, c, b);
      HeavyChildIsBest(tree, f, rank, h, i);
      HeadVia(tree, f, rank, h, c);
      ChildrenFit(tree, f, rank, h, i, i);
      MajorityWins(tree, f, rank, c, b);
    }
  }

  // ----- independence of list and dictionary order -----

  /** The same blocks with the same parents and numbers; child lists in any order. */
  ghost predicate SameUpToOrder(a: Tree, b: Tree) {
    && a.Keys == b.Keys
    && forall h :: h in a ==> a[h].parent == b[h].parent && a[h].number == b[h].number
                              && multiset(a[h].children) == multiset(b[h].children)
  }

  lemma SameRank(a: Tree, b: Tree, rank: string -> nat)
    requires SameUpToOrder(a, b) && Ranked(a, rank)
    ensures Ranked(b, rank)
  {
    forall h, i | h in b && 0 <= i < |b[h].children| ensures rank(b[h].children[i]) < rank(h) {
      var c := b[h].children[i];
      assert c in multiset(b[h].children) && c in multiset(a[h].children);
      var j :| 0 <= j < |a[h].children| && a[h].children[j] == c;
    }
  }

  lemma {:induction false} SameWeight(a: Tree, b: Tree, f: string -> int, rank: string -> nat, h: string)
    requires SameUpToOrder(a, b) && Ranked(a, rank) && Ranked(b, rank)
    ensures Weight(a, f, rank, h) == Weight(b, f, rank, h)
    decreases rank(h), 1, 0
  {
    var xs, ys := Children(a, h), Children(b, h);
    SameWeights(a, b, f, rank, xs, ys, rank(h));
  }

  lemma {:induction false} SameWeights(a: Tree, b: Tree, f: string -> int, rank: string -> nat,
                                       xs: seq<string>, ys: seq<string>, bound: nat)
    requires SameUpToOrder(a, b) && Ranked(a, rank) && Ranked(b, rank) && multiset(xs) == multiset(ys)
    requires (forall i :: 0 <= i < |xs| ==> rank(xs[i]) < bound) && (forall i :: 0 <= i < |ys| ==> rank(ys[i]) < bound)
    ensures Weights(a, f, rank, xs, bound) == Weights(b, f, rank, ys, bound)
    decreases bound, 0, |xs|
  {
    hide Weight;
    if xs == [] {
      assert |ys| == |multiset(ys)| == |multiset(xs)| == 0;
    } else {
      var last := |xs| - 1;
      var x := xs[last];
      var j := TakeOut(xs, ys);
      var zs := ys[..j] + ys[j + 1..];
      SameWeights(a, b, f, rank, xs[..last], zs, bound);
      WeightsWithout(b, f, rank, ys, j, bound);
      SameWeight(a, b, f, rank, x);
    }
  }

  lemma TakeOut(xs: seq<string>, ys: seq<string>) returns (j: nat)
    requires xs != [] && multiset(xs) == multiset(ys)
    ensures j < |ys| && ys[j] == xs[|xs| - 1]
    ensures multiset(ys[..j] + ys[j + 1..]) == multiset(xs[..|xs| - 1])
  {
    var last := |xs| - 1;
    var x := xs[last];
    assert x in multiset(ys);
    j :| 0 <= j < |ys| && ys[j] == x;
    WithoutOne(xs, last);
    WithoutOne(ys, j);
    assert xs[..last] + xs[last + 1..] == xs[..last];
  }

  /** Leaving out position `j` takes one occurrence of its entry out of the multiset. */
  lemma WithoutOne(s: seq<string>, j: nat)
    requires j < |s|
    ensures multiset(s[..j] + s[j + 1..]) == multiset(s) - multiset{s[j]}
  {
    assert s == s[..j] + [s[j]] + s[j + 1..];
  }

  lemma {:induction false} WeightsWithout(tree: Tree, f: string -> int, rank: string -> nat, ys: seq<string>, j: nat, bound: nat)
    requires Ranked(tree, rank) && j < |ys| && forall i :: 0 <= i < |ys| ==> rank(ys[i]) < bound
    ensures Weights(tree, f, rank, ys, bound)
            == Weights(tree, f, rank, ys[..j] + ys[j + 1..], bound) + Weight(tree, f, rank, ys[j])
  {
    hide Weight;
    var last := |ys| - 1;
    if j == last {
      assert ys[..j] + ys[j + 1..] == ys[..last];
    } else {
      WeightsWithout(tree, f, rank, ys[..last], j, bound);
      var zs := ys[..j] + ys[j + 1..];
      assert zs[..|zs| - 1] == ys[..last][..j] + ys[..last][j + 1..];
    }
  }

  /** Two nodes that hold the same blocks and votes agree on the head. */
  lemma {:induction false} HeadsAgree(a: Tree, b: Tree, f: string -> int, rank: string -> nat, h: string)
    requires SameUpToOrder(a, b) && Ranked(a, rank)
    ensures Ranked(b, rank) && Head(a, f, rank, h) == Head(b, f, rank, h)
    decreases rank(h)
  {
    hide Weight;
    SameRank(a, b, rank);
    var xs, ys := Children(a, h), Children(b, h);
    assert forall d :: d in xs <==> d in ys by {
      assert multiset(xs) == multiset(ys);
      assert forall d :: (d in xs <==> d in multiset(xs)) && (d in ys <==> d in multiset(ys));
    }
    forall c ensures IsBest(a, f, rank, xs, c) <==> IsBest(b, f, rank, ys, c) {
      BestAgrees(a, b, f, rank, xs, ys, c);
    }
    if exists c :: IsBest(a, f, rank, xs, c) {
      var c :| IsBest(a, f, rank, xs, c);
      HeadVia(a, f, rank, h, c);
      HeadVia(b, f, rank, h, c);
      var i :| 0 <= i < |xs| && xs[i] == c;
      HeadsAgree(a, b, f, rank, c);
    }
  }

  lemma BestAgrees(a: Tree, b: Tree, f: string -> int, rank: string -> nat, xs: seq<string>, ys: seq<string>, c: string)
    requires SameUpToOrder(a, b) && Ranked(a, rank) && Ranked(b, rank) && forall d :: d in xs <==> d in ys
    ensures IsBest(a, f, rank, xs, c) <==> IsBest(b, f, rank, ys, c)
  {
    hide Weight;
    SameWeight(a, b, f, rank, c);
    forall d | d in xs ensures Better(a, f, rank, c, d) <==> Better(b, f, rank, c, d) {
      SameWeight(a, b, f, rank, d);
      SameNumber(a, b, c);
      SameNumber(a, b, d);
    }
  }

  lemma SameNumber(a: Tree, b: Tree, h: string)
    requires SameUpToOrder(a, b)
    ensures Number(a, h) == Number(b, h)
  {
  }
}
