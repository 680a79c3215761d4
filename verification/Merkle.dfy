/**
 The Merkle tree of crypto/native.py: root, inclusion proof and proof folding over an
 arbitrary hash function, with completeness and soundness of proofs.
 */
module Merkle {
  import opened Wrappers

  type Hash = string -> string

  // ----- layers -----

  /** An odd layer repeats its last entry. */
  function Pad(layer: seq<string>): (r: seq<string>)
    requires layer != []
    ensures |r| % 2 == 0 && layer <= r && |layer| <= |r| <= |layer| + 1
  {
    if |layer| % 2 == 1 then layer + [layer[|layer| - 1]] else layer
  }

  function Parents(h: Hash, layer: seq<string>): (r: seq<string>)
    requires layer != []
    ensures |r| == (|layer| + 1) / 2
  {
    var p := Pad(layer);
    seq(|p| / 2, i requires 0 <= i < |p| / 2 => h(p[2 * i] + p[2 * i + 1]))
  }

  function RootOf(h: Hash, layer: seq<string>): string
    requires layer != []
    decreases |layer|
  {
    if |layer| == 1 then layer[0] else RootOf(h, Parents(h, layer))
  }

  function Leaves(h: Hash, items: seq<string>): (r: seq<string>)
    ensures |r| == |items|
  {
    seq(|items|, i requires 0 <= i < |items| => h(items[i]))
  }

  function Root(h: Hash, items: seq<string>): string {
    if items == [] then h("empty") else RootOf(h, Leaves(h, items))
  }

  function Sibling(index: int): int {
    if index % 2 == 0 then index + 1 else index - 1
  }

  /** Positions in the padded layer: the pair of `index` is (2j, 2j + 1) with j = index / 2. */
  lemma PairOf(h: Hash, layer: seq<string>, index: nat)
    requires index < |layer| && |layer| > 1
    ensures 0 <= Sibling(index) < |Pad(layer)| && Pad(layer)[index] == layer[index]
    ensures index / 2 < |Parents(h, layer)|
    ensures Parents(h, layer)[index / 2] == h(Combine(layer[index], Pad(layer)[Sibling(index)], index))
    ensures index % 2 == 0 ==> Parents(h, layer)[index / 2] == h(Pad(layer)[index] + Pad(layer)[index + 1])
    ensures index % 2 == 1 ==> Parents(h, layer)[index / 2] == h(Pad(layer)[index - 1] + Pad(layer)[index])
  {
    assert index == 2 * (index / 2) + index % 2;
  }

  function ProofOf(h: Hash, layer: seq<string>, index: nat): (proof: seq<string>)
    requires index < |layer|
    decreases |layer|
  {
    if |layer| == 1 then [] else PairOf(h, layer, index); [Pad(layer)[Sibling(index)]] + ProofOf(h, Parents(h, layer), index / 2)
  }

  function Depth(n: nat): nat {
    if n <= 1 then 0 else 1 + Depth((n + 1) / 2)
  }

  function Combine(current: string, sibling: string, index: int): string {
    if index % 2 == 0 then current + sibling else sibling + current
  }

  function Fold(h: Hash, current: string, proof: seq<string>, index: int): string
    decreases |proof|
  {
    if proof == [] then current else Fold(h, h(Combine(current, proof[0], index)), proof[1..], index / 2)
  }

  // ----- the loops -----

  method NextLayer(h: Hash, layer: seq<string>) returns (next: seq<string>)
    requires layer != []
    ensures next == Parents(h, layer)
  {
    var padded := layer;
    if |padded| % 2 == 1 { padded := padded + [padded[|padded| - 1]]; }
    next := [];
    var i := 0;
    while i < |padded|
      invariant 0 <= i <= |padded| && i % 2 == 0 && |next| == i / 2
      invariant forall k :: 0 <= k < |next| ==> next[k] == h(padded[2 * k] + padded[2 * k + 1])
    {
      next := next + [h(padded[i] + padded[i + 1])];
      i := i + 2;
    }
  }

  method MerkleRoot(h: Hash, items: seq<string>) returns (root: string)
    ensures root == Root(h, items)
  {
    if items == [] { return h("empty"); }
    var layer := Leaves(h, items);
    while |layer| > 1
      invariant layer != [] && RootOf(h, layer) == Root(h, items)
      decreases |layer|
    {
      layer := NextLayer(h, layer);
    }
    return layer[0];
  }

  /** Python's `layer[i]`: a negative index counts from the end, anything further out raises. */
  function At(layer: seq<string>, i: int): Option<string> {
    if 0 <= i < |layer| then Some(layer[i])
    else if -|layer| <= i < 0 then Some(layer[|layer| + i])
    else None
  }

  /** The proof that the loop generates for any integer index; `None` if a lookup raises. */
  function ProofAt(h: Hash, layer: seq<string>, index: int): (proof: Option<seq<string>>)
    requires layer != []
    decreases |layer|
  {
    if |layer| == 1 then Some([])
    else
      var padded, rest := Pad(layer), ProofAt(h, Parents(h, layer), index / 2);
      if Sibling(index) >= |padded| then rest
      else
        var x := At(padded, Sibling(index));
        if x.None? then None else After([x.value], rest)
  }

  /** What was found so far, followed by the rest if there is one. */
  function After(found: seq<string>, rest: Option<seq<string>>): Option<seq<string>> {
    if rest.None? then None else Some(found + rest.value)
  }

  lemma AfterFacts(found: seq<string>, rest: Option<seq<string>>, x: string)
    ensures After([], rest) == rest && After(found, Some([])) == Some(found)
    ensures After(found, After([x], rest)) == After(found + [x], rest)
  {
    if rest.Some? {
      assert [] + rest.value == rest.value;
      assert found + ([x] + rest.value) == found + [x] + rest.value;
    }
    assert found + [] == found;
  }

  lemma {:induction false} ProofAtInRange(h: Hash, layer: seq<string>, index: nat)
    requires index < |layer|
    ensures ProofAt(h, layer, index) == Some(ProofOf(h, layer, index))
    decreases |layer|
  {
    if |layer| > 1 {
      hide Parents, Pad;
      PairOf(h, layer, index);
      ProofAtInRange(h, Parents(h, layer), index / 2);
    }
  }

  /** Past the end there is no proof; in range the sibling is always inside the padded layer. */
  method GenerateProof(h: Hash, items: seq<string>, target: int) returns (proof: Option<seq<string>>)
    ensures target >= |items| ==> proof == Some([])
    ensures 0 <= target < |items| ==> proof == Some(ProofOf(h, Leaves(h, items), target))
    ensures target < 0 && items != [] ==> proof == ProofAt(h, Leaves(h, items), target)
    ensures items == [] ==> proof == Some([])
  {
    hide Parents, After, At, Sibling;
    if items == [] || target >= |items| { return Some([]); }
    var layer := Leaves(h, items);
    if target >= 0 { ProofAtInRange(h, layer, target); }
    var index := target;
    var found: seq<string> := [];
    ghost var whole := ProofAt(h, layer, target);
    AfterFacts([], whole, "");
    while |layer| > 1
      invariant layer != [] && whole == After(found, ProofAt(h, layer, index))
      decreases |layer|
    {
      var padded := if |layer| % 2 == 1 then layer + [layer[|layer| - 1]] else layer;
      var sibling := Sibling(index);
      ghost var rest := ProofAt(h, Parents(h, layer), index / 2);
      if sibling < |padded| {
        var x := At(padded, sibling);
        if x.None? {
          assert ProofAt(h, layer, index) == None;
          NothingAfter(found);
          return None;
        }
        AfterFacts(found, rest, x.value);
        found := found + [x.value];
      }
      layer := NextLayer(h, layer);
      index := index / 2;
    }
    AfterFacts(found, whole, "");
    return Some(found);
  }

  lemma NothingAfter(found: seq<string>)
    ensures After(found, None) == None
  {
  }

  method RootFromProof(h: Hash, item: string, proof: seq<string>, target: int) returns (root: string)
    ensures root == Fold(h, h(item), proof, target)
  {
    root := h(item);
    var index := target;
    for k := 0 to |proof|
      invariant Fold(h, root, proof[k..], index) == Fold(h, h(item), proof, target)
    {
      assert proof[k..][1..] == proof[k + 1..];
      root := h(if index % 2 == 0 then root + proof[k] else proof[k] + root);
      index := index / 2;
    }
  }

  lemma LayerOfTwo(h: Hash, x: string, y: string)
    ensures Parents(h, [x, y]) == [h(x + y)] && RootOf(h, [x, y]) == h(x + y)
    ensures ProofOf(h, [x, y], 0) == [y] && ProofOf(h, [x, y], 1) == [x]
  {
    var two := [x, y];
    assert Pad(two) == two;
    assert Parents(h, two) == [h(x + y)];
    hide Parents, Pad;
    assert Sibling(0) == 1 && Sibling(1) == 0;
    PairOf(h, two, 0);
    PairOf(h, two, 1);
    assert ProofOf(h, [h(x + y)], 0) == [];
  }

  lemma LayerOfThree(h: Hash, x: string, y: string, z: string)
    ensures Parents(h, [x, y, z]) == [h(x + y), h(z + z)] && RootOf(h, [x, y, z]) == h(h(x + y) + h(z + z))
  {
    assert Pad([x, y, z]) == [x, y, z, z];
    assert Parents(h, [x, y, z]) == [h(x + y), h(z + z)];
    hide Parents;
    LayerOfTwo(h, h(x + y), h(z + z));
  }

  /** The smallest trees, written out: no item, one, two, and three with the last one repeated. */
  lemma SmallTrees(h: Hash, a: string, b: string, c: string)
    ensures Root(h, []) == h("empty")
    ensures Root(h, [a]) == h(a)
    ensures Root(h, [a, b]) == h(h(a) + h(b))
    ensures Root(h, [a, b, c]) == h(h(h(a) + h(b)) + h(h(c) + h(c)))
    ensures ProofOf(h, Leaves(h, [a, b]), 0) == [h(b)] && ProofOf(h, Leaves(h, [a, b]), 1) == [h(a)]
  {
    assert Leaves(h, [a]) == [h(a)] && Leaves(h, [a, b]) == [h(a), h(b)] && Leaves(h, [a, b, c]) == [h(a), h(b), h(c)];
    assert RootOf(h, [h(a)]) == h(a);
    hide Leaves, RootOf, ProofOf;
    LayerOfTwo(h, h(a), h(b));
    LayerOfThree(h, h(a), h(b), h(c));
  }

  // ----- completeness -----

  lemma {:induction false} LayerCompleteness(h: Hash, layer: seq<string>, index: nat)
    requires index < |layer|
    ensures Fold(h, layer[index], ProofOf(h, layer, index), index) == RootOf(h, layer)
    ensures |ProofOf(h, layer, index)| == Depth(|layer|)
    decreases |layer|
  {
    if |layer| > 1 {
      hide Parents, Pad, Sibling;
      PairOf(h, layer, index);
      var up := Parents(h, layer);
      LayerCompleteness(h, up, index / 2);
      var rest := ProofOf(h, up, index / 2);
      assert ([Pad(layer)[Sibling(index)]] + rest)[1..] == rest;
    }
  }

  /** Every item of a non-empty list has a proof that folds to the root. */
  lemma Completeness(h: Hash, items: seq<string>, index: nat)
    requires index < |items|
    ensures Fold(h, h(items[index]), ProofOf(h, Leaves(h, items), index), index) == Root(h, items)
    ensures |ProofOf(h, Leaves(h, items), index)| == Depth(|items|)
  {
    LayerCompleteness(h, Leaves(h, items), index);
  }

  // ----- negative indices -----

  /** One turn of generation and of folding, for an index whose sibling is found. */
  lemma OneTurn(h: Hash, layer: seq<string>, index: int, current: string, x: string, rest: seq<string>)
    requires |layer| > 1 && Sibling(index) < |Pad(layer)| && At(Pad(layer), Sibling(index)) == Some(x)
    requires ProofAt(h, Parents(h, layer), index / 2) == Some(rest)
    ensures ProofAt(h, layer, index) == Some([x] + rest)
    ensures Fold(h, current, [x] + rest, index) == Fold(h, h(Combine(current, x, index)), rest, index / 2)
  {
    hide Parents, Pad, At, Combine, Sibling;
    assert ([x] + rest)[1..] == rest;
  }

  lemma LastPair(h: Hash, layer: seq<string>)
    requires |layer| > 1
    ensures var p, up := Pad(layer), Parents(h, layer);
            && |p| >= 2 && At(p, Sibling(-1)) == Some(p[|p| - 2])
            && up[|up| - 1] == h(Combine(layer[|layer| - 1], p[|p| - 2], -1))
  {
    var p := Pad(layer);
    assert p[|p| - 1] == layer[|layer| - 1] && |p| - 2 == 2 * (|p| / 2 - 1);
  }

  /** The index -1 always gives the last item's proof: its sibling is the one before it in the padded layer. */
  lemma {:induction false} MinusOneIsLast(h: Hash, layer: seq<string>)
    requires layer != []
    ensures var proof := ProofAt(h, layer, -1);
            && proof.Some? && |proof.value| == Depth(|layer|)
            && Fold(h, layer[|layer| - 1], proof.value, -1) == RootOf(h, layer)
    decreases |layer|
  {
    hide Parents, Pad, At, Combine;
    if |layer| > 1 {
      var p, up := Pad(layer), Parents(h, layer);
      MinusOneIsLast(h, up);
      LastPair(h, layer);
      OneTurn(h, layer, -1, layer[|layer| - 1], p[|p| - 2], ProofAt(h, up, -1).value);
    }
  }

  predicate Full(n: nat) {
    n == 1 || (n > 1 && n % 2 == 0 && Full(n / 2))
  }

  /** On a list of 2^d items every negative index means what it means in Python. */
  lemma {:induction false} NegativeIndexOnFullTree(h: Hash, layer: seq<string>, i: nat)
    requires i < |layer| && Full(|layer|)
    ensures ProofAt(h, layer, i - |layer|) == Some(ProofOf(h, layer, i))
    ensures Fold(h, layer[i], ProofOf(h, layer, i), i - |layer|) == RootOf(h, layer)
    decreases |layer|
  {
    hide Parents, Combine, At, Pad, Sibling, Full;
    FullHalves(layer);
    if |layer| > 1 {
      var n, up := |layer|, Parents(h, layer);
      PairOf(h, layer, i);
      FromTheEnd(layer, i);
      NegativeIndexOnFullTree(h, up, i / 2);
      OneTurn(h, layer, i - n, layer[i], layer[Sibling(i)], ProofOf(h, up, i / 2));
    }
  }

  lemma FullHalves(layer: seq<string>)
    requires layer != [] && Full(|layer|)
    ensures |layer| > 1 ==> |layer| % 2 == 0 && Full((|layer| + 1) / 2) && Pad(layer) == layer
  {
    if |layer| > 1 { assert (|layer| + 1) / 2 == |layer| / 2; }
  }

  lemma FromTheEnd(layer: seq<string>, i: nat)
    requires i < |layer| && |layer| % 2 == 0
    ensures (i - |layer|) / 2 == i / 2 - |layer| / 2 && (i - |layer|) % 2 == i % 2
    ensures 0 <= Sibling(i) < |layer| && Sibling(i - |layer|) < |layer|
    ensures At(layer, Sibling(i - |layer|)) == Some(layer[Sibling(i)])
    ensures forall current, x :: Combine(current, x, i - |layer|) == Combine(current, x, i)
  {
  }

  // ----- soundness -----

  function Pair(layer: seq<string>, j: nat): string
    requires layer != [] && j < |Pad(layer)| / 2
  {
    Pad(layer)[2 * j] + Pad(layer)[2 * j + 1]
  }

  /** The strings hashed while building the tree above a layer. */
  ghost function LayerInputs(h: Hash, layer: seq<string>): set<string>
    requires layer != []
    decreases |layer|
  {
    if |layer| == 1 then {}
    else (set j | 0 <= j < |Pad(layer)| / 2 :: Pair(layer, j)) + LayerInputs(h, Parents(h, layer))
  }

  /** The strings hashed while folding a proof. */
  ghost function FoldInputs(h: Hash, current: string, proof: seq<string>, index: nat): set<string>
    decreases |proof|
  {
    if proof == [] then {}
    else
      var c := Combine(current, proof[0], index);
      {c} + FoldInputs(h, h(c), proof[1..], index / 2)
  }

  /** The hash does not collide on these strings. (No hash is injective on all strings.) */
  ghost predicate CollisionFree(h: Hash, inputs: set<string>) {
    forall a, b :: a in inputs && b in inputs && h(a) == h(b) ==> a == b
  }

  ghost predicate FixedLength(h: Hash, n: nat) {
    forall s :: |h(s)| == n
  }

  ghost predicate AllOfLength(layer: seq<string>, n: nat) {
    forall i :: 0 <= i < |layer| ==> |layer[i]| == n
  }

  lemma CombineIsInjective(cur: string, sib: string, left: string, right: string, index: nat, n: nat)
    requires |cur| == n && |left| == n && |right| == n
    requires Combine(cur, sib, index) == left + right
    ensures cur == if index % 2 == 0 then left else right
  {
    if index % 2 == 0 {
      assert (cur + sib)[..n] == cur && (left + right)[..n] == left;
    } else {
      assert |sib| == n;
      assert (sib + cur)[n..] == cur && (left + right)[n..] == right;
    }
  }

  lemma {:induction false} LayerSoundness(h: Hash, layer: seq<string>, current: string, proof: seq<string>, index: nat, n: nat)
    requires index < |layer| && |proof| == Depth(|layer|) && FixedLength(h, n)
    requires AllOfLength(layer, n) && |current| == n
    requires CollisionFree(h, LayerInputs(h, layer) + FoldInputs(h, current, proof, index))
    requires Fold(h, current, proof, index) == RootOf(h, layer)
    ensures current == layer[index]
    decreases |layer|
  {
    if |layer| > 1 {
      hide Parents, Pad, Pair, Combine;
      var c := Combine(current, proof[0], index);
      FewerInputs(h, layer, current, proof, index);
      ParentLengths(h, layer, n);
      LayerSoundness(h, Parents(h, layer), h(c), proof[1..], index / 2, n);
      SamePair(h, layer, current, proof[0], index, n);
    }
  }

  lemma ParentLengths(h: Hash, layer: seq<string>, n: nat)
    requires layer != [] && FixedLength(h, n)
    ensures AllOfLength(Parents(h, layer), n)
  {
  }

  lemma FewerInputs(h: Hash, layer: seq<string>, current: string, proof: seq<string>, index: nat)
    requires index < |layer| && |layer| > 1 && proof != []
    requires CollisionFree(h, LayerInputs(h, layer) + FoldInputs(h, current, proof, index))
    ensures var c := Combine(current, proof[0], index);
            && CollisionFree(h, LayerInputs(h, Parents(h, layer)) + FoldInputs(h, h(c), proof[1..], index / 2))
            && index / 2 < |Pad(layer)| / 2
            && CollisionFree(h, {c, Pair(layer, index / 2)})
  {
    hide Parents, Pair, Combine;
    var c := Combine(current, proof[0], index);
    assert index / 2 < |Pad(layer)| / 2;
    assert Pair(layer, index / 2) in LayerInputs(h, layer);
    assert c in FoldInputs(h, current, proof, index);
  }

  lemma SamePair(h: Hash, layer: seq<string>, current: string, sibling: string, index: nat, n: nat)
    requires index < |layer| && |layer| > 1 && index / 2 < |Pad(layer)| / 2
    requires AllOfLength(layer, n) && |current| == n
    requires var c := Combine(current, sibling, index);
             CollisionFree(h, {c, Pair(layer, index / 2)}) && h(c) == Parents(h, layer)[index / 2]
    ensures current == layer[index]
  {
    var j := index / 2;
    assert index == 2 * j + index % 2;
    assert Combine(current, sibling, index) == Pair(layer, j);
    CombineIsInjective(current, sibling, Pad(layer)[2 * j], Pad(layer)[2 * j + 1], index, n);
  }

  /**
   Soundness: with hashes of fixed length and no collision among the strings hashed by tree
   and verifier, a proof of the tree's depth that folds to the root at index i is a proof of
   the item at index i and of no other.
   */
  lemma Soundness(h: Hash, items: seq<string>, item: string, proof: seq<string>, index: nat, n: nat)
    requires index < |items| && |proof| == Depth(|items|) && FixedLength(h, n)
    requires CollisionFree(h, (set x | x in items) + {item} + LayerInputs(h, Leaves(h, items))
                              + FoldInputs(h, h(item), proof, index))
    requires Fold(h, h(item), proof, index) == Root(h, items)
    ensures item == items[index]
  {
    hide LayerInputs, FoldInputs, Fold, RootOf;
    LayerSoundness(h, Leaves(h, items), h(item), proof, index, n);
    assert items[index] in items;
  }
}
