/**
 Stake-weighted proposer selection of consensus/validator_selection.py: canonical order,
 the cumulative walk, and exact proportionality.
 */
module ProposerSelection {
  import opened Wrappers
  import opened Names
  import opened Sums

  datatype Entry = Entry(name: string, stake: nat)

  /** Negative stakes count as zero. */
  function StakeIn(validators: map<string, int>, name: string): nat {
    if name in validators && validators[name] > 0 then validators[name] else 0
  }

  // ----- canonical order -----

  function Insert(sorted: seq<Entry>, e: Entry): seq<Entry> {
    if sorted == [] then [e]
    else if Lt(e.name, sorted[0].name) then [e] + sorted
    else [sorted[0]] + Insert(sorted[1..], e)
  }

  /** `sorted(items, key=name)`; `order` is the iteration order of the dictionary. */
  function Canonical(validators: map<string, int>, order: seq<string>): seq<Entry> {
    if order == [] then []
    else Insert(Canonical(validators, order[..|order| - 1]),
                Entry(order[|order| - 1], StakeIn(validators, order[|order| - 1])))
  }

  ghost predicate Sorted(s: seq<Entry>) {
    forall i, j :: 0 <= i < j < |s| ==> Lt(s[i].name, s[j].name)
  }

  lemma {:induction false} InsertSorts(sorted: seq<Entry>, e: Entry)
    requires Sorted(sorted) && forall i :: 0 <= i < |sorted| ==> sorted[i].name != e.name
    ensures Sorted(Insert(sorted, e))
    ensures forall x :: x in Insert(sorted, e) <==> x in sorted || x == e
  {
    if sorted != [] {
      LtTotal(e.name, sorted[0].name);
      if Lt(e.name, sorted[0].name) {
        forall j | 0 <= j < |sorted| ensures Lt(e.name, sorted[j].name) {
          if j > 0 { LtTransitive(e.name, sorted[0].name, sorted[j].name); }
        }
      } else {
        InsertSorts(sorted[1..], e);
        var r := Insert(sorted[1..], e);
        forall j | 0 <= j < |r| ensures Lt(sorted[0].name, r[j].name) {
          assert r[j] in r;
        }
      }
    }
  }

  /** `order` lists every validator exactly once. */
  ghost predicate Enumerates(order: seq<string>, validators: map<string, int>) {
    && (forall v :: v in order <==> v in validators)
    && (forall i, j :: 0 <= i < j < |order| ==> order[i] != order[j])
  }

  lemma {:induction false} CanonicalIsSorted(validators: map<string, int>, order: seq<string>)
    requires forall i, j :: 0 <= i < j < |order| ==> order[i] != order[j]
    ensures Sorted(Canonical(validators, order))
    ensures forall i, j :: 0 <= i < j < |Canonical(validators, order)| ==>
              Precedes(Canonical(validators, order)[i].name, Canonical(validators, order)[j].name)
    ensures forall x :: x in Canonical(validators, order) <==> x.name in order && x.stake == StakeIn(validators, x.name)
  {
    hide StakeIn, Lt, Precedes;
    if order != [] {
      var last := |order| - 1;
      CanonicalIsSorted(validators, order[..last]);
      var rest := Canonical(validators, order[..last]);
      forall i | 0 <= i < |rest| ensures rest[i].name != order[last] { assert rest[i] in rest; }
      InsertSorts(rest, Entry(order[last], StakeIn(validators, order[last])));
      assert forall v :: v in order <==> v in order[..last] || v == order[last];
    }
    var c := Canonical(validators, order);
    forall i, j | 0 <= i < j < |c| ensures Precedes(c[i].name, c[j].name) { LtIsPrecedes(c[i].name, c[j].name); }
  }

  lemma {:induction false} SortedIsUnique(a: seq<Entry>, b: seq<Entry>)
    requires Sorted(a) && Sorted(b) && forall x :: x in a <==> x in b
    ensures a == b
  {
    hide Lt;
    NoMembers(a);
    NoMembers(b);
    if a != [] {
      assert a[0] in a && a[0] in b;
      SmallestIsFirst(a, b);
      forall x ensures x in a[1..] <==> x in b[1..] {
        TailMembers(a, x);
        TailMembers(b, x);
      }
      SortedIsUnique(a[1..], b[1..]);
      assert a == [a[0]] + a[1..] && b == [b[0]] + b[1..];
    }
  }

  lemma NoMembers(s: seq<Entry>)
    ensures (forall x :: x !in s) <==> s == []
  {
    if s != [] { assert s[0] in s; }
  }

  lemma SmallestIsFirst(a: seq<Entry>, b: seq<Entry>)
    requires a != [] && b != [] && Sorted(a) && Sorted(b) && forall x :: x in a <==> x in b
    ensures a[0] == b[0]
  {
    hide Lt;
    assert a[0] in b && b[0] in a;
    var i :| 0 <= i < |b| && b[i] == a[0];
    var j :| 0 <= j < |a| && a[j] == b[0];
    if i > 0 && j > 0 { LtAsymmetric(a[0].name, b[0].name); }
  }

  lemma TailMembers(s: seq<Entry>, x: Entry)
    requires s != [] && Sorted(s)
    ensures x in s[1..] <==> x in s && x != s[0]
  {
    LtIrreflexive(s[0].name);
  }

  /** All nodes agree on the canonical list, whatever their dictionary order. */
  lemma CanonicalIgnoresOrder(validators: map<string, int>, a: seq<string>, b: seq<string>)
    requires Enumerates(a, validators) && Enumerates(b, validators)
    ensures Canonical(validators, a) == Canonical(validators, b)
  {
    hide Canonical, StakeIn;
    CanonicalIsSorted(validators, a);
    CanonicalIsSorted(validators, b);
    SortedIsUnique(Canonical(validators, a), Canonical(validators, b));
  }

  // ----- the cumulative walk -----

  function StakeUpTo(c: seq<Entry>, k: nat): nat
    requires k <= |c|
  {
    if k == 0 then 0 else StakeUpTo(c, k - 1) + c[k - 1].stake
  }

  lemma {:induction false} StakeUpToGrows(c: seq<Entry>, i: nat, j: nat)
    requires i <= j <= |c|
    ensures StakeUpTo(c, i) <= StakeUpTo(c, j)
    decreases j
  {
    if i < j { StakeUpToGrows(c, i, j - 1); }
  }

  /** The target falls in the k-th validator's interval of the stake line. */
  predicate Owns(c: seq<Entry>, k: nat, target: nat)
    requires k < |c|
  {
    StakeUpTo(c, k) <= target < StakeUpTo(c, k + 1)
  }

  lemma OwnerIsUnique(c: seq<Entry>, i: nat, j: nat, target: nat)
    requires i < |c| && j < |c| && Owns(c, i, target) && Owns(c, j, target)
    ensures i == j
  {
    if i < j { StakeUpToGrows(c, i + 1, j); }
    if j < i { StakeUpToGrows(c, j + 1, i); }
  }

  /** The selection loop: for every target below the total it stops at the owner of the target. */
  method Walk(c: seq<Entry>, target: nat) returns (k: nat)
    requires target < StakeUpTo(c, |c|)
    ensures k < |c| && Owns(c, k, target) && c[k].stake > 0
  {
    var cumulative := 0;
    k := 0;
    while k < |c|
      invariant k <= |c| && cumulative == StakeUpTo(c, k) <= target
    {
      cumulative := cumulative + c[k].stake;
      if cumulative > target { return; }
      k := k + 1;
    }
  }

  /** Without stake the proposer is the first of the canonical list with the least hash. */
  function LeastHash(c: seq<Entry>, hash: string -> nat): Entry
    requires c != []
  {
    if |c| == 1 then c[0]
    else
      var best := LeastHash(c[..|c| - 1], hash);
      if hash(c[|c| - 1].name) < hash(best.name) then c[|c| - 1] else best
  }

  method SelectProposerWeighted(validators: map<string, int>, order: seq<string>, draw: nat, hash: string -> nat)
    returns (proposer: Option<string>)
    requires Enumerates(order, validators)
    ensures validators == map[] ==> proposer == None
    ensures validators != map[] ==>
              var c := Canonical(validators, order);
              c != [] &&
              if StakeUpTo(c, |c|) == 0 then proposer == Some(LeastHash(c, hash).name)
              else
                && (exists k :: 0 <= k < |c| && Owns(c, k, draw % StakeUpTo(c, |c|)))
                && (forall k :: 0 <= k < |c| && Owns(c, k, draw % StakeUpTo(c, |c|)) ==> proposer == Some(c[k].name))
    ensures proposer.Some? ==> proposer.value in validators
    ensures AllStake(validators) > 0 ==>
              && proposer.Some?
              && StakeBefore(validators, proposer.value) <= draw % AllStake(validators)
              && draw % AllStake(validators) < StakeBefore(validators, proposer.value) + Counted(validators)(proposer.value)
  {
    if validators == map[] {
      assert validators.Keys == {};
      return None;
    }
    hide Precedes, Lt, StakeBefore, AllStake, Counted, StakeIn;
    var c := Canonical(validators, order);
    CanonicalIsSorted(validators, order);
    NonEmptyCanonical(validators, order);
    StakeInFront(validators, order, 0);
    var total := 0;
    for k := 0 to |c|
      invariant total == StakeUpTo(c, k)
    {
      total := total + c[k].stake;
    }
    if total == 0 {
      ghost var least := LeastHashIsFirst(c, hash);
      assert c[least] in c;
      return Some(LeastHash(c, hash).name);
    }
    var k := Walk(c, draw % total);
    assert c[k] in c;
    forall j | 0 <= j < |c| && Owns(c, j, draw % total) ensures j == k { OwnerIsUnique(c, j, k, draw % total); }
    StakeInFront(validators, order, k);
    return Some(c[k].name);
  }

  lemma NonEmptyCanonical(validators: map<string, int>, order: seq<string>)
    requires Enumerates(order, validators) && validators != map[]
    ensures Canonical(validators, order) != []
  {
    CanonicalIsSorted(validators, order);
    var v :| v in validators;
    assert Entry(v, StakeIn(validators, v)) in Canonical(validators, order);
  }

  /** The fallback has the least hash, and is the first such in canonical order. */
  lemma {:induction false} LeastHashIsFirst(c: seq<Entry>, hash: string -> nat) returns (k: nat)
    requires c != []
    ensures k < |c| && c[k] == LeastHash(c, hash)
    ensures forall j :: 0 <= j < |c| ==> hash(c[k].name) <= hash(c[j].name)
    ensures forall j :: 0 <= j < k ==> hash(c[k].name) < hash(c[j].name)
  {
    if |c| == 1 {
      k := 0;
    } else {
      var last := |c| - 1;
      k := LeastHashIsFirst(c[..last], hash);
      if hash(c[last].name) < hash(c[k].name) { k := last; }
    }
  }

  // ----- the stake line, without the list -----

  /** Negative stakes count as zero. */
  ghost function Counted(validators: map<string, int>): string -> int {
    (v: string) => if v in validators && validators[v] > 0 then validators[v] else 0
  }

  /** The stake of all validators whose names come before. */
  ghost function StakeBefore(validators: map<string, int>, name: string): int {
    Sum((set v | v in validators && Precedes(v, name)), Counted(validators))
  }

  ghost function AllStake(validators: map<string, int>): int {
    Sum(validators.Keys, Counted(validators))
  }

  ghost function NamesUpTo(c: seq<Entry>, k: nat): set<string>
    requires k <= |c|
  {
    set i | 0 <= i < k :: c[i].name
  }

  lemma {:induction false} StakeUpToIsSum(validators: map<string, int>, c: seq<Entry>, k: nat)
    requires k <= |c| && Sorted(c) && forall i :: 0 <= i < |c| ==> c[i].stake == StakeIn(validators, c[i].name)
    ensures StakeUpTo(c, k) == Sum(NamesUpTo(c, k), Counted(validators))
  {
    if k == 0 {
      assert NamesUpTo(c, 0) == {};
    } else {
      StakeUpToIsSum(validators, c, k - 1);
      var name := c[k - 1].name;
      assert NamesUpTo(c, k) == NamesUpTo(c, k - 1) + {name};
      if name in NamesUpTo(c, k - 1) {
        var i :| 0 <= i < k - 1 && c[i].name == name;
        SameNameSameIndex(c, i, k - 1);
      }
      hide Sum, Sorted, Lt;
      SumAdd(NamesUpTo(c, k - 1), Counted(validators), name);
    }
  }

  /** The canonical list puts exactly the names that come before in front of a validator. */
  lemma StakeInFront(validators: map<string, int>, order: seq<string>, k: nat)
    requires Enumerates(order, validators) && k < |Canonical(validators, order)|
    ensures var c := Canonical(validators, order);
            && StakeUpTo(c, k) == StakeBefore(validators, c[k].name)
            && StakeUpTo(c, |c|) == AllStake(validators)
            && c[k].name in validators && c[k].stake == Counted(validators)(c[k].name)
  {
    hide Canonical, Sum, Lt, Precedes;
    var c := Canonical(validators, order);
    CanonicalIsSorted(validators, order);
    forall i | 0 <= i < |c| ensures c[i].stake == StakeIn(validators, c[i].name) && c[i].name in validators { assert c[i] in c; }
    StakeUpToIsSum(validators, c, k);
    StakeUpToIsSum(validators, c, |c|);
    NamesInFront(validators, c, k);
  }

  lemma NamesInFront(validators: map<string, int>, c: seq<Entry>, k: nat)
    requires Sorted(c) && k < |c|
    requires forall i, j :: 0 <= i < j < |c| ==> Precedes(c[i].name, c[j].name)
    requires forall x :: x in c <==> x.name in validators && x.stake == StakeIn(validators, x.name)
    ensures NamesUpTo(c, k) == set v | v in validators && Precedes(v, c[k].name)
    ensures NamesUpTo(c, |c|) == validators.Keys
  {
    hide Lt, Precedes, StakeIn;
    forall v | v in validators ensures v in NamesUpTo(c, |c|) && (Precedes(v, c[k].name) <==> v in NamesUpTo(c, k)) {
      var e := Entry(v, StakeIn(validators, v));
      assert e in c;
      var i :| 0 <= i < |c| && c[i] == e;
      assert c[i].name == v;
      PositionByName(c, i, k);
      if v in NamesUpTo(c, k) {
        var j :| 0 <= j < k && c[j].name == v;
        SameNameSameIndex(c, i, j);
      }
    }
    forall i | 0 <= i < |c| ensures c[i].name in validators { assert c[i] in c; }
  }

  lemma PositionByName(c: seq<Entry>, i: nat, k: nat)
    requires Sorted(c) && i < |c| && k < |c|
    ensures Precedes(c[i].name, c[k].name) <==> i < k
  {
    hide Precedes, Lt;
    LtIsPrecedes(c[i].name, c[k].name);
    if i == k { LtIrreflexive(c[i].name); }
    if i > k { LtAsymmetric(c[k].name, c[i].name); }
  }

  // ----- exact proportionality -----

  ghost function Interval(lo: nat, hi: nat): set<nat> {
    if lo >= hi then {} else Interval(lo, hi - 1) + {hi - 1}
  }

  lemma {:induction false} IntervalSize(lo: nat, hi: nat)
    requires lo <= hi
    ensures |Interval(lo, hi)| == hi - lo
    ensures forall t :: t in Interval(lo, hi) <==> lo <= t < hi
  {
    if lo < hi { IntervalSize(lo, hi - 1); }
  }

  /** The targets for which the walk returns `name`. */
  ghost function Targets(c: seq<Entry>, name: string): set<nat> {
    set t | t in Interval(0, StakeUpTo(c, |c|)) && exists k :: 0 <= k < |c| && c[k].name == name && Owns(c, k, t)
  }

  /**
   Exact proportionality: over the targets 0..total-1 each validator is chosen for exactly
   as many targets as it has stake, so a validator without stake is never chosen.
   */
  lemma ProportionalToStake(validators: map<string, int>, order: seq<string>, name: string)
    requires Enumerates(order, validators) && name in validators
    ensures |Targets(Canonical(validators, order), name)| == if validators[name] > 0 then validators[name] else 0
  {
    hide Canonical, StakeIn, StakeUpTo, Precedes, Lt;
    StakeInIs(validators, name);
    var c := Canonical(validators, order);
    CanonicalIsSorted(validators, order);
    var e := Entry(name, StakeIn(validators, name));
    assert e in c;
    var k :| 0 <= k < |c| && c[k] == e;
    IntervalOf(c, k);
    IntervalSize(StakeUpTo(c, k), StakeUpTo(c, k + 1));
    IntervalSize(0, StakeUpTo(c, |c|));
    var own := Interval(StakeUpTo(c, k), StakeUpTo(c, k + 1));
    forall t | t in Targets(c, name) ensures t in own {
      var i :| 0 <= i < |c| && c[i].name == name && Owns(c, i, t);
      SameNameSameIndex(c, i, k);
    }
    forall t | t in own ensures t in Targets(c, name) {
      assert Owns(c, k, t);
    }
    assert Targets(c, name) == own;
  }

  lemma StakeInIs(validators: map<string, int>, name: string)
    requires name in validators
    ensures StakeIn(validators, name) == if validators[name] > 0 then validators[name] else 0
  {
  }

  lemma IntervalOf(c: seq<Entry>, k: nat)
    requires k < |c|
    ensures StakeUpTo(c, k + 1) == StakeUpTo(c, k) + c[k].stake
    ensures StakeUpTo(c, k + 1) <= StakeUpTo(c, |c|)
  {
    StakeUpToGrows(c, k + 1, |c|);
  }

  lemma SameNameSameIndex(c: seq<Entry>, i: nat, j: nat)
    requires Sorted(c) && i < |c| && j < |c| && c[i].name == c[j].name
    ensures i == j
  {
    LtIrreflexive(c[i].name);
  }

  // ----- the committee -----

  /** Stable: an entry goes behind those of equal hash. */
  function RankInsert(ranked: seq<Entry>, e: Entry, hash: string -> nat): seq<Entry> {
    if ranked == [] then [e]
    else if hash(e.name) < hash(ranked[0].name) then [e] + ranked
    else [ranked[0]] + RankInsert(ranked[1..], e, hash)
  }

  /** `sorted(canonical, key=hash)`. */
  function Ranked(c: seq<Entry>, hash: string -> nat): seq<Entry> {
    if c == [] then [] else RankInsert(Ranked(c[..|c| - 1], hash), c[|c| - 1], hash)
  }

  /** `ranked[:min(size, n)]`: a negative size drops entries from the end. */
  function Committee(c: seq<Entry>, hash: string -> nat, size: int): seq<Entry>
    requires |Ranked(c, hash)| == |c|
  {
    var cut := if size < 0 then |c| + size else if size < |c| then size else |c|;
    Ranked(c, hash)[..if cut < 0 then 0 else cut]
  }

  ghost predicate ByHash(r: seq<Entry>, hash: string -> nat) {
    forall i, j :: 0 <= i < j < |r| ==> hash(r[i].name) <= hash(r[j].name)
  }

  ghost predicate DistinctNames(r: seq<Entry>) {
    forall i, j :: 0 <= i < j < |r| ==> r[i].name != r[j].name
  }

  lemma {:induction false} RankInsertKeeps(ranked: seq<Entry>, e: Entry, hash: string -> nat)
    requires ByHash(ranked, hash) && DistinctNames(ranked) && forall i :: 0 <= i < |ranked| ==> ranked[i].name != e.name
    ensures var r := RankInsert(ranked, e, hash);
            && ByHash(r, hash) && DistinctNames(r)
            && |r| == |ranked| + 1
            && forall x :: x in r <==> x in ranked || x == e
  {
    if ranked != [] && hash(e.name) >= hash(ranked[0].name) {
      RankInsertKeeps(ranked[1..], e, hash);
      var r := RankInsert(ranked[1..], e, hash);
      forall j | 0 <= j < |r| ensures hash(ranked[0].name) <= hash(r[j].name) && ranked[0].name != r[j].name {
        assert r[j] in r;
      }
    }
  }

  /** Ranking only reorders: the same entries, each once, by ascending hash. */
  lemma {:induction false} RankedIsReordering(c: seq<Entry>, hash: string -> nat)
    requires DistinctNames(c)
    ensures var r := Ranked(c, hash);
            && ByHash(r, hash) && DistinctNames(r)
            && |r| == |c|
            && forall x :: x in r <==> x in c
  {
    if c != [] {
      var last := |c| - 1;
      RankedIsReordering(c[..last], hash);
      var rest := Ranked(c[..last], hash);
      forall i | 0 <= i < |rest| ensures rest[i].name != c[last].name { assert rest[i] in rest; }
      RankInsertKeeps(rest, c[last], hash);
      assert forall x :: x in c <==> x in c[..last] || x == c[last];
    }
  }

  /**
   The committee: the requested number of validators (all of them if there are fewer, all but
   -size of them for a negative size), nobody twice, everybody registered, and no validator left
   out has a smaller hash than a member.
   */
  lemma CommitteeIsBest(validators: map<string, int>, order: seq<string>, hash: string -> nat, size: int)
    requires Enumerates(order, validators)
    ensures var c := Canonical(validators, order);
            && |Ranked(c, hash)| == |c|
            && var m := Committee(c, hash, size);
               && |m| == (if size >= |c| then |c| else if size >= 0 then size else if |c| + size >= 0 then |c| + size else 0)
               && (forall i, j :: 0 <= i < j < |m| ==> m[i].name != m[j].name)
               && (forall i :: 0 <= i < |m| ==> m[i].name in validators)
               && (forall i, e :: 0 <= i < |m| && e in c && e !in m ==> hash(m[i].name) <= hash(e.name))
  {
    hide Canonical, Ranked, StakeIn;
    var c := Canonical(validators, order);
    CanonicalIsSorted(validators, order);
    forall i, j | 0 <= i < j < |c| ensures c[i].name != c[j].name { LtIrreflexive(c[i].name); }
    RankedIsReordering(c, hash);
    var r, m := Ranked(c, hash), Committee(c, hash, size);
    forall i | 0 <= i < |m| ensures m[i].name in validators { assert r[i] in r; }
    forall i, e | 0 <= i < |m| && e in c && e !in m ensures hash(m[i].name) <= hash(e.name) {
      var j :| 0 <= j < |r| && r[j] == e;
      assert m == r[..|m|];
    }
  }

  /** `select_proposer` takes the first of the ranking, which is the least hash used when nobody has stake. */
  lemma {:induction false} RankingStartsWithLeastHash(c: seq<Entry>, hash: string -> nat)
    requires c != []
    ensures Ranked(c, hash) != [] && Ranked(c, hash)[0] == LeastHash(c, hash)
  {
    if |c| > 1 {
      RankingStartsWithLeastHash(c[..|c| - 1], hash);
    } else {
      assert Ranked(c[..0], hash) == [];
    }
  }
}
