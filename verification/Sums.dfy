/** Sums of integer weights over finite sets of names. */
module Sums {

  ghost function Sum(names: set<string>, f: string -> int): int {
    if names == {} then 0
    else
      var x :| x in names;
      f(x) + Sum(names - {x}, f)
  }

  /** Any element may be taken out first: the sum does not depend on iteration order. */
  lemma {:induction false} SumRemove(names: set<string>, f: string -> int, y: string)
    requires y in names
    ensures Sum(names, f) == f(y) + Sum(names - {y}, f)
    decreases |names|
  {
    var x :| x in names && Sum(names, f) == f(x) + Sum(names - {x}, f);
    if x != y {
      SumRemove(names - {x}, f, y);
      SumRemove(names - {y}, f, x);
      assert names - {x} - {y} == names - {y} - {x};
    }
  }

  lemma SumAdd(names: set<string>, f: string -> int, y: string)
    requires y !in names
    ensures Sum(names + {y}, f) == Sum(names, f) + f(y)
  {
    SumRemove(names + {y}, f, y);
    assert names + {y} - {y} == names;
  }

  lemma {:induction false} SumCongruent(names: set<string>, f: string -> int, g: string -> int)
    requires forall x :: x in names ==> f(x) == g(x)
    ensures Sum(names, f) == Sum(names, g)
    decreases |names|
  {
    if names != {} {
      var x :| x in names;
      SumRemove(names, f, x);
      SumRemove(names, g, x);
      SumCongruent(names - {x}, f, g);
    }
  }

  lemma {:induction false} SumMonotone(names: set<string>, f: string -> int, g: string -> int)
    requires forall x :: x in names ==> f(x) <= g(x)
    ensures Sum(names, f) <= Sum(names, g)
    decreases |names|
  {
    if names != {} {
      var x :| x in names;
      SumRemove(names, f, x);
      SumRemove(names, g, x);
      SumMonotone(names - {x}, f, g);
    }
  }

  lemma {:induction false} SumUnion(a: set<string>, b: set<string>, f: string -> int)
    requires a !! b
    ensures Sum(a + b, f) == Sum(a, f) + Sum(b, f)
    decreases |a|
  {
    if a == {} {
      assert a + b == b;
    } else {
      var x :| x in a;
      SumRemove(a, f, x);
      SumRemove(a + b, f, x);
      assert a + b - {x} == (a - {x}) + b;
      SumUnion(a - {x}, b, f);
    }
  }

  lemma {:induction false} SumNonNegative(names: set<string>, f: string -> int)
    requires forall x :: x in names ==> f(x) >= 0
    ensures Sum(names, f) >= 0
    decreases |names|
  {
    if names != {} {
      var x :| x in names;
      SumRemove(names, f, x);
      SumNonNegative(names - {x}, f);
    }
  }

  lemma {:induction false} SumZero(names: set<string>, f: string -> int)
    requires forall x :: x in names ==> f(x) == 0
    ensures Sum(names, f) == 0
    decreases |names|
  {
    if names != {} {
      var x :| x in names;
      SumRemove(names, f, x);
      SumZero(names - {x}, f);
    }
  }

  lemma {:induction false} SumScaled(names: set<string>, f: string -> int, g: string -> int, k: int)
    requires forall x :: x in names ==> g(x) == k * f(x)
    ensures Sum(names, g) == k * Sum(names, f)
    decreases |names|
  {
    if names != {} {
      var x :| x in names;
      SumRemove(names, f, x);
      SumRemove(names, g, x);
      SumScaled(names - {x}, f, g, k);
      assert k * (f(x) + Sum(names - {x}, f)) == k * f(x) + k * Sum(names - {x}, f);
    }
  }

  lemma SomeKey(keys: set<int>)
    ensures keys == {} || exists k :: k in keys
  {
    if forall k :: k !in keys { assert keys == {}; }
  }

  lemma SameMembers(a: set<int>, b: set<int>)
    requires forall k :: k in a <==> k in b
    ensures a == b
  {
    SomeKey(a - b);
    SomeKey(b - a);
    assert a == (a - b) + a * b && b == (b - a) + a * b;
  }
}
