/** Lexicographic order of strings by code point, as Python compares them. */
module Names {

  predicate Lt(a: string, b: string) {
    if b == [] then false
    else if a == [] then true
    else a[0] < b[0] || (a[0] == b[0] && Lt(a[1..], b[1..]))
  }

  lemma {:induction false} LtIrreflexive(a: string)
    ensures !Lt(a, a)
  {
    if a != [] { LtIrreflexive(a[1..]); }
  }

  lemma {:induction false} LtTotal(a: string, b: string)
    ensures Lt(a, b) || Lt(b, a) || a == b
  {
    if a != [] && b != [] && a[0] == b[0] {
      LtTotal(a[1..], b[1..]);
      if a[1..] == b[1..] {
        assert a == [a[0]] + a[1..] && b == [b[0]] + b[1..];
      }
    }
  }

  lemma {:induction false} LtTransitive(a: string, b: string, c: string)
    requires Lt(a, b) && Lt(b, c)
    ensures Lt(a, c)
  {
    if a != [] && a[0] == b[0] && b[0] == c[0] {
      LtTransitive(a[1..], b[1..], c[1..]);
    }
  }

  lemma LtAsymmetric(a: string, b: string)
    requires Lt(a, b)
    ensures !Lt(b, a) && a != b
  {
    LtIrreflexive(a);
    if Lt(b, a) { LtTransitive(a, b, a); }
  }

  /** The usual order of strings: a proper prefix comes first, otherwise the first different character decides. */
  ghost predicate Precedes(a: string, b: string) {
    || (|a| < |b| && b[..|a|] == a)
    || exists k :: 0 <= k < |a| && k < |b| && a[..k] == b[..k] && a[k] < b[k]
  }

  lemma {:induction false} LtIsPrecedes(a: string, b: string)
    ensures Lt(a, b) <==> Precedes(a, b)
  {
    if a != [] && b != [] {
      var a', b' := a[1..], b[1..];
      LtIsPrecedes(a', b');
      if a[0] == b[0] {
        if Precedes(a', b') { PrecedesAfter(a, b); }
        if Precedes(a, b) { PrecedesBefore(a, b); }
      } else if a[0] < b[0] {
        assert a[..0] == b[..0];
      } else {
        assert forall k :: 1 <= k <= |a| && k <= |b| ==> a[..k][0] != b[..k][0];
      }
    } else if a == [] && b != [] {
      assert b[..0] == a;
    }
  }

  lemma PrecedesAfter(a: string, b: string)
    requires a != [] && b != [] && a[0] == b[0] && Precedes(a[1..], b[1..])
    ensures Precedes(a, b)
  {
    var a', b' := a[1..], b[1..];
    if |a'| < |b'| && b'[..|a'|] == a' {
      assert b[..|a|] == [b[0]] + b'[..|a'|] && a == [a[0]] + a';
    } else {
      var k :| 0 <= k < |a'| && k < |b'| && a'[..k] == b'[..k] && a'[k] < b'[k];
      assert a[..k + 1] == [a[0]] + a'[..k] && b[..k + 1] == [b[0]] + b'[..k];
      assert a[k + 1] < b[k + 1];
    }
  }

  lemma PrecedesBefore(a: string, b: string)
    requires a != [] && b != [] && a[0] == b[0] && Precedes(a, b)
    ensures Precedes(a[1..], b[1..])
  {
    var a', b' := a[1..], b[1..];
    if |a| < |b| && b[..|a|] == a {
      assert b'[..|a'|] == b[..|a|][1..];
    } else {
      var k :| 0 <= k < |a| && k < |b| && a[..k] == b[..k] && a[k] < b[k];
      assert k > 0;
      assert a'[..k - 1] == a[..k][1..] && b'[..k - 1] == b[..k][1..];
      assert a'[k - 1] < b'[k - 1];
    }
  }
}
