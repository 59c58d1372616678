/** Small helpers on sets and sequences. */
module Collections {
  /** Some element, as iteration over a map picks one. */
  method Pick<T>(s: set<T>) returns (x: T)
    requires s != {}
    ensures x in s
  {
    x :| x in s;
  }

  lemma Regroup<T>(a: seq<T>, b: seq<T>, c: seq<T>)
    ensures a + (b + c) == a + b + c
  {
  }

  /** The numbers from a up to b, b not included. */
  ghost function Numbers(a: nat, b: nat): set<nat>
    requires a <= b
    decreases b
  {
    if a == b then {} else Numbers(a, b - 1) + {b - 1}
  }

  lemma {:induction false} NumbersAre(a: nat, b: nat)
    requires a <= b
    ensures |Numbers(a, b)| == b - a && forall r :: r in Numbers(a, b) <==> a <= r < b
    decreases b
  {
    if a < b { NumbersAre(a, b - 1); }
  }

  lemma SubsetSize<T>(a: set<T>, b: set<T>)
    requires a <= b
    ensures |a| <= |b| && (|a| == |b| ==> a == b)
  {
    assert b == a + (b - a);
  }

  lemma SameMembers<T>(a: seq<T>, b: seq<T>)
    requires multiset(a) == multiset(b)
    ensures forall i :: 0 <= i < |a| ==> a[i] in b
    ensures forall i :: 0 <= i < |b| ==> b[i] in a
  {
    forall i | 0 <= i < |a| ensures a[i] in b { assert a[i] in multiset(a); }
    forall i | 0 <= i < |b| ensures b[i] in a { assert b[i] in multiset(b); }
  }
}
