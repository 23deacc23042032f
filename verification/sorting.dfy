/** `tuple(sorted(set_of_values))`: the normal form of a union's member
    snapshots, as a strictly increasing sequence under `Values.Less`. */
module Sorting {

  import opened Values

  predicate StrictlySorted(s: seq<Value>)
  {
    forall i, j :: 0 <= i < j < |s| ==> Less(s[i], s[j])
  }

  /** Adds `x` to a strictly sorted sequence unless it is already there. */
  function Insert(x: Value, s: seq<Value>): (r: seq<Value>)
    requires StrictlySorted(s)
    ensures StrictlySorted(r)
    ensures forall v :: v in r <==> v == x || v in s
    decreases |s|
  {
    if |s| == 0 then [x]
    else if x == s[0] then s
    else if Less(x, s[0]) then
      LessAll(x, s);
      [x] + s
    else
      LessTotal(x, s[0]);
      var rest := Insert(x, s[1..]);
      assert forall v :: v in rest ==> Less(s[0], v);
      [s[0]] + rest
  }

  /** An element below the head of a strictly sorted sequence is below all of it. */
  lemma LessAll(x: Value, s: seq<Value>)
    requires StrictlySorted(s) && |s| > 0 && Less(x, s[0])
    ensures forall j :: 0 <= j < |s| ==> Less(x, s[j])
  {
    forall j | 0 < j < |s|
      ensures Less(x, s[j])
    {
      LessTransitive(x, s[0], s[j]);
    }
  }

  /** The set of `xs`, sorted: duplicates dropped, order forgotten. */
  function Normalize(xs: seq<Value>): (r: seq<Value>)
    ensures StrictlySorted(r)
    ensures forall v :: v in r <==> v in xs
  {
    if |xs| == 0 then [] else Insert(xs[0], Normalize(xs[1..]))
  }

  /** Two strictly sorted sequences with the same elements are equal. */
  lemma {:induction false} SortedUnique(a: seq<Value>, b: seq<Value>)
    requires StrictlySorted(a) && StrictlySorted(b)
    requires forall v :: v in a <==> v in b
    ensures a == b
    decreases |a|
  {
    assert |a| > 0 <==> |b| > 0 by {
      if |a| > 0 { assert a[0] in a; }
      if |b| > 0 { assert b[0] in b; }
    }
    if |a| > 0 {
      assert a[0] in a;
      assert a[0] in b;
      assert b[0] in a;
      if a[0] != b[0] {
        var i :| 0 <= i < |a| && a[i] == b[0];
        var j :| 0 <= j < |b| && b[j] == a[0];
        assert Less(a[0], b[0]) && Less(b[0], a[0]);
        LessTransitive(a[0], b[0], a[0]);
        LessIrreflexive(a[0]);
      }
      forall v
        ensures v in a[1..] <==> v in b[1..]
      {
        if v in a[1..] {
          var i :| 1 <= i < |a| && a[i] == v;
          assert Less(a[0], v);
          LessIrreflexive(v);
          assert v in b;
          var j :| 0 <= j < |b| && b[j] == v;
          assert j != 0;
        }
        if v in b[1..] {
          var j :| 1 <= j < |b| && b[j] == v;
          assert Less(b[0], v);
          LessIrreflexive(v);
          assert v in a;
          var i :| 0 <= i < |a| && a[i] == v;
          assert i != 0;
        }
      }
      SortedUnique(a[1..], b[1..]);
      assert a == [a[0]] + a[1..] && b == [b[0]] + b[1..];
    }
  }

  /** The normal form depends only on which values occur, not on their
      order or repetition. */
  lemma NormalizeCanonical(xs: seq<Value>, ys: seq<Value>)
    requires forall v :: v in xs <==> v in ys
    ensures Normalize(xs) == Normalize(ys)
  {
    SortedUnique(Normalize(xs), Normalize(ys));
  }
}
