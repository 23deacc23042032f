/** Snapshot values: the nested tuples, lists, strings, integers, booleans
    and `None` that `SnapshotTypeVisitor` builds, e.g. the snapshot of
    `int` is `Tuple([Str("Instance"), Str("builtins.int"), Tuple([])])`.

    Snapshots are only ever compared for equality, but the union case sorts
    member snapshots, so this module also fixes a strict total order on
    values and proves that it is one. */
module Values {

  datatype Value =
    | Null
    | Bool(b: bool)
    | Int(i: int)
    | Str(s: string)
    | Tuple(items: seq<Value>)
    | List(items: seq<Value>)

  /** Python can hash tuples, strings, integers, booleans and `None`, but not
      lists, and a tuple is hashable only when all its items are. */
  predicate Hashable(v: Value)
    decreases v
  {
    match v
    case List(_) => false
    case Tuple(items) => forall i :: 0 <= i < |items| ==> Hashable(items[i])
    case _ => true
  }

  /** Position of a value's constructor in the order: values of different
      constructors compare by this rank alone. */
  function Rank(v: Value): nat
  {
    match v
    case Null => 0
    case Bool(_) => 1
    case Int(_) => 2
    case Str(_) => 3
    case Tuple(_) => 4
    case List(_) => 5
  }

  /** Lexicographic order on strings, character by character. */
  predicate StrLess(a: string, b: string)
  {
    if |a| == 0 then |b| > 0
    else if |b| == 0 then false
    else a[0] < b[0] || (a[0] == b[0] && StrLess(a[1..], b[1..]))
  }

  /** The strict order on values: by constructor rank, then by payload,
      sequences lexicographically. */
  predicate Less(a: Value, b: Value)
    decreases a
  {
    if Rank(a) != Rank(b) then Rank(a) < Rank(b)
    else match a
      case Null => false
      case Bool(x) => !x && b.b
      case Int(x) => x < b.i
      case Str(x) => StrLess(x, b.s)
      case Tuple(xs) => SeqLess(xs, b.items)
      case List(xs) => SeqLess(xs, b.items)
  }

  /** Lexicographic order on sequences of values. */
  predicate SeqLess(xs: seq<Value>, ys: seq<Value>)
    decreases xs
  {
    if |xs| == 0 then |ys| > 0
    else if |ys| == 0 then false
    else Less(xs[0], ys[0]) || (xs[0] == ys[0] && SeqLess(xs[1..], ys[1..]))
  }

  lemma {:induction false} StrLessIrreflexive(a: string)
    ensures !StrLess(a, a)
    decreases |a|
  {
    if |a| > 0 {
      StrLessIrreflexive(a[1..]);
    }
  }

  lemma {:induction false} StrLessTransitive(a: string, b: string, c: string)
    requires StrLess(a, b) && StrLess(b, c)
    ensures StrLess(a, c)
    decreases |a|
  {
    if |a| > 0 && a[0] == b[0] && b[0] == c[0] {
      if StrLess(a[1..], b[1..]) && StrLess(b[1..], c[1..]) {
        StrLessTransitive(a[1..], b[1..], c[1..]);
      }
    }
  }

  lemma {:induction false} StrLessTotal(a: string, b: string)
    ensures a == b || StrLess(a, b) || StrLess(b, a)
    decreases |a|
  {
    if |a| > 0 && |b| > 0 && a[0] == b[0] {
      StrLessTotal(a[1..], b[1..]);
      if a[1..] == b[1..] {
        assert a == [a[0]] + a[1..] && b == [b[0]] + b[1..];
      }
    }
  }

  lemma {:induction false} LessIrreflexive(a: Value)
    ensures !Less(a, a)
    decreases a
  {
    match a
    case Str(x) => StrLessIrreflexive(x);
    case Tuple(xs) => SeqLessIrreflexive(xs);
    case List(xs) => SeqLessIrreflexive(xs);
    case _ =>
  }

  lemma {:induction false} SeqLessIrreflexive(xs: seq<Value>)
    ensures !SeqLess(xs, xs)
    decreases xs
  {
    if |xs| > 0 {
      LessIrreflexive(xs[0]);
      SeqLessIrreflexive(xs[1..]);
    }
  }

  lemma {:induction false} LessTransitive(a: Value, b: Value, c: Value)
    requires Less(a, b) && Less(b, c)
    ensures Less(a, c)
    decreases a
  {
    if Rank(a) == Rank(b) == Rank(c) {
      match a
      case Str(x) => StrLessTransitive(x, b.s, c.s);
      case Tuple(xs) => SeqLessTransitive(xs, b.items, c.items);
      case List(xs) => SeqLessTransitive(xs, b.items, c.items);
      case _ =>
    }
  }

  lemma {:induction false} SeqLessTransitive(xs: seq<Value>, ys: seq<Value>, zs: seq<Value>)
    requires SeqLess(xs, ys) && SeqLess(ys, zs)
    ensures SeqLess(xs, zs)
    decreases xs
  {
    if |xs| > 0 {
      if Less(xs[0], ys[0]) && Less(ys[0], zs[0]) {
        LessTransitive(xs[0], ys[0], zs[0]);
      } else if xs[0] == ys[0] && ys[0] == zs[0] {
        SeqLessTransitive(xs[1..], ys[1..], zs[1..]);
      }
    }
  }

  lemma {:induction false} LessTotal(a: Value, b: Value)
    ensures a == b || Less(a, b) || Less(b, a)
    decreases a
  {
    if Rank(a) == Rank(b) {
      match a
      case Str(x) => StrLessTotal(x, b.s);
      case Tuple(xs) => SeqLessTotal(xs, b.items);
      case List(xs) => SeqLessTotal(xs, b.items);
      case _ =>
    }
  }

  lemma {:induction false} SeqLessTotal(xs: seq<Value>, ys: seq<Value>)
    ensures xs == ys || SeqLess(xs, ys) || SeqLess(ys, xs)
    decreases xs
  {
    if |xs| > 0 && |ys| > 0 {
      LessTotal(xs[0], ys[0]);
      if xs[0] == ys[0] {
        SeqLessTotal(xs[1..], ys[1..]);
        if xs[1..] == ys[1..] {
          assert xs == [xs[0]] + xs[1..] && ys == [ys[0]] + ys[1..];
        }
      }
    }
  }

  /** `Less` is a strict total order: irreflexive, transitive and total. */
  lemma LessIsStrictTotalOrder(a: Value, b: Value, c: Value)
    ensures !Less(a, a)
    ensures Less(a, b) && Less(b, c) ==> Less(a, c)
    ensures a == b || Less(a, b) || Less(b, a)
  {
    LessIrreflexive(a);
    if Less(a, b) && Less(b, c) {
      LessTransitive(a, b, c);
    }
    LessTotal(a, b);
  }

  /** Python's `a < b` returns instead of raising `TypeError`: numbers
      (booleans included) compare with numbers, strings with strings, and
      tuples with tuples and lists with lists, element by element up to the
      first pair that differs. `None` compares with nothing. */
  predicate Comparable(a: Value, b: Value)
    decreases a
  {
    match a
    case Null => false
    case Bool(_) => b.Bool? || b.Int?
    case Int(_) => b.Bool? || b.Int?
    case Str(_) => b.Str?
    case Tuple(xs) => b.Tuple? && SeqComparable(xs, b.items)
    case List(xs) => b.List? && SeqComparable(xs, b.items)
  }

  /** Sequence comparison skips the equal prefix and compares the first
      differing pair; a sequence that runs out first is the smaller. */
  predicate SeqComparable(xs: seq<Value>, ys: seq<Value>)
    decreases xs
  {
    if |xs| == 0 || |ys| == 0 then true
    else if xs[0] == ys[0] then SeqComparable(xs[1..], ys[1..])
    else Comparable(xs[0], ys[0])
  }

  /** Two sequences compare when every pair of differing elements at the
      same position does. */
  lemma {:induction false} SeqComparablePointwise(xs: seq<Value>, ys: seq<Value>)
    requires forall i :: 0 <= i < |xs| && i < |ys| && xs[i] != ys[i] ==> Comparable(xs[i], ys[i])
    ensures SeqComparable(xs, ys)
    decreases |xs|
  {
    if |xs| > 0 && |ys| > 0 && xs[0] == ys[0] {
      forall i | 0 <= i < |xs[1..]| && i < |ys[1..]| && xs[1..][i] != ys[1..][i]
        ensures Comparable(xs[1..][i], ys[1..][i])
      {
        assert xs[1..][i] == xs[i + 1] && ys[1..][i] == ys[i + 1];
      }
      SeqComparablePointwise(xs[1..], ys[1..]);
    }
  }
}
