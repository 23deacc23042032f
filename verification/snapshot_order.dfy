/** The corrected type snapshots can always be sorted: Python's `<` returns,
    rather than raising `TypeError`, between any two of them. The union case
    of `SnapshotTypeVisitor` sorts the set of its member snapshots, so this
    is what lets every union be snapshotted, together with hashability. */
module SnapshotOrder {

  import opened Wrappers
  import opened Types
  import opened Values
  import opened Sorting
  import opened TypeSnapshots

  /** Any two snapshots compare with `<`: both are tuples led by a tag
      string, and when the tags agree the same positions hold values of the
      same kind. */
  lemma {:induction false} SnapshotsComparable(t: Type, s: Type)
    requires NoPartial(t) && NoPartial(s)
    ensures Comparable(SnapshotType(t), SnapshotType(s))
    decreases t, 2
  {
    var a, b := SnapshotType(t), SnapshotType(s);
    if Tag(t) != Tag(s) {
      assert a.items[0] != b.items[0];
      assert SeqComparable(a.items, b.items);
    } else {
      TagIdentifiesVariant(t, s);
      if IsSimple(t) {
        SeqComparablePointwise(a.items, b.items);
      } else {
        match t
        case UnboundType(_, _, _, _) => UnboundComparable(t, s);
        case Instance(_, _) => InstanceComparable(t, s);
        case TypeVarType(_, _, _, _, _, _) => TypeVarComparable(t, s);
        case CallableType(_, _, _, _, _, _) => CallableComparable(t, s);
        case TupleType(items) =>
          EachComparable(items, s.items);
          assert a.items[1] == SnapshotTypes(items) && b.items[1] == SnapshotTypes(s.items);
          SeqComparablePointwise(a.items, b.items);
        case TypedDictType(fields) =>
          FieldsComparable(fields, s.fields);
          SeqComparablePointwise(a.items, b.items);
        case UnionType(_) => UnionComparable(t, s);
        case Overloaded(items) =>
          EachComparable(items, s.items);
          assert a.items[1] == SnapshotTypes(items) && b.items[1] == SnapshotTypes(s.items);
          SeqComparablePointwise(a.items, b.items);
        case TypeType(item) =>
          SnapshotsComparable(item, s.item);
          SeqComparablePointwise(a.items, b.items);
      }
    }
  }

  /** The members of a union compare pairwise, so `sorted` of their
      snapshot set returns. */
  lemma UnionMembersSortable(items: seq<Type>)
    requires AllNoPartial(items)
    ensures forall v, w :: v in SnapshotEach(items) && w in SnapshotEach(items) ==> Comparable(v, w)
  {
    var members := SnapshotEach(items);
    forall v, w | v in members && w in members
      ensures Comparable(v, w)
    {
      var i :| 0 <= i < |items| && members[i] == v;
      var j :| 0 <= j < |items| && members[j] == w;
      SnapshotsComparable(items[i], items[j]);
    }
  }

  lemma {:induction false} EachComparable(ts: seq<Type>, us: seq<Type>)
    requires AllNoPartial(ts) && AllNoPartial(us)
    ensures Comparable(Tuple(SnapshotEach(ts)), Tuple(SnapshotEach(us)))
    decreases ts, 1
  {
    var xs, ys := SnapshotEach(ts), SnapshotEach(us);
    forall i | 0 <= i < |xs| && i < |ys| && xs[i] != ys[i]
      ensures Comparable(xs[i], ys[i])
    {
      SnapshotsComparable(ts[i], us[i]);
    }
    SeqComparablePointwise(xs, ys);
  }

  lemma {:induction false} FieldsComparable(fs: seq<Field>, gs: seq<Field>)
    requires FieldsNoPartial(fs) && FieldsNoPartial(gs)
    ensures Comparable(Tuple(SnapshotFields(fs)), Tuple(SnapshotFields(gs)))
    decreases fs, 1
  {
    var xs, ys := SnapshotFields(fs), SnapshotFields(gs);
    forall i | 0 <= i < |xs| && i < |ys| && xs[i] != ys[i]
      ensures Comparable(xs[i], ys[i])
    {
      FieldComparable(fs[i], gs[i]);
    }
    SeqComparablePointwise(xs, ys);
  }

  lemma {:induction false} FieldComparable(f: Field, g: Field)
    requires NoPartial(f.typ) && NoPartial(g.typ)
    ensures Comparable(Tuple([Str(f.key), SnapshotType(f.typ)]), Tuple([Str(g.key), SnapshotType(g.typ)]))
    decreases f, 0
  {
    SnapshotsComparable(f.typ, g.typ);
    SeqComparablePointwise([Str(f.key), SnapshotType(f.typ)], [Str(g.key), SnapshotType(g.typ)]);
  }

  lemma NamesComparable(ns: seq<Option<string>>, ms: seq<Option<string>>)
    ensures Comparable(Tuple(EncodeNames(ns)), Tuple(EncodeNames(ms)))
  {
    var xs, ys := EncodeNames(ns), EncodeNames(ms);
    forall i | 0 <= i < |xs| && i < |ys| && xs[i] != ys[i]
      ensures Comparable(xs[i], ys[i])
    {
      SeqComparablePointwise(xs[i].items, ys[i].items);
    }
    SeqComparablePointwise(xs, ys);
  }

  lemma KindsComparable(ks: seq<int>, ls: seq<int>)
    ensures Comparable(Tuple(EncodeKinds(ks)), Tuple(EncodeKinds(ls)))
  {
    SeqComparablePointwise(EncodeKinds(ks), EncodeKinds(ls));
  }

  lemma {:induction false} UnboundComparable(t: Type, s: Type)
    requires t.UnboundType? && s.UnboundType? && NoPartial(t) && NoPartial(s)
    ensures Comparable(SnapshotType(t), SnapshotType(s))
    decreases t, 1
  {
    EachComparable(t.args, s.args);
    var a, b := SnapshotType(t), SnapshotType(s);
    assert a.items[4] == Tuple(SnapshotEach(t.args)) && b.items[4] == Tuple(SnapshotEach(s.args));
    SeqComparablePointwise(a.items, b.items);
  }

  lemma {:induction false} InstanceComparable(t: Type, s: Type)
    requires t.Instance? && s.Instance? && NoPartial(t) && NoPartial(s)
    ensures Comparable(SnapshotType(t), SnapshotType(s))
    decreases t, 1
  {
    EachComparable(t.args, s.args);
    var a, b := SnapshotType(t), SnapshotType(s);
    assert a.items[2] == Tuple(SnapshotEach(t.args)) && b.items[2] == Tuple(SnapshotEach(s.args));
    SeqComparablePointwise(a.items, b.items);
  }

  lemma {:induction false} TypeVarComparable(t: Type, s: Type)
    requires t.TypeVarType? && s.TypeVarType? && NoPartial(t) && NoPartial(s)
    ensures Comparable(SnapshotType(t), SnapshotType(s))
    decreases t, 1
  {
    EachComparable(t.values, s.values);
    SnapshotsComparable(t.upperBound, s.upperBound);
    var a, b := SnapshotType(t), SnapshotType(s);
    assert a.items[5] == Tuple(SnapshotEach(t.values)) && b.items[5] == Tuple(SnapshotEach(s.values));
    SeqComparablePointwise(a.items, b.items);
  }

  lemma {:induction false} CallableComparable(t: Type, s: Type)
    requires t.CallableType? && s.CallableType? && NoPartial(t) && NoPartial(s)
    ensures Comparable(SnapshotType(t), SnapshotType(s))
    decreases t, 1
  {
    EachComparable(t.argTypes, s.argTypes);
    SnapshotsComparable(t.retType, s.retType);
    NamesComparable(t.argNames, s.argNames);
    KindsComparable(t.argKinds, s.argKinds);
    var a := [Str("CallableType"), SnapshotTypes(t.argTypes), SnapshotType(t.retType),
              Tuple(EncodeNames(t.argNames)), Tuple(EncodeKinds(t.argKinds)),
              Bool(t.isTypeObj), Bool(t.isEllipsisArgs)];
    var b := [Str("CallableType"), SnapshotTypes(s.argTypes), SnapshotType(s.retType),
              Tuple(EncodeNames(s.argNames)), Tuple(EncodeKinds(s.argKinds)),
              Bool(s.isTypeObj), Bool(s.isEllipsisArgs)];
    SeqComparablePointwise(a, b);
    assert SnapshotType(t) == Tuple(a) && SnapshotType(s) == Tuple(b);
  }

  lemma {:induction false} UnionComparable(t: Type, s: Type)
    requires t.UnionType? && s.UnionType? && NoPartial(t) && NoPartial(s)
    ensures Comparable(SnapshotType(t), SnapshotType(s))
    decreases t, 1
  {
    var ms, ns := SnapshotEach(t.items), SnapshotEach(s.items);
    var xs, ys := Normalize(ms), Normalize(ns);
    forall i | 0 <= i < |xs| && i < |ys| && xs[i] != ys[i]
      ensures Comparable(xs[i], ys[i])
    {
      assert xs[i] in ms && ys[i] in ns;
      var k :| 0 <= k < |ms| && ms[k] == xs[i];
      var m :| 0 <= m < |ns| && ns[m] == ys[i];
      SnapshotsComparable(t.items[k], s.items[m]);
    }
    SeqComparablePointwise(xs, ys);
    var a, b := SnapshotType(t), SnapshotType(s);
    SeqComparablePointwise(a.items, b.items);
  }
}
