/** What type snapshots promise: they are hashable, and two partial-free
    types have equal snapshots exactly when they are the same type up to
    the order and repetition of union members. */
module TypeSnapshotProperties {

  import opened Wrappers
  import opened Types
  import opened Values
  import opened Sorting
  import opened TypeSnapshots

  /** Every snapshot is hashable, as the union case needs of its members'
      snapshots. */
  lemma {:induction false} SnapshotHashable(t: Type)
    requires NoPartial(t)
    ensures Hashable(SnapshotType(t))
    decreases t, 1
  {
    match t
    case UnboundType(_, _, _, args) => TypesHashable(args);
    case Instance(_, args) => TypesHashable(args);
    case TypeVarType(_, _, _, _, _, _) => TypeVarHashable(t);
    case CallableType(_, _, _, _, _, _) => CallableHashable(t);
    case TupleType(items) => TypesHashable(items);
    case TypedDictType(fields) => TypedDictHashable(fields);
    case UnionType(items) => UnionHashable(items);
    case Overloaded(items) => TypesHashable(items);
    case TypeType(item) => SnapshotHashable(item);
    case _ =>
  }

  lemma {:induction false} TypeVarHashable(t: Type)
    requires t.TypeVarType? && NoPartial(t)
    ensures Hashable(SnapshotType(t))
    decreases t, 0
  {
    TypesHashable(t.values);
    SnapshotHashable(t.upperBound);
  }

  lemma {:induction false} CallableHashable(t: Type)
    requires t.CallableType? && NoPartial(t)
    ensures Hashable(SnapshotType(t))
    decreases t, 0
  {
    TypesHashable(t.argTypes);
    SnapshotHashable(t.retType);
    var names := EncodeNames(t.argNames);
    assert forall i :: 0 <= i < |names| ==> Hashable(names[i]);
    assert Hashable(Tuple(names));
  }

  lemma {:induction false} TypedDictHashable(fields: seq<Field>)
    requires FieldsNoPartial(fields)
    ensures Hashable(SnapshotType(TypedDictType(fields)))
    decreases TypedDictType(fields), 0
  {
    FieldsHashable(fields);
    assert Hashable(Tuple(SnapshotFields(fields)));
  }

  /** The union case: normalising keeps only member snapshots, all of
      them hashable. */
  lemma {:induction false} UnionHashable(items: seq<Type>)
    requires AllNoPartial(items)
    ensures Hashable(SnapshotType(UnionType(items)))
    decreases UnionType(items), 0
  {
    EachHashable(items);
    var normalized := Tuple(Normalize(SnapshotEach(items)));
    NormalizedHashable(SnapshotEach(items));
    UnionSnapshotForm(items);
    assert Hashable(Tuple([Str("UnionType"), normalized]));
  }

  /** Normalising a sequence of hashable values gives a hashable tuple. */
  lemma NormalizedHashable(vs: seq<Value>)
    requires forall i :: 0 <= i < |vs| ==> Hashable(vs[i])
    ensures Hashable(Tuple(Normalize(vs)))
  {
    var normalized := Normalize(vs);
    assert forall i :: 0 <= i < |normalized| ==> normalized[i] in vs;
  }

  lemma {:induction false} TypesHashable(ts: seq<Type>)
    requires AllNoPartial(ts)
    ensures Hashable(SnapshotTypes(ts))
    decreases ts, 1
  {
    EachHashable(ts);
  }

  lemma {:induction false} EachHashable(ts: seq<Type>)
    requires AllNoPartial(ts)
    ensures forall i :: 0 <= i < |ts| ==> Hashable(SnapshotEach(ts)[i])
    decreases ts, 0
  {
    forall i | 0 <= i < |ts|
      ensures Hashable(SnapshotEach(ts)[i])
    {
      SnapshotHashable(ts[i]);
    }
  }

  lemma {:induction false} FieldsHashable(fields: seq<Field>)
    requires FieldsNoPartial(fields)
    ensures forall i :: 0 <= i < |fields| ==> Hashable(SnapshotFields(fields)[i])
    decreases fields, 0
  {
    forall i | 0 <= i < |fields|
      ensures Hashable(SnapshotFields(fields)[i])
    {
      SnapshotHashable(fields[i].typ);
    }
  }

  /** Two types are the same up to the order and repetition of union
      members: the structural equality that snapshots are meant to decide. */
  predicate Equiv(t: Type, s: Type)
    decreases t, 1
  {
    match t
    case UnboundType(name, optional, emptyTupleIndex, args) =>
      && s.UnboundType? && name == s.name && optional == s.optional
      && emptyTupleIndex == s.emptyTupleIndex && EquivEach(args, s.args)
    case AnyType => s.AnyType?
    case NoneTyp => s.NoneTyp?
    case UninhabitedType => s.UninhabitedType?
    case ErasedType => s.ErasedType?
    case DeletedType => s.DeletedType?
    case Instance(typeName, args) =>
      s.Instance? && typeName == s.typeName && EquivEach(args, s.args)
    case TypeVarType(name, fullname, id, values, upperBound, variance) =>
      && s.TypeVarType? && name == s.name && fullname == s.fullname && id == s.id
      && EquivEach(values, s.values) && Equiv(upperBound, s.upperBound) && variance == s.variance
    case CallableType(argTypes, retType, argNames, argKinds, isTypeObj, isEllipsisArgs) =>
      && s.CallableType? && EquivEach(argTypes, s.argTypes) && Equiv(retType, s.retType)
      && argNames == s.argNames && argKinds == s.argKinds
      && isTypeObj == s.isTypeObj && isEllipsisArgs == s.isEllipsisArgs
    case TupleType(items) => s.TupleType? && EquivEach(items, s.items)
    case TypedDictType(fields) => s.TypedDictType? && EquivFields(fields, s.fields)
    case UnionType(items) => s.UnionType? && SameMembers(items, s.items)
    case Overloaded(items) => s.Overloaded? && EquivEach(items, s.items)
    case PartialType => s.PartialType?
    case TypeType(item) => s.TypeType? && Equiv(item, s.item)
  }

  /** Pointwise `Equiv`, for the order-sensitive type lists. */
  predicate EquivEach(xs: seq<Type>, ys: seq<Type>)
    decreases xs, 0
  {
    |xs| == |ys| && forall i :: 0 <= i < |xs| ==> Equiv(xs[i], ys[i])
  }

  /** The same keys in the same order, with `Equiv` types. */
  predicate EquivFields(fs: seq<Field>, gs: seq<Field>)
    decreases fs, 0
  {
    |fs| == |gs| && forall i :: 0 <= i < |fs| ==> fs[i].key == gs[i].key && Equiv(fs[i].typ, gs[i].typ)
  }

  /** Each member of either list has an `Equiv` member in the other. */
  predicate SameMembers(xs: seq<Type>, ys: seq<Type>)
    decreases xs, 1
  {
    && (forall i {:trigger HasPartner(xs[i], ys)} :: 0 <= i < |xs| ==> HasPartner(xs[i], ys))
    && (forall j {:trigger IsPartnered(xs, ys[j])} :: 0 <= j < |ys| ==> IsPartnered(xs, ys[j]))
  }

  /** `x` is `Equiv` to some member of `ys`. */
  predicate HasPartner(x: Type, ys: seq<Type>)
    decreases x, 2
  {
    exists j :: 0 <= j < |ys| && Equiv(x, ys[j])
  }

  /** Some member of `xs` is `Equiv` to `y`. */
  predicate IsPartnered(xs: seq<Type>, y: Type)
    decreases xs, 0
  {
    exists i :: 0 <= i < |xs| && Equiv(xs[i], y)
  }

  /** Equal snapshots mean the same type: the snapshot loses nothing but
      the order and repetition of union members, so no change goes
      unreported. */
  lemma {:induction false} SnapshotsEqualImplyEquiv(t: Type, s: Type)
    requires NoPartial(t) && NoPartial(s)
    requires SnapshotType(t) == SnapshotType(s)
    ensures Equiv(t, s)
    decreases t, 2
  {
    assert SnapshotType(t).items[0] == SnapshotType(s).items[0];
    TagIdentifiesVariant(t, s);
    if t.UnboundType? {
      UnboundSnapshotsEqual(t, s);
    } else if t.Instance? {
      InstanceSnapshotsEqual(t, s);
    } else if t.TypeVarType? {
      TypeVarSnapshotsEqual(t, s);
    } else if t.CallableType? {
      CallableSnapshotsEqual(t, s);
    } else if t.TupleType? {
      TupleSnapshotsEqual(t, s);
    } else if t.TypedDictType? {
      TypedDictSnapshotsEqual(t, s);
    } else if t.UnionType? {
      UnionSnapshotsEqual(t, s);
    } else if t.Overloaded? {
      OverloadedSnapshotsEqual(t, s);
    } else if t.TypeType? {
      TypeTypeSnapshotsEqual(t, s);
    }
  }

  lemma {:induction false} UnboundSnapshotsEqual(t: Type, s: Type)
    requires t.UnboundType? && s.UnboundType? && NoPartial(t) && NoPartial(s)
    requires SnapshotType(t) == SnapshotType(s)
    ensures Equiv(t, s)
    decreases t, 1
  {
    var a, b := SnapshotType(t), SnapshotType(s);
    assert a.items[1] == b.items[1] && a.items[2] == b.items[2] && a.items[3] == b.items[3];
    assert a.items[4] == b.items[4];
    EachEqualImpliesEquiv(t.args, s.args);
  }

  lemma {:induction false} InstanceSnapshotsEqual(t: Type, s: Type)
    requires t.Instance? && s.Instance? && NoPartial(t) && NoPartial(s)
    requires SnapshotType(t) == SnapshotType(s)
    ensures Equiv(t, s)
    decreases t, 1
  {
    var a, b := SnapshotType(t), SnapshotType(s);
    assert a.items[1] == b.items[1] && a.items[2] == b.items[2];
    EachEqualImpliesEquiv(t.args, s.args);
  }

  lemma {:induction false} TypeVarSnapshotsEqual(t: Type, s: Type)
    requires t.TypeVarType? && s.TypeVarType? && NoPartial(t) && NoPartial(s)
    requires SnapshotType(t) == SnapshotType(s)
    ensures Equiv(t, s)
    decreases t, 1
  {
    var a, b := SnapshotType(t), SnapshotType(s);
    assert a.items[1] == b.items[1] && a.items[2] == b.items[2];
    assert a.items[3] == b.items[3] && a.items[4] == b.items[4];
    assert a.items[5] == b.items[5] && a.items[6] == b.items[6] && a.items[7] == b.items[7];
    EachEqualImpliesEquiv(t.values, s.values);
    SnapshotsEqualImplyEquiv(t.upperBound, s.upperBound);
  }

  lemma {:induction false} CallableSnapshotsEqual(t: Type, s: Type)
    requires t.CallableType? && s.CallableType? && NoPartial(t) && NoPartial(s)
    requires SnapshotType(t) == SnapshotType(s)
    ensures Equiv(t, s)
    decreases t, 1
  {
    var a, b := SnapshotType(t), SnapshotType(s);
    assert a.items[1] == b.items[1] && a.items[2] == b.items[2];
    assert a.items[3] == b.items[3] && a.items[4] == b.items[4];
    assert a.items[5] == b.items[5] && a.items[6] == b.items[6];
    EachEqualImpliesEquiv(t.argTypes, s.argTypes);
    SnapshotsEqualImplyEquiv(t.retType, s.retType);
    EncodeNamesInjective(t.argNames, s.argNames);
    EncodeKindsInjective(t.argKinds, s.argKinds);
  }

  lemma {:induction false} TupleSnapshotsEqual(t: Type, s: Type)
    requires t.TupleType? && s.TupleType? && NoPartial(t) && NoPartial(s)
    requires SnapshotType(t) == SnapshotType(s)
    ensures Equiv(t, s)
    decreases t, 1
  {
    assert SnapshotType(t).items[1] == SnapshotType(s).items[1];
    EachEqualImpliesEquiv(t.items, s.items);
  }

  lemma {:induction false} TypedDictSnapshotsEqual(t: Type, s: Type)
    requires t.TypedDictType? && s.TypedDictType? && NoPartial(t) && NoPartial(s)
    requires SnapshotType(t) == SnapshotType(s)
    ensures Equiv(t, s)
    decreases t, 1
  {
    assert SnapshotType(t).items[1] == SnapshotType(s).items[1];
    FieldsEqualImplyEquiv(t.fields, s.fields);
  }

  lemma {:induction false} UnionSnapshotsEqual(t: Type, s: Type)
    requires t.UnionType? && s.UnionType? && NoPartial(t) && NoPartial(s)
    requires SnapshotType(t) == SnapshotType(s)
    ensures Equiv(t, s)
    decreases t, 1
  {
    assert SnapshotType(t).items[1] == SnapshotType(s).items[1];
    var ms, ns := SnapshotEach(t.items), SnapshotEach(s.items);
    assert Normalize(ms) == Normalize(ns);
    MembersMatched(t.items, s.items);
    MembersMatching(t.items, s.items);
  }

  /** Each member whose snapshot occurs among the other list's snapshots has
      an `Equiv` partner there. */
  lemma {:induction false} MembersMatched(xs: seq<Type>, ys: seq<Type>)
    requires AllNoPartial(xs) && AllNoPartial(ys)
    requires forall v :: v in SnapshotEach(xs) ==> v in SnapshotEach(ys)
    ensures forall i :: 0 <= i < |xs| ==> HasPartner(xs[i], ys)
    decreases xs, 0
  {
    var ms, ns := SnapshotEach(xs), SnapshotEach(ys);
    forall i | 0 <= i < |xs|
      ensures HasPartner(xs[i], ys)
    {
      assert ms[i] in ns;
      var j :| 0 <= j < |ns| && ns[j] == ms[i];
      SnapshotsEqualImplyEquiv(xs[i], ys[j]);
    }
  }

  lemma {:induction false} MembersMatching(xs: seq<Type>, ys: seq<Type>)
    requires AllNoPartial(xs) && AllNoPartial(ys)
    requires forall v :: v in SnapshotEach(ys) ==> v in SnapshotEach(xs)
    ensures forall j :: 0 <= j < |ys| ==> IsPartnered(xs, ys[j])
    decreases xs, 0
  {
    var ms, ns := SnapshotEach(xs), SnapshotEach(ys);
    forall j | 0 <= j < |ys|
      ensures IsPartnered(xs, ys[j])
    {
      assert ns[j] in ms;
      var i :| 0 <= i < |ms| && ms[i] == ns[j];
      SnapshotsEqualImplyEquiv(xs[i], ys[j]);
    }
  }

  lemma {:induction false} OverloadedSnapshotsEqual(t: Type, s: Type)
    requires t.Overloaded? && s.Overloaded? && NoPartial(t) && NoPartial(s)
    requires SnapshotType(t) == SnapshotType(s)
    ensures Equiv(t, s)
    decreases t, 1
  {
    assert SnapshotType(t).items[1] == SnapshotType(s).items[1];
    EachEqualImpliesEquiv(t.items, s.items);
  }

  lemma {:induction false} TypeTypeSnapshotsEqual(t: Type, s: Type)
    requires t.TypeType? && s.TypeType? && NoPartial(t) && NoPartial(s)
    requires SnapshotType(t) == SnapshotType(s)
    ensures Equiv(t, s)
    decreases t, 1
  {
    assert SnapshotType(t).items[1] == SnapshotType(s).items[1];
    SnapshotsEqualImplyEquiv(t.item, s.item);
  }

  lemma {:induction false} EachEqualImpliesEquiv(xs: seq<Type>, ys: seq<Type>)
    requires AllNoPartial(xs) && AllNoPartial(ys)
    requires SnapshotEach(xs) == SnapshotEach(ys)
    ensures EquivEach(xs, ys)
    decreases xs, 0
  {
    forall i | 0 <= i < |xs|
      ensures Equiv(xs[i], ys[i])
    {
      SnapshotsEqualImplyEquiv(xs[i], ys[i]);
    }
  }

  lemma {:induction false} FieldsEqualImplyEquiv(fs: seq<Field>, gs: seq<Field>)
    requires FieldsNoPartial(fs) && FieldsNoPartial(gs)
    requires SnapshotFields(fs) == SnapshotFields(gs)
    ensures EquivFields(fs, gs)
    decreases fs, 0
  {
    forall i | 0 <= i < |fs|
      ensures fs[i].key == gs[i].key && Equiv(fs[i].typ, gs[i].typ)
    {
      var p, q := SnapshotFields(fs)[i], SnapshotFields(gs)[i];
      assert p.items[0] == q.items[0] && p.items[1] == q.items[1];
      SnapshotsEqualImplyEquiv(fs[i].typ, gs[i].typ);
    }
  }

  lemma EncodeNamesInjective(xs: seq<Option<string>>, ys: seq<Option<string>>)
    requires EncodeNames(xs) == EncodeNames(ys)
    ensures xs == ys
  {
    var a, b := EncodeNames(xs), EncodeNames(ys);
    forall i | 0 <= i < |xs|
      ensures xs[i] == ys[i]
    {
      assert a[i] == b[i];
    }
  }

  lemma EncodeKindsInjective(xs: seq<int>, ys: seq<int>)
    requires EncodeKinds(xs) == EncodeKinds(ys)
    ensures xs == ys
  {
    var a, b := EncodeKinds(xs), EncodeKinds(ys);
    forall i | 0 <= i < |xs|
      ensures xs[i] == ys[i]
    {
      assert a[i] == b[i];
    }
  }

  /** The same type up to union order and repetition has the same snapshot. */
  lemma {:induction false} EquivImpliesSnapshotsEqual(t: Type, s: Type)
    requires NoPartial(t) && NoPartial(s)
    requires Equiv(t, s)
    ensures SnapshotType(t) == SnapshotType(s)
    decreases t, 2
  {
    match t
    case UnboundType(_, _, _, args) => EachEquivImpliesEqual(args, s.args);
    case Instance(_, args) => EachEquivImpliesEqual(args, s.args);
    case TypeVarType(_, _, _, values, upperBound, _) =>
      EachEquivImpliesEqual(values, s.values);
      EquivImpliesSnapshotsEqual(upperBound, s.upperBound);
    case CallableType(argTypes, retType, _, _, _, _) =>
      EachEquivImpliesEqual(argTypes, s.argTypes);
      EquivImpliesSnapshotsEqual(retType, s.retType);
    case TupleType(items) => EachEquivImpliesEqual(items, s.items);
    case TypedDictType(fields) => FieldsEquivImplyEqual(fields, s.fields);
    case UnionType(items) => UnionEquivImpliesEqual(items, s.items);
    case Overloaded(items) => EachEquivImpliesEqual(items, s.items);
    case TypeType(item) => EquivImpliesSnapshotsEqual(item, s.item);
    case _ =>
  }

  lemma {:induction false} UnionEquivImpliesEqual(xs: seq<Type>, ys: seq<Type>)
    requires AllNoPartial(xs) && AllNoPartial(ys)
    requires SameMembers(xs, ys)
    ensures Normalize(SnapshotEach(xs)) == Normalize(SnapshotEach(ys))
    decreases xs, 1
  {
    SnapshotsCovered(xs, ys);
    SnapshotsCovering(xs, ys);
    NormalizeCanonical(SnapshotEach(xs), SnapshotEach(ys));
  }

  /** A member with an `Equiv` partner contributes a snapshot the other
      list also has. */
  lemma {:induction false} SnapshotsCovered(xs: seq<Type>, ys: seq<Type>)
    requires AllNoPartial(xs) && AllNoPartial(ys)
    requires SameMembers(xs, ys)
    ensures forall v :: v in SnapshotEach(xs) ==> v in SnapshotEach(ys)
    decreases xs, 0
  {
    var ms, ns := SnapshotEach(xs), SnapshotEach(ys);
    forall v | v in ms
      ensures v in ns
    {
      var i :| 0 <= i < |ms| && ms[i] == v;
      assert HasPartner(xs[i], ys);
      var j :| 0 <= j < |ys| && Equiv(xs[i], ys[j]);
      EquivImpliesSnapshotsEqual(xs[i], ys[j]);
      assert ns[j] == v;
    }
  }

  lemma {:induction false} SnapshotsCovering(xs: seq<Type>, ys: seq<Type>)
    requires AllNoPartial(xs) && AllNoPartial(ys)
    requires SameMembers(xs, ys)
    ensures forall v :: v in SnapshotEach(ys) ==> v in SnapshotEach(xs)
    decreases xs, 0
  {
    var ms, ns := SnapshotEach(xs), SnapshotEach(ys);
    forall v | v in ns
      ensures v in ms
    {
      var j :| 0 <= j < |ns| && ns[j] == v;
      assert IsPartnered(xs, ys[j]);
      var i :| 0 <= i < |xs| && Equiv(xs[i], ys[j]);
      EquivImpliesSnapshotsEqual(xs[i], ys[j]);
      assert ms[i] == v;
    }
  }

  lemma {:induction false} EachEquivImpliesEqual(xs: seq<Type>, ys: seq<Type>)
    requires AllNoPartial(xs) && AllNoPartial(ys)
    requires EquivEach(xs, ys)
    ensures SnapshotEach(xs) == SnapshotEach(ys)
    ensures SnapshotTypes(xs) == SnapshotTypes(ys)
    decreases xs, 0
  {
    forall i | 0 <= i < |xs|
      ensures SnapshotType(xs[i]) == SnapshotType(ys[i])
    {
      EquivImpliesSnapshotsEqual(xs[i], ys[i]);
    }
  }

  lemma {:induction false} FieldsEquivImplyEqual(fs: seq<Field>, gs: seq<Field>)
    requires FieldsNoPartial(fs) && FieldsNoPartial(gs)
    requires EquivFields(fs, gs)
    ensures SnapshotFields(fs) == SnapshotFields(gs)
    decreases fs, 0
  {
    forall i | 0 <= i < |fs|
      ensures SnapshotType(fs[i].typ) == SnapshotType(gs[i].typ)
    {
      EquivImpliesSnapshotsEqual(fs[i].typ, gs[i].typ);
    }
  }

  /** Snapshot equality decides `Equiv`, in both directions. */
  lemma SnapshotsEqualIffEquiv(t: Type, s: Type)
    requires NoPartial(t) && NoPartial(s)
    ensures SnapshotType(t) == SnapshotType(s) <==> Equiv(t, s)
  {
    if SnapshotType(t) == SnapshotType(s) {
      SnapshotsEqualImplyEquiv(t, s);
    } else if Equiv(t, s) {
      EquivImpliesSnapshotsEqual(t, s);
    }
  }

  /** Two unions with the same members, in any order and with any
      repetition, have the same snapshot. */
  lemma UnionSnapshotIgnoresOrder(xs: seq<Type>, ys: seq<Type>)
    requires AllNoPartial(xs) && AllNoPartial(ys)
    requires forall x :: x in xs <==> x in ys
    ensures SnapshotType(UnionType(xs)) == SnapshotType(UnionType(ys))
  {
    SameMembersSameNormalForm(xs, ys);
    UnionSnapshotForm(xs);
    UnionSnapshotForm(ys);
  }

  lemma UnionSnapshotForm(xs: seq<Type>)
    requires AllNoPartial(xs)
    ensures SnapshotType(UnionType(xs)) == Tuple([Str("UnionType"), Tuple(Normalize(SnapshotEach(xs)))])
  {
  }

  lemma SameMembersSameNormalForm(xs: seq<Type>, ys: seq<Type>)
    requires AllNoPartial(xs) && AllNoPartial(ys)
    requires forall x :: x in xs <==> x in ys
    ensures Normalize(SnapshotEach(xs)) == Normalize(SnapshotEach(ys))
  {
    MembersSnapshotsIncluded(xs, ys);
    MembersSnapshotsIncluded(ys, xs);
    NormalizeCanonical(SnapshotEach(xs), SnapshotEach(ys));
  }

  /** Every member snapshot of `xs` is the snapshot of some member of `ys`
      when each member of `xs` is also a member of `ys`. */
  lemma MembersSnapshotsIncluded(xs: seq<Type>, ys: seq<Type>)
    requires AllNoPartial(xs) && AllNoPartial(ys)
    requires forall x :: x in xs ==> x in ys
    ensures forall v :: v in SnapshotEach(xs) ==> v in SnapshotEach(ys)
  {
    var ms, ns := SnapshotEach(xs), SnapshotEach(ys);
    forall v | v in ms
      ensures v in ns
    {
      var i :| 0 <= i < |ms| && ms[i] == v;
      assert xs[i] in ys;
      var j :| 0 <= j < |ys| && ys[j] == xs[i];
      assert ns[j] == v;
    }
  }
}
