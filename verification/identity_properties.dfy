/** What the identity comparison promises: on types without type variables
    it calls two types identical exactly when they are the same up to the
    order of TypedDict fields (plain equality when there is no TypedDict
    either), it calls every reliable type identical to itself, and it is
    deliberately cruder than snapshots in two places. */
module IdentityProperties {

  import opened Wrappers
  import opened Types
  import opened Identity
  import TypeSnapshots
  import TypeSnapshotProperties
  import Values

  /** A type the comparison can recognise as identical to a copy of itself:
      no unbound, erased or partial type anywhere, and TypedDict keys
      distinct as in a Python dict. */
  predicate Reliable(t: Type)
    decreases t, 1
  {
    match t
    case UnboundType(_, _, _, _) => false
    case ErasedType => false
    case PartialType => false
    case Instance(_, args) => AllReliable(args)
    case CallableType(argTypes, retType, _, _, _, _) => AllReliable(argTypes) && Reliable(retType)
    case TupleType(items) => AllReliable(items)
    case TypedDictType(fields) =>
      DistinctKeys(fields) && forall i :: 0 <= i < |fields| ==> Reliable(fields[i].typ)
    case UnionType(items) => AllReliable(items)
    case Overloaded(items) => AllReliable(items)
    case TypeType(item) => Reliable(item)
    case _ => true
  }

  predicate AllReliable(ts: seq<Type>)
    decreases ts, 0
  {
    forall i :: 0 <= i < |ts| ==> Reliable(ts[i])
  }

  /** A type without type variables and TypedDicts: for these the
      comparison looks at every field, in order. A TypedDict is compared
      key by key instead (`SameUpToFieldOrder`). */
  predicate Rigid(t: Type)
    decreases t, 1
  {
    match t
    case TypeVarType(_, _, _, _, _, _) => false
    case TypedDictType(_) => false
    case UnboundType(_, _, _, args) => AllRigid(args)
    case Instance(_, args) => AllRigid(args)
    case CallableType(argTypes, retType, _, _, _, _) => AllRigid(argTypes) && Rigid(retType)
    case TupleType(items) => AllRigid(items)
    case UnionType(items) => AllRigid(items)
    case Overloaded(items) => AllRigid(items)
    case TypeType(item) => Rigid(item)
    case _ => true
  }

  predicate AllRigid(ts: seq<Type>)
    decreases ts, 0
  {
    forall i :: 0 <= i < |ts| ==> Rigid(ts[i])
  }

  /** Every reliable type is identical to itself (and so to any structural
      copy of itself). */
  lemma {:induction false} IdenticalToItself(t: Type)
    requires Reliable(t)
    ensures IsIdenticalType(t, t) == Some(true)
    decreases t, 1
  {
    match t
    case Instance(_, args) => EachIdenticalToItself(args);
    case CallableType(argTypes, retType, _, _, _, _) =>
      EachIdenticalToItself(argTypes);
      IdenticalToItself(retType);
    case TupleType(items) => EachIdenticalToItself(items);
    case TypedDictType(fields) =>
      forall i | 0 <= i < |fields|
        ensures IsIdenticalType(fields[i].typ, Lookup(fields, fields[i].key).value) == Some(true)
      {
        LookupFinds(fields, i);
        IdenticalToItself(fields[i].typ);
      }
    case UnionType(items) => EachIdenticalToItself(items);
    case Overloaded(items) => EachIdenticalToItself(items);
    case TypeType(item) => IdenticalToItself(item);
    case _ =>
  }

  lemma {:induction false} EachIdenticalToItself(ts: seq<Type>)
    requires AllReliable(ts)
    ensures IsIdenticalTypes(ts, ts) == Some(true)
    decreases ts, 0
  {
    forall i | 0 <= i < |ts|
      ensures IsIdenticalType(ts[i], ts[i]) == Some(true)
    {
      IdenticalToItself(ts[i]);
    }
  }

  /** No false positives: a rigid type is identical only to itself. */
  lemma {:induction false} IdenticalImpliesEqual(t: Type, s: Type)
    requires Rigid(t)
    requires IsIdenticalType(t, s) == Some(true)
    ensures t == s
    decreases t, 1
  {
    match t
    case Instance(_, args) => EachIdenticalImpliesEqual(args, s.args);
    case CallableType(argTypes, retType, _, _, _, _) =>
      IdenticalImpliesEqual(retType, s.retType);
      EachIdenticalImpliesEqual(argTypes, s.argTypes);
    case TupleType(items) => EachIdenticalImpliesEqual(items, s.items);
    case UnionType(items) => EachIdenticalImpliesEqual(items, s.items);
    case Overloaded(items) => EachIdenticalImpliesEqual(items, s.items);
    case TypeType(item) => IdenticalImpliesEqual(item, s.item);
    case _ =>
  }

  lemma {:induction false} EachIdenticalImpliesEqual(xs: seq<Type>, ys: seq<Type>)
    requires AllRigid(xs)
    requires IsIdenticalTypes(xs, ys) == Some(true)
    ensures xs == ys
    decreases xs, 0
  {
    forall i | 0 <= i < |xs|
      ensures xs[i] == ys[i]
    {
      IdenticalImpliesEqual(xs[i], ys[i]);
    }
  }

  /** No false positives for a TypedDict either, up to the order of its
      fields: an identical TypedDict has the same keys, and the same type
      under every key, when the left one's field types are rigid. */
  lemma IdenticalTypedDictsAgree(t: Type, s: Type)
    requires t.TypedDictType? && DistinctKeys(t.fields)
    requires forall i :: 0 <= i < |t.fields| ==> Rigid(t.fields[i].typ)
    requires IsIdenticalType(t, s) == Some(true)
    ensures s.TypedDictType? && Keys(t.fields) == Keys(s.fields)
    ensures forall k :: k in Keys(t.fields) ==> Lookup(t.fields, k) == Lookup(s.fields, k)
  {
    assert IdenticalTypedDict(t, s) == Some(true);
    IdenticalFieldsAgree(t.fields, s.fields);
  }

  lemma IdenticalFieldsAgree(fields: seq<Field>, right: seq<Field>)
    requires DistinctKeys(fields) && forall i :: 0 <= i < |fields| ==> Rigid(fields[i].typ)
    requires Keys(fields) == Keys(right) && IdenticalFields(fields, right) == Some(true)
    ensures forall k :: k in Keys(fields) ==> Lookup(fields, k) == Lookup(right, k)
  {
    forall k | k in Keys(fields)
      ensures Lookup(fields, k) == Lookup(right, k)
    {
      var i :| 0 <= i < |fields| && fields[i].key == k;
      IdenticalFieldAgrees(fields, right, i);
    }
  }

  lemma IdenticalFieldAgrees(fields: seq<Field>, right: seq<Field>, i: int)
    requires DistinctKeys(fields) && 0 <= i < |fields| && Rigid(fields[i].typ)
    requires Keys(fields) == Keys(right) && IdenticalFields(fields, right) == Some(true)
    ensures Lookup(fields, fields[i].key) == Lookup(right, fields[i].key)
  {
    LookupFinds(fields, i);
    IdenticalImpliesEqual(fields[i].typ, Lookup(right, fields[i].key).value);
  }

  /** A type without type variables anywhere: the one place where the
      comparison ignores part of a type's structure. */
  predicate NoTypeVar(t: Type)
    decreases t, 1
  {
    match t
    case TypeVarType(_, _, _, _, _, _) => false
    case UnboundType(_, _, _, args) => AllNoTypeVar(args)
    case Instance(_, args) => AllNoTypeVar(args)
    case CallableType(argTypes, retType, _, _, _, _) => AllNoTypeVar(argTypes) && NoTypeVar(retType)
    case TupleType(items) => AllNoTypeVar(items)
    case TypedDictType(fields) => forall i :: 0 <= i < |fields| ==> NoTypeVar(fields[i].typ)
    case UnionType(items) => AllNoTypeVar(items)
    case Overloaded(items) => AllNoTypeVar(items)
    case TypeType(item) => NoTypeVar(item)
    case _ => true
  }

  predicate AllNoTypeVar(ts: seq<Type>)
    decreases ts, 0
  {
    forall i :: 0 <= i < |ts| ==> NoTypeVar(ts[i])
  }

  /** Structural equality, except that a TypedDict is matched by key: the
      same key set, and under each key of the left one a type that is again
      the same, up to field order, as the right one's type for that key. */
  predicate SameUpToFieldOrder(t: Type, s: Type)
    decreases t, 1
  {
    match t
    case UnboundType(name, optional, emptyTupleIndex, args) =>
      s.UnboundType? && s.name == name && s.optional == optional
      && s.emptyTupleIndex == emptyTupleIndex && AllSameUpToFieldOrder(args, s.args)
    case Instance(typeName, args) =>
      s.Instance? && s.typeName == typeName && AllSameUpToFieldOrder(args, s.args)
    case TypeVarType(name, fullname, id, values, upperBound, variance) =>
      s.TypeVarType? && s.name == name && s.fullname == fullname && s.id == id && s.variance == variance
      && AllSameUpToFieldOrder(values, s.values) && SameUpToFieldOrder(upperBound, s.upperBound)
    case CallableType(argTypes, retType, argNames, argKinds, isTypeObj, isEllipsisArgs) =>
      s.CallableType? && AllSameUpToFieldOrder(argTypes, s.argTypes) && SameUpToFieldOrder(retType, s.retType)
      && s.argNames == argNames && s.argKinds == argKinds
      && s.isTypeObj == isTypeObj && s.isEllipsisArgs == isEllipsisArgs
    case TupleType(items) => s.TupleType? && AllSameUpToFieldOrder(items, s.items)
    case TypedDictType(fields) =>
      s.TypedDictType? && Keys(fields) == Keys(s.fields)
      && forall i :: 0 <= i < |fields| ==>
           SameUpToFieldOrder(fields[i].typ, Lookup(s.fields, fields[i].key).value)
    case UnionType(items) => s.UnionType? && AllSameUpToFieldOrder(items, s.items)
    case Overloaded(items) => s.Overloaded? && AllSameUpToFieldOrder(items, s.items)
    case TypeType(item) => s.TypeType? && SameUpToFieldOrder(item, s.item)
    case _ => t == s
  }

  predicate AllSameUpToFieldOrder(ts: seq<Type>, us: seq<Type>)
    decreases ts, 0
  {
    |ts| == |us| && forall i :: 0 <= i < |ts| ==> SameUpToFieldOrder(ts[i], us[i])
  }

  /** No false positives, for every type without type variables: a type is
      identical only to one with the same structure, TypedDicts at any depth
      matched key by key. */
  lemma {:induction false} IdenticalImpliesSameUpToFieldOrder(t: Type, s: Type)
    requires NoTypeVar(t)
    requires IsIdenticalType(t, s) == Some(true)
    ensures SameUpToFieldOrder(t, s)
    decreases t, 1
  {
    match t
    case Instance(_, args) => EachIdenticalImpliesSame(args, s.args);
    case CallableType(argTypes, retType, _, _, _, _) =>
      IdenticalImpliesSameUpToFieldOrder(retType, s.retType);
      EachIdenticalImpliesSame(argTypes, s.argTypes);
    case TupleType(items) => EachIdenticalImpliesSame(items, s.items);
    case TypedDictType(fields) =>
      assert IdenticalTypedDict(t, s) == Some(true);
      forall i | 0 <= i < |fields|
        ensures SameUpToFieldOrder(fields[i].typ, Lookup(s.fields, fields[i].key).value)
      {
        IdenticalImpliesSameUpToFieldOrder(fields[i].typ, Lookup(s.fields, fields[i].key).value);
      }
    case UnionType(items) => EachIdenticalImpliesSame(items, s.items);
    case Overloaded(items) => EachIdenticalImpliesSame(items, s.items);
    case TypeType(item) => IdenticalImpliesSameUpToFieldOrder(item, s.item);
    case _ =>
  }

  lemma {:induction false} EachIdenticalImpliesSame(xs: seq<Type>, ys: seq<Type>)
    requires AllNoTypeVar(xs)
    requires IsIdenticalTypes(xs, ys) == Some(true)
    ensures AllSameUpToFieldOrder(xs, ys)
    decreases xs, 0
  {
    forall i | 0 <= i < |xs|
      ensures SameUpToFieldOrder(xs[i], ys[i])
    {
      IdenticalImpliesSameUpToFieldOrder(xs[i], ys[i]);
    }
  }

  /** No false negatives: a reliable type is identical to every type with
      the same structure up to field order. */
  lemma {:induction false} SameUpToFieldOrderImpliesIdentical(t: Type, s: Type)
    requires Reliable(t)
    requires SameUpToFieldOrder(t, s)
    ensures IsIdenticalType(t, s) == Some(true)
    decreases t, 1
  {
    match t
    case Instance(_, args) => EachSameImpliesIdentical(args, s.args);
    case CallableType(argTypes, retType, _, _, _, _) =>
      SameUpToFieldOrderImpliesIdentical(retType, s.retType);
      EachSameImpliesIdentical(argTypes, s.argTypes);
    case TupleType(items) => EachSameImpliesIdentical(items, s.items);
    case TypedDictType(fields) =>
      forall i | 0 <= i < |fields|
        ensures IsIdenticalType(fields[i].typ, Lookup(s.fields, fields[i].key).value) == Some(true)
      {
        SameUpToFieldOrderImpliesIdentical(fields[i].typ, Lookup(s.fields, fields[i].key).value);
      }
      assert IdenticalFields(fields, s.fields) == Some(true);
    case UnionType(items) => EachSameImpliesIdentical(items, s.items);
    case Overloaded(items) => EachSameImpliesIdentical(items, s.items);
    case TypeType(item) => SameUpToFieldOrderImpliesIdentical(item, s.item);
    case _ =>
  }

  lemma {:induction false} EachSameImpliesIdentical(xs: seq<Type>, ys: seq<Type>)
    requires AllReliable(xs)
    requires AllSameUpToFieldOrder(xs, ys)
    ensures IsIdenticalTypes(xs, ys) == Some(true)
    decreases xs, 0
  {
    forall i | 0 <= i < |xs|
      ensures IsIdenticalType(xs[i], ys[i]) == Some(true)
    {
      SameUpToFieldOrderImpliesIdentical(xs[i], ys[i]);
    }
  }

  /** On reliable types without type variables, identity is exactly
      sameness up to TypedDict field order. */
  lemma {:induction false} IdenticalIffSameUpToFieldOrder(t: Type, s: Type)
    requires NoTypeVar(t) && Reliable(t)
    ensures IsIdenticalType(t, s) == Some(true) <==> SameUpToFieldOrder(t, s)
  {
    if IsIdenticalType(t, s) == Some(true) {
      IdenticalImpliesSameUpToFieldOrder(t, s);
    }
    if SameUpToFieldOrder(t, s) {
      SameUpToFieldOrderImpliesIdentical(t, s);
    }
  }

  /** Away from TypedDicts, sameness up to field order is equality. */
  lemma {:induction false} SameUpToFieldOrderRigidIsEqual(t: Type, s: Type)
    requires Rigid(t)
    requires SameUpToFieldOrder(t, s)
    ensures t == s
    decreases t, 1
  {
    match t
    case UnboundType(_, _, _, args) => EachSameRigidIsEqual(args, s.args);
    case Instance(_, args) => EachSameRigidIsEqual(args, s.args);
    case CallableType(argTypes, retType, _, _, _, _) =>
      SameUpToFieldOrderRigidIsEqual(retType, s.retType);
      EachSameRigidIsEqual(argTypes, s.argTypes);
    case TupleType(items) => EachSameRigidIsEqual(items, s.items);
    case UnionType(items) => EachSameRigidIsEqual(items, s.items);
    case Overloaded(items) => EachSameRigidIsEqual(items, s.items);
    case TypeType(item) => SameUpToFieldOrderRigidIsEqual(item, s.item);
    case _ =>
  }

  lemma {:induction false} EachSameRigidIsEqual(xs: seq<Type>, ys: seq<Type>)
    requires AllRigid(xs)
    requires AllSameUpToFieldOrder(xs, ys)
    ensures xs == ys
    decreases xs, 0
  {
    forall i | 0 <= i < |xs|
      ensures xs[i] == ys[i]
    {
      SameUpToFieldOrderRigidIsEqual(xs[i], ys[i]);
    }
  }

  /** Two TypedDicts with the same fields in another order, nested in a
      list type, are identical (their snapshots differ:
      `SwappedFieldsSnapshotsDiffer`). */
  lemma NestedFieldOrderIgnored()
    ensures IsIdenticalType(ListOf(FieldsAB()), ListOf(FieldsBA())) == Some(true)
  {
    SwappedFieldsSame();
    FieldsABReliable();
    var l, r := ListOf(FieldsAB()), ListOf(FieldsBA());
    assert AllReliable(l.args);
    assert AllSameUpToFieldOrder(l.args, r.args);
    SameUpToFieldOrderImpliesIdentical(l, r);
  }

  /** `List[t]`. */
  function ListOf(t: Type): (r: Type)
    ensures r.Instance? && r.args == [t]
  {
    Instance("builtins.list", [t])
  }

  lemma FieldsABReliable()
    ensures Reliable(FieldsAB())
  {
    var fields := FieldsAB().fields;
    assert fields[0].key != fields[1].key;
    assert DistinctKeys(fields);
  }

  lemma SwappedFieldsSame()
    ensures SameUpToFieldOrder(FieldsAB(), FieldsBA())
  {
    SwappedKeysEqual();
    SwappedLookups();
  }

  lemma SwappedLookups()
    ensures forall i :: 0 <= i < |FieldsAB().fields| ==>
              Lookup(FieldsBA().fields, FieldsAB().fields[i].key) == Some(FieldsAB().fields[i].typ)
  {
    var left, right := FieldsAB().fields, FieldsBA().fields;
    assert Lookup(right, left[0].key) == Some(left[0].typ);
    assert Lookup(right, left[1].key) == Some(left[1].typ);
  }

  lemma SwappedKeysEqual()
    ensures Keys(FieldsAB().fields) == Keys(FieldsBA().fields)
  {
    var left, right := FieldsAB().fields, FieldsBA().fields;
    KeysOfTwo(left[0], left[1]);
    KeysOfTwo(right[0], right[1]);
    assert left == [left[0], left[1]] && right == [right[0], right[1]];
  }

  lemma KeysOfTwo(f: Field, g: Field)
    ensures Keys([f, g]) == {f.key, g.key}
  {
    var fields := [f, g];
    assert fields[0] == f && fields[1] == g;
    forall k | k in Keys(fields)
      ensures k == f.key || k == g.key
    {
      var i :| 0 <= i < 2 && fields[i].key == k;
      assert i == 0 || i == 1;
    }
  }

  lemma SwappedFieldsSnapshotsDiffer()
    ensures TypeSnapshots.SnapshotType(FieldsAB()) != TypeSnapshots.SnapshotType(FieldsBA())
  {
    assert TypeSnapshots.SnapshotType(FieldsAB()).items[1].items[0].items[0] == Values.Str("a");
    assert TypeSnapshots.SnapshotType(FieldsBA()).items[1].items[0].items[0] == Values.Str("b");
  }

  /** `TypedDict({'a': Any, 'b': None})` and the same with its fields the
      other way round. */
  function FieldsAB(): Type
  {
    TypedDictType([Field("a", AnyType), Field("b", NoneTyp)])
  }

  function FieldsBA(): Type
  {
    TypedDictType([Field("b", NoneTyp), Field("a", AnyType)])
  }

  /** On rigid, reliable types the comparison is exactly equality. */
  lemma IdenticalIffEqual(t: Type, s: Type)
    requires Rigid(t) && Reliable(t)
    ensures IsIdenticalType(t, s) == Some(true) <==> t == s
  {
    if IsIdenticalType(t, s) == Some(true) {
      IdenticalImpliesEqual(t, s);
    }
    if t == s {
      IdenticalToItself(t);
    }
  }

  /** Unions are compared member by member in order: a reordered union is
      not identical, although its snapshot is the same. */
  lemma UnionOrderMatters()
    ensures IsIdenticalType(UnionType([AnyType, NoneTyp]), UnionType([NoneTyp, AnyType])) == Some(false)
    ensures TypeSnapshots.SnapshotType(UnionType([AnyType, NoneTyp]))
         == TypeSnapshots.SnapshotType(UnionType([NoneTyp, AnyType]))
  {
    var xs: seq<Type> := [AnyType, NoneTyp];
    var ys: seq<Type> := [NoneTyp, AnyType];
    assert IsIdenticalType(xs[0], ys[0]) == Some(false);
    TypeSnapshotProperties.UnionSnapshotIgnoresOrder(xs, ys);
  }

  /** Type variables are compared by id alone: two type variables with the
      same id but different upper bounds are identical, while their
      snapshots differ. */
  lemma TypeVarsComparedById()
    ensures IsIdenticalType(
              TypeVarType("T", "m.T", TypeVarId(1, 0), [], Instance("builtins.object", []), 0),
              TypeVarType("T", "m.T", TypeVarId(1, 0), [], Instance("builtins.int", []), 0))
            == Some(true)
    ensures TypeSnapshots.SnapshotType(
              TypeVarType("T", "m.T", TypeVarId(1, 0), [], Instance("builtins.object", []), 0))
         != TypeSnapshots.SnapshotType(
              TypeVarType("T", "m.T", TypeVarId(1, 0), [], Instance("builtins.int", []), 0))
  {
    var a := TypeVarType("T", "m.T", TypeVarId(1, 0), [], Instance("builtins.object", []), 0);
    var b := TypeVarType("T", "m.T", TypeVarId(1, 0), [], Instance("builtins.int", []), 0);
    assert TypeSnapshots.SnapshotType(a).items[6] != TypeSnapshots.SnapshotType(b).items[6] by {
      assert TypeSnapshots.SnapshotType(a.upperBound).items[1] == Values.Str("builtins.object");
      assert TypeSnapshots.SnapshotType(b.upperBound).items[1] == Values.Str("builtins.int");
    }
  }
}
