/** Type snapshots (`snapshot_type` and `SnapshotTypeVisitor`): a type value
    becomes a structural `Value` that names classes by their full names and
    keeps no reference to analyser nodes, so that two analysis generations
    of "the same" type produce equal snapshots. */
module TypeSnapshots {

  import opened Wrappers
  import opened Types
  import opened Values
  import opened Sorting

  /** The string at the head of a type's snapshot. For the markerless
      variants it is the variant's class name, `type(typ).__name__`. */
  function Tag(t: Type): string
  {
    match t
    case UnboundType(_, _, _, _) => "UnboundType"
    case AnyType => "AnyType"
    case NoneTyp => "NoneTyp"
    case UninhabitedType => "UninhabitedType"
    case ErasedType => "ErasedType"
    case DeletedType => "DeletedType"
    case Instance(_, _) => "Instance"
    case TypeVarType(_, _, _, _, _, _) => "TypeVar"
    case CallableType(_, _, _, _, _, _) => "CallableType"
    case TupleType(_) => "TupleType"
    case TypedDictType(_) => "TypedDictType"
    case UnionType(_) => "UnionType"
    case Overloaded(_) => "Overloaded"
    case PartialType => "PartialType"
    case TypeType(_) => "TypeType"
  }

  /** Distinct variants have distinct tags. */
  lemma TagIdentifiesVariant(t: Type, s: Type)
    requires Tag(t) == Tag(s)
    ensures t.UnboundType? == s.UnboundType? && t.AnyType? == s.AnyType?
    ensures t.NoneTyp? == s.NoneTyp? && t.UninhabitedType? == s.UninhabitedType?
    ensures t.ErasedType? == s.ErasedType? && t.DeletedType? == s.DeletedType?
    ensures t.Instance? == s.Instance? && t.TypeVarType? == s.TypeVarType?
    ensures t.CallableType? == s.CallableType? && t.TupleType? == s.TupleType?
    ensures t.TypedDictType? == s.TypedDictType? && t.UnionType? == s.UnionType?
    ensures t.Overloaded? == s.Overloaded? && t.PartialType? == s.PartialType?
    ensures t.TypeType? == s.TypeType?
  {
  }

  /** The variants that carry no data. */
  predicate IsSimple(t: Type)
  {
    t.AnyType? || t.NoneTyp? || t.UninhabitedType? || t.ErasedType? || t.DeletedType?
  }

  /** `snapshot_simple_type`: a one-element tuple naming the variant. */
  function SnapshotSimpleType(t: Type): (r: Value)
    requires IsSimple(t)
    ensures r.Tuple? && |r.items| == 1 && r.items[0] == Str(Tag(t))
  {
    Tuple([Str(Tag(t))])
  }

  /** The snapshot of a markerless type identifies its variant and nothing
      else: two of them are equal exactly when the types are. */
  lemma SimpleSnapshotIdentifiesVariant(t: Type, s: Type)
    requires IsSimple(t) && IsSimple(s)
    ensures SnapshotSimpleType(t) == SnapshotSimpleType(s) <==> t == s
  {
    if SnapshotSimpleType(t) == SnapshotSimpleType(s) {
      assert SnapshotSimpleType(t).items[0] == SnapshotSimpleType(s).items[0];
      TagIdentifiesVariant(t, s);
    }
  }

  /** Argument names, each as a tuple: `()` for a nameless argument and
      `(name,)` for a named one. A bare `None` next to a string would make
      Python's `<` raise when a union's member snapshots are sorted. */
  function EncodeNames(names: seq<Option<string>>): (r: seq<Value>)
    ensures |r| == |names|
    ensures forall i :: 0 <= i < |names| ==> r[i].Tuple? && (|r[i].items| == 0 <==> names[i].None?)
    ensures forall i :: 0 <= i < |names| && names[i].Some? ==> r[i].items == [Str(names[i].value)]
  {
    if |names| == 0 then []
    else [Tuple(if names[0].Some? then [Str(names[0].value)] else [])] + EncodeNames(names[1..])
  }

  function EncodeKinds(kinds: seq<int>): (r: seq<Value>)
    ensures |r| == |kinds|
    ensures forall i :: 0 <= i < |kinds| ==> r[i] == Int(kinds[i])
  {
    if |kinds| == 0 then [] else [Int(kinds[0])] + EncodeKinds(kinds[1..])
  }

  /** `snapshot_type`: every variant but the partial type has a snapshot,
      led by the variant's tag. */
  function SnapshotType(t: Type): (r: Value)
    requires NoPartial(t)
    ensures r.Tuple? && |r.items| > 0 && r.items[0] == Str(Tag(t))
    decreases t
  {
    match t
    case UnboundType(name, optional, emptyTupleIndex, args) =>
      Tuple([Str("UnboundType"), Str(name), Bool(optional), Bool(emptyTupleIndex),
             SnapshotTypes(args)])
    case AnyType => SnapshotSimpleType(t)
    case NoneTyp => SnapshotSimpleType(t)
    case UninhabitedType => SnapshotSimpleType(t)
    case ErasedType => SnapshotSimpleType(t)
    case DeletedType => SnapshotSimpleType(t)
    case Instance(typeName, args) =>
      Tuple([Str("Instance"), Str(typeName), SnapshotTypes(args)])
    case TypeVarType(name, fullname, id, values, upperBound, variance) =>
      Tuple([Str("TypeVar"), Str(name), Str(fullname), Int(id.rawId), Int(id.metaLevel),
             SnapshotTypes(values), SnapshotType(upperBound), Int(variance)])
    case CallableType(argTypes, retType, argNames, argKinds, isTypeObj, isEllipsisArgs) =>
      Tuple([Str("CallableType"), SnapshotTypes(argTypes), SnapshotType(retType),
             Tuple(EncodeNames(argNames)), Tuple(EncodeKinds(argKinds)),
             Bool(isTypeObj), Bool(isEllipsisArgs)])
    case TupleType(items) => Tuple([Str("TupleType"), SnapshotTypes(items)])
    case TypedDictType(fields) => Tuple([Str("TypedDictType"), Tuple(SnapshotFields(fields))])
    case UnionType(items) =>
      Tuple([Str("UnionType"), Tuple(Normalize(SnapshotEach(items)))])
    case Overloaded(items) => Tuple([Str("Overloaded"), SnapshotTypes(items)])
    case TypeType(item) => Tuple([Str("TypeType"), SnapshotType(item)])
  }

  /** `snapshot_types`: the snapshots of a sequence of types, as a tuple in
      the same order. */
  function SnapshotTypes(ts: seq<Type>): (r: Value)
    requires AllNoPartial(ts)
    ensures r.Tuple? && |r.items| == |ts|
    ensures forall i :: 0 <= i < |ts| ==> r.items[i] == SnapshotType(ts[i])
    decreases ts, 1
  {
    Tuple(SnapshotEach(ts))
  }

  function SnapshotEach(ts: seq<Type>): (r: seq<Value>)
    requires AllNoPartial(ts)
    ensures |r| == |ts|
    ensures forall i :: 0 <= i < |ts| ==> r[i] == SnapshotType(ts[i])
    decreases ts, 0
  {
    if |ts| == 0 then [] else [SnapshotType(ts[0])] + SnapshotEach(ts[1..])
  }

  /** The (key, type snapshot) pairs of a TypedDict, in field order. */
  function SnapshotFields(fields: seq<Field>): (r: seq<Value>)
    requires FieldsNoPartial(fields)
    ensures |r| == |fields|
    ensures forall i :: 0 <= i < |fields| ==>
      r[i] == Tuple([Str(fields[i].key), SnapshotType(fields[i].typ)])
    decreases fields
  {
    if |fields| == 0 then []
    else [Tuple([Str(fields[0].key), SnapshotType(fields[0].typ)])] + SnapshotFields(fields[1..])
  }

  /** `snapshot_optional_type`: no type, no snapshot. */
  function SnapshotOptionalType(t: Option<Type>): (r: Option<Value>)
    requires t.Some? ==> NoPartial(t.value)
    ensures r.Some? <==> t.Some?
    ensures r.Some? ==> r.value.Tuple? && |r.value.items| > 0 && r.value.items[0] == Str(Tag(t.value))
  {
    if t.Some? then Some(SnapshotType(t.value)) else None
  }
}
