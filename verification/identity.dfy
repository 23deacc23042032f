/** Live identity comparison (`is_identical_type`, `is_identical_types`,
    `IdenticalTypeVisitor`): a cheap, conservative equality on type values.
    The result is `None` when the comparison raises `RuntimeError`, which it
    does exactly when it reaches a partial type on its left side. */
module Identity {

  import opened Wrappers
  import opened Types
  import TypeSnapshots

  /** Python's `a and b` where either check may raise: a raise or a false
      `a` ends the evaluation. */
  function AndThen(a: Option<bool>, b: Option<bool>): (r: Option<bool>)
    ensures r == Some(true) <==> a == Some(true) && b == Some(true)
    ensures a.Some? && b.Some? ==> r.Some?
  {
    match a
    case None => None
    case Some(x) => if x then b else Some(false)
  }

  /** `is_identical_type(t, s)`, i.e. `t.accept(IdenticalTypeVisitor(s))`. */
  function IsIdenticalType(t: Type, s: Type): (r: Option<bool>)
    ensures NoPartial(t) ==> r.Some?
    ensures t.UnboundType? || t.ErasedType? ==> r == Some(false)
    ensures r == Some(true) ==> TypeSnapshots.Tag(t) == TypeSnapshots.Tag(s)
    ensures r == Some(true) && t.Instance? ==> t.typeName == s.typeName && |t.args| == |s.args|
    decreases t, 2
  {
    match t
    case UnboundType(_, _, _, _) => Some(false)
    case AnyType => Some(s.AnyType?)
    case NoneTyp => Some(s.NoneTyp?)
    case UninhabitedType => Some(s.UninhabitedType?)
    case ErasedType => Some(false)
    case DeletedType => Some(s.DeletedType?)
    case Instance(typeName, args) =>
      if s.Instance? && typeName == s.typeName then IsIdenticalTypes(args, s.args) else Some(false)
    case TypeVarType(_, _, id, _, _, _) => Some(s.TypeVarType? && id == s.id)
    case CallableType(_, _, _, _, _, _) => IdenticalCallable(t, s)
    case TupleType(items) =>
      if s.TupleType? then IsIdenticalTypes(items, s.items) else Some(false)
    case TypedDictType(_) => IdenticalTypedDict(t, s)
    case UnionType(items) =>
      if s.UnionType? then IsIdenticalTypes(items, s.items) else Some(false)
    case Overloaded(items) =>
      if s.Overloaded? then IsIdenticalTypes(items, s.items) else Some(false)
    case PartialType => None
    case TypeType(item) =>
      if s.TypeType? then IsIdenticalType(item, s.item) else Some(false)
  }

  /** `visit_callable_type`: return types, then argument types, then the
      argument names and kinds and the two flags. */
  function IdenticalCallable(t: Type, s: Type): (r: Option<bool>)
    requires t.CallableType?
    ensures NoPartial(t) ==> r.Some?
    ensures r == Some(true) ==> s.CallableType?
    decreases t, 1
  {
    if s.CallableType? then
      AndThen(IsIdenticalType(t.retType, s.retType),
        AndThen(IsIdenticalTypes(t.argTypes, s.argTypes),
          Some(t.argNames == s.argNames && t.argKinds == s.argKinds
               && t.isTypeObj == s.isTypeObj && t.isEllipsisArgs == s.isEllipsisArgs)))
    else Some(false)
  }

  /** `visit_typeddict_type`: the key sets, then the field types key by
      key. */
  function IdenticalTypedDict(t: Type, s: Type): (r: Option<bool>)
    requires t.TypedDictType?
    ensures NoPartial(t) ==> r.Some?
    ensures r == Some(true) ==> s.TypedDictType? && Keys(t.fields) == Keys(s.fields)
    decreases t, 1
  {
    if !s.TypedDictType? then Some(false)
    else if Keys(t.fields) != Keys(s.fields) then Some(false)
    else
      assert NoPartial(t) ==> FieldsNoPartial(t.fields);
      IdenticalFields(t.fields, s.fields)
  }

  /** `is_identical_types(a, b)`: equal lengths, then the pairs in order. */
  function IsIdenticalTypes(a: seq<Type>, b: seq<Type>): (r: Option<bool>)
    ensures AllNoPartial(a) ==> r.Some?
    ensures r == Some(true) <==>
      |a| == |b| && forall i :: 0 <= i < |a| ==> IsIdenticalType(a[i], b[i]) == Some(true)
    decreases a, 1
  {
    if |a| != |b| then Some(false) else AllIdentical(a, b)
  }

  /** `all(is_identical_type(t, s) for t, s in zip(a, b))`, stopping at the
      first pair that is not identical. */
  function AllIdentical(a: seq<Type>, b: seq<Type>): (r: Option<bool>)
    requires |a| == |b|
    ensures AllNoPartial(a) ==> r.Some?
    ensures r == Some(true) <==> forall i :: 0 <= i < |a| ==> IsIdenticalType(a[i], b[i]) == Some(true)
    decreases a, 0
  {
    if |a| == 0 then Some(true)
    else
      var rest := AllIdentical(a[1..], b[1..]);
      assert forall i :: 1 <= i < |a| ==> a[i] == a[1..][i - 1] && b[i] == b[1..][i - 1];
      AndThen(IsIdenticalType(a[0], b[0]), rest)
  }

  /** The loop over `left.zip(right)`: each field of the left TypedDict,
      in order, against the right field of the same key. */
  function IdenticalFields(fields: seq<Field>, right: seq<Field>): (r: Option<bool>)
    ensures FieldsNoPartial(fields) ==> r.Some?
    ensures r == Some(true) <==> forall i :: 0 <= i < |fields| && fields[i].key in Keys(right) ==>
      IsIdenticalType(fields[i].typ, Lookup(right, fields[i].key).value) == Some(true)
    decreases fields, 0
  {
    if |fields| == 0 then Some(true)
    else
      var rest := IdenticalFields(fields[1..], right);
      assert forall i :: 1 <= i < |fields| ==> fields[i] == fields[1..][i - 1];
      match Lookup(right, fields[0].key)
      case None => rest
      case Some(rightType) => AndThen(IsIdenticalType(fields[0].typ, rightType), rest)
  }
}
