/** The closed family of mypy type values that the change detector visits.

    Each constructor carries the fields that `mypy/server/astdiff.py` reads;
    the internals of `mypy.types` that the detector only calls through
    (`Instance.type.fullname()`, `CallableType.is_type_obj()`,
    `TypedDictType.items`) are plain fields here. */
module Types {

  /** `TypeVarId`: a raw id and a meta level, compared as a pair. */
  datatype TypeVarId = TypeVarId(rawId: int, metaLevel: int)

  /** One field of a TypedDict, in the dictionary's iteration order. */
  datatype Field = Field(key: string, typ: Type)

  datatype Type =
    | UnboundType(name: string, optional: bool, emptyTupleIndex: bool, args: seq<Type>)
    | AnyType
    | NoneTyp
    | UninhabitedType
    | ErasedType
    | DeletedType
      /** `typeName` is the full name of the class the instance refers to. */
    | Instance(typeName: string, args: seq<Type>)
    | TypeVarType(name: string, fullname: string, id: TypeVarId, values: seq<Type>,
                  upperBound: Type, variance: int)
      /** `argNames[i]` is `None` for a positional-only argument; `argKinds`
          are the argument passing kinds (positional, optional, star, ...);
          `isTypeObj` is the result of `is_type_obj()`. */
    | CallableType(argTypes: seq<Type>, retType: Type, argNames: seq<Option<string>>,
                   argKinds: seq<int>, isTypeObj: bool, isEllipsisArgs: bool)
    | TupleType(items: seq<Type>)
    | TypedDictType(fields: seq<Field>)
    | UnionType(items: seq<Type>)
      /** The callable alternatives of an overloaded signature, in order. */
    | Overloaded(items: seq<Type>)
      /** The analyser's transient, not yet inferred type. */
    | PartialType
    | TypeType(item: Type)

  import opened Wrappers

  /** A type in which no partial type occurs anywhere. */
  predicate NoPartial(t: Type)
    decreases t, 1
  {
    match t
    case PartialType => false
    case UnboundType(_, _, _, args) => AllNoPartial(args)
    case Instance(_, args) => AllNoPartial(args)
    case TypeVarType(_, _, _, values, upperBound, _) => AllNoPartial(values) && NoPartial(upperBound)
    case CallableType(argTypes, retType, _, _, _, _) => AllNoPartial(argTypes) && NoPartial(retType)
    case TupleType(items) => AllNoPartial(items)
    case TypedDictType(fields) => FieldsNoPartial(fields)
    case UnionType(items) => AllNoPartial(items)
    case Overloaded(items) => AllNoPartial(items)
    case TypeType(item) => NoPartial(item)
    case _ => true
  }

  /** Every type of `ts` is free of partial types. */
  predicate AllNoPartial(ts: seq<Type>)
    decreases ts, 0
  {
    forall i :: 0 <= i < |ts| ==> NoPartial(ts[i])
  }

  /** Every field type of a TypedDict is free of partial types. */
  predicate FieldsNoPartial(fields: seq<Field>)
    decreases fields, 0
  {
    forall i :: 0 <= i < |fields| ==> NoPartial(fields[i].typ)
  }

  /** The key set of a TypedDict's fields, `items.keys()` in the source. */
  function Keys(fields: seq<Field>): (ks: set<string>)
    ensures forall i :: 0 <= i < |fields| ==> fields[i].key in ks
    ensures forall k :: k in ks ==> exists i :: 0 <= i < |fields| && fields[i].key == k
  {
    set i | 0 <= i < |fields| :: fields[i].key
  }

  /** `items.get(key)`: the type of the first field named `key`, if any. */
  function Lookup(fields: seq<Field>, key: string): (r: Option<Type>)
    ensures r.None? <==> key !in Keys(fields)
    ensures r.Some? ==> exists i :: 0 <= i < |fields| && fields[i] == Field(key, r.value)
  {
    if |fields| == 0 then None
    else if fields[0].key == key then Some(fields[0].typ)
    else Lookup(fields[1..], key)
  }

  /** The fields have pairwise distinct keys, as the keys of a Python dict do. */
  predicate DistinctKeys(fields: seq<Field>)
  {
    forall i, j :: 0 <= i < j < |fields| ==> fields[i].key != fields[j].key
  }

  /** With distinct keys, looking a field's key up finds that field. */
  lemma {:induction false} LookupFinds(fields: seq<Field>, i: int)
    requires DistinctKeys(fields) && 0 <= i < |fields|
    ensures Lookup(fields, fields[i].key) == Some(fields[i].typ)
    decreases |fields|
  {
    if i > 0 {
      assert fields[0].key != fields[i].key;
      assert DistinctKeys(fields[1..]) by {
        forall a, b | 0 <= a < b < |fields[1..]|
          ensures fields[1..][a].key != fields[1..][b].key
        {
          assert fields[1..][a] == fields[a + 1] && fields[1..][b] == fields[b + 1];
        }
      }
      LookupFinds(fields[1..], i - 1);
    }
  }
}
