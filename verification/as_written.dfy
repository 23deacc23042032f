/** `mypy/server/astdiff.py` as it is written, kept apart from the rest of
    the model, which uses the corrected definitions:

    - the callable and unbound-type snapshots hold Python lists (argument
      names, argument kinds, unbound type arguments), and a list cannot be
      hashed, so building the member set of a union that contains such a
      type raises `TypeError`;
    - a function node without a type (an unannotated `def`) is passed to
      `snapshot_type` itself rather than to `snapshot_optional_type`, which
      fails on `None`.

    Either failure ends the snapshot of the whole symbol table, including
    when it happens inside a local class's own table. `None` stands for
    "raises". */
module AsWritten {

  import opened Wrappers
  import opened Types
  import opened Values
  import opened Sorting
  import opened Symbols
  import opened TableSnapshots
  import TypeSnapshots
  import TypeSnapshotProperties
  import SnapshotOrder

  /** `snapshot_type` as written: lists where the code builds lists, and a
      `TypeError` when a union's member snapshots are not all hashable. */
  function SnapshotTypeAsWritten(t: Type): (r: Option<Value>)
    requires NoPartial(t)
    ensures r.Some? ==> r.value.Tuple? && |r.value.items| > 0 && r.value.items[0] == Str(TypeSnapshots.Tag(t))
    ensures r.Some? && (t.UnboundType? || t.CallableType?) ==> !Hashable(r.value)
    decreases t, 1
  {
    match t
    case UnboundType(name, optional, emptyTupleIndex, args) =>
      var a := EachAsWritten(args);
      if a.None? then None
      else
        var v := Tuple([Str("UnboundType"), Str(name), Bool(optional), Bool(emptyTupleIndex), List(a.value)]);
        assert !Hashable(v.items[4]);
        Some(v)
    case Instance(typeName, args) =>
      var a := EachAsWritten(args);
      if a.None? then None else Some(Tuple([Str("Instance"), Str(typeName), Tuple(a.value)]))
    case TypeVarType(name, fullname, id, values, upperBound, variance) =>
      var vs := EachAsWritten(values);
      var ub := SnapshotTypeAsWritten(upperBound);
      if vs.None? || ub.None? then None
      else Some(Tuple([Str("TypeVar"), Str(name), Str(fullname), Int(id.rawId), Int(id.metaLevel),
                       Tuple(vs.value), ub.value, Int(variance)]))
    case CallableType(argTypes, retType, argNames, argKinds, isTypeObj, isEllipsisArgs) =>
      var a := EachAsWritten(argTypes);
      var ret := SnapshotTypeAsWritten(retType);
      if a.None? || ret.None? then None
      else
        var v := Tuple([Str("CallableType"), Tuple(a.value), ret.value,
                        List(EncodeNamesAsWritten(argNames)), List(TypeSnapshots.EncodeKinds(argKinds)),
                        Bool(isTypeObj), Bool(isEllipsisArgs)]);
        assert !Hashable(v.items[3]);
        Some(v)
    case TupleType(items) =>
      var a := EachAsWritten(items);
      if a.None? then None else Some(Tuple([Str("TupleType"), Tuple(a.value)]))
    case TypedDictType(fields) =>
      var a := FieldsAsWritten(fields);
      if a.None? then None else Some(Tuple([Str("TypedDictType"), Tuple(a.value)]))
    case UnionType(items) =>
      var a := EachAsWritten(items);
      if a.None? || !AllHashable(a.value) then None
      else Some(Tuple([Str("UnionType"), Tuple(Normalize(a.value))]))
    case Overloaded(items) =>
      var a := EachAsWritten(items);
      if a.None? then None else Some(Tuple([Str("Overloaded"), Tuple(a.value)]))
    case TypeType(item) =>
      var a := SnapshotTypeAsWritten(item);
      if a.None? then None else Some(Tuple([Str("TypeType"), a.value]))
    case _ => Some(TypeSnapshots.SnapshotSimpleType(t))
  }

  /** Argument names as the code keeps them: the name, or `None` for a
      nameless argument. */
  function EncodeNamesAsWritten(names: seq<Option<string>>): (r: seq<Value>)
    ensures |r| == |names|
    ensures forall i :: 0 <= i < |names| ==> (r[i].Null? <==> names[i].None?)
    ensures forall i :: 0 <= i < |names| && names[i].Some? ==> r[i] == Str(names[i].value)
  {
    if |names| == 0 then []
    else [if names[0].Some? then Str(names[0].value) else Null] + EncodeNamesAsWritten(names[1..])
  }

  predicate AllHashable(vs: seq<Value>)
  {
    forall i :: 0 <= i < |vs| ==> Hashable(vs[i])
  }

  /** The member snapshots in order, or `None` when one of them raises. */
  function EachAsWritten(ts: seq<Type>): (r: Option<seq<Value>>)
    requires AllNoPartial(ts)
    ensures r.Some? <==> forall i :: 0 <= i < |ts| ==> SnapshotTypeAsWritten(ts[i]).Some?
    ensures r.Some? ==> |r.value| == |ts|
                        && forall i :: 0 <= i < |ts| ==> r.value[i] == SnapshotTypeAsWritten(ts[i]).value
    decreases ts, 0
  {
    if |ts| == 0 then Some([])
    else
      var head := SnapshotTypeAsWritten(ts[0]);
      var tail := EachAsWritten(ts[1..]);
      if head.None? then None
      else if tail.None? then
        assert exists i :: 1 <= i < |ts| && SnapshotTypeAsWritten(ts[i]).None? by {
          var j :| 0 <= j < |ts[1..]| && SnapshotTypeAsWritten(ts[1..][j]).None?;
          assert ts[1..][j] == ts[j + 1];
        }
        None
      else
        Some([head.value] + tail.value)
  }

  function FieldsAsWritten(fields: seq<Field>): (r: Option<seq<Value>>)
    requires FieldsNoPartial(fields)
    ensures r.Some? <==> forall i :: 0 <= i < |fields| ==> SnapshotTypeAsWritten(fields[i].typ).Some?
    ensures r.Some? ==> |r.value| == |fields|
                        && forall i :: 0 <= i < |fields| ==>
                             r.value[i] == Tuple([Str(fields[i].key), SnapshotTypeAsWritten(fields[i].typ).value])
    decreases fields, 0
  {
    if |fields| == 0 then Some([])
    else
      var head := SnapshotTypeAsWritten(fields[0].typ);
      var tail := FieldsAsWritten(fields[1..]);
      if head.None? then None
      else if tail.None? then
        assert exists i :: 1 <= i < |fields| && SnapshotTypeAsWritten(fields[i].typ).None? by {
          var j :| 0 <= j < |fields[1..]| && SnapshotTypeAsWritten(fields[1..][j].typ).None?;
          assert fields[1..][j] == fields[j + 1];
        }
        None
      else
        Some([Tuple([Str(fields[0].key), head.value])] + tail.value)
  }

  /** `Union[Callable[[], None], int]`: the code as written raises on it, the
      corrected snapshot exists and is hashable. */
  lemma UnionOfCallableRaisesAsWritten()
    ensures SnapshotTypeAsWritten(CallableOrInt()).None?
    ensures Hashable(TypeSnapshots.SnapshotType(CallableOrInt()))
  {
    TypeSnapshotProperties.SnapshotHashable(CallableOrInt());
  }

  /** A type with no callable and no unbound type anywhere in it. */
  predicate ListFree(t: Type)
    decreases t, 1
  {
    match t
    case UnboundType(_, _, _, _) => false
    case CallableType(_, _, _, _, _, _) => false
    case Instance(_, args) => AllListFree(args)
    case TypeVarType(_, _, _, values, upperBound, _) => AllListFree(values) && ListFree(upperBound)
    case TupleType(items) => AllListFree(items)
    case TypedDictType(fields) => forall i :: 0 <= i < |fields| ==> ListFree(fields[i].typ)
    case UnionType(items) => AllListFree(items)
    case Overloaded(items) => AllListFree(items)
    case TypeType(item) => ListFree(item)
    case _ => true
  }

  predicate AllListFree(ts: seq<Type>)
    decreases ts, 0
  {
    forall i :: 0 <= i < |ts| ==> ListFree(ts[i])
  }

  /** Away from callables and unbound types the code as written and the
      corrected snapshot agree. */
  lemma {:induction false} AsWrittenAgreesWhenListFree(t: Type)
    requires NoPartial(t) && ListFree(t)
    ensures SnapshotTypeAsWritten(t) == Some(TypeSnapshots.SnapshotType(t))
    decreases t, 1
  {
    match t
    case Instance(_, args) => EachAgrees(args);
    case TypeVarType(_, _, _, values, upperBound, _) =>
      EachAgrees(values);
      AsWrittenAgreesWhenListFree(upperBound);
    case TupleType(items) => EachAgrees(items);
    case TypedDictType(fields) =>
      forall i | 0 <= i < |fields|
        ensures SnapshotTypeAsWritten(fields[i].typ) == Some(TypeSnapshots.SnapshotType(fields[i].typ))
      {
        AsWrittenAgreesWhenListFree(fields[i].typ);
      }
      assert FieldsAsWritten(fields).value == TypeSnapshots.SnapshotFields(fields);
    case UnionType(items) =>
      EachAgrees(items);
      TypeSnapshotProperties.EachHashable(items);
    case Overloaded(items) => EachAgrees(items);
    case TypeType(item) => AsWrittenAgreesWhenListFree(item);
    case _ =>
  }

  lemma {:induction false} EachAgrees(ts: seq<Type>)
    requires AllNoPartial(ts) && AllListFree(ts)
    ensures EachAsWritten(ts) == Some(TypeSnapshots.SnapshotEach(ts))
    decreases ts, 0
  {
    forall i | 0 <= i < |ts|
      ensures SnapshotTypeAsWritten(ts[i]) == Some(TypeSnapshots.SnapshotType(ts[i]))
    {
      AsWrittenAgreesWhenListFree(ts[i]);
    }
    assert EachAsWritten(ts).value == TypeSnapshots.SnapshotEach(ts);
  }

  /** Some union inside the type has a member whose snapshot holds a list
      (a callable or unbound type at any depth): exactly the types whose
      snapshot raises as written. */
  predicate HoldsUnhashableUnion(t: Type)
    decreases t, 1
  {
    match t
    case UnboundType(_, _, _, args) => AnyHoldsUnhashableUnion(args)
    case Instance(_, args) => AnyHoldsUnhashableUnion(args)
    case TypeVarType(_, _, _, values, upperBound, _) =>
      AnyHoldsUnhashableUnion(values) || HoldsUnhashableUnion(upperBound)
    case CallableType(argTypes, retType, _, _, _, _) =>
      AnyHoldsUnhashableUnion(argTypes) || HoldsUnhashableUnion(retType)
    case TupleType(items) => AnyHoldsUnhashableUnion(items)
    case TypedDictType(fields) => exists i :: 0 <= i < |fields| && HoldsUnhashableUnion(fields[i].typ)
    case UnionType(items) => AnyHoldsUnhashableUnion(items) || !AllListFree(items)
    case Overloaded(items) => AnyHoldsUnhashableUnion(items)
    case TypeType(item) => HoldsUnhashableUnion(item)
    case _ => false
  }

  predicate AnyHoldsUnhashableUnion(ts: seq<Type>)
    decreases ts, 0
  {
    exists i :: 0 <= i < |ts| && HoldsUnhashableUnion(ts[i])
  }

  /** The as-written snapshot raises exactly on a type holding a union with
      a list-holding member, and when it returns, the snapshot is hashable
      exactly when the type has no callable or unbound type anywhere. */
  lemma {:induction false} AsWrittenRaisesIff(t: Type)
    requires NoPartial(t)
    ensures SnapshotTypeAsWritten(t).None? <==> HoldsUnhashableUnion(t)
    ensures SnapshotTypeAsWritten(t).Some? ==> (Hashable(SnapshotTypeAsWritten(t).value) <==> ListFree(t))
    decreases t, 2
  {
    match t
    case UnboundType(_, _, _, _) => UnboundRaisesIff(t);
    case Instance(_, _) => InstanceRaisesIff(t);
    case TypeVarType(_, _, _, _, _, _) => TypeVarRaisesIff(t);
    case CallableType(_, _, _, _, _, _) => CallableRaisesIff(t);
    case TupleType(_) => TupleRaisesIff(t);
    case TypedDictType(fields) => FieldsRaiseIff(fields);
    case UnionType(items) => UnionRaisesIff(items);
    case Overloaded(_) => OverloadedRaisesIff(t);
    case TypeType(_) => TypeTypeRaisesIff(t);
    case _ =>
  }

  lemma {:induction false} EachRaisesIff(ts: seq<Type>)
    requires AllNoPartial(ts)
    ensures EachAsWritten(ts).None? <==> AnyHoldsUnhashableUnion(ts)
    ensures EachAsWritten(ts).Some? ==> (AllHashable(EachAsWritten(ts).value) <==> AllListFree(ts))
    decreases ts, 1
  {
    forall i | 0 <= i < |ts|
      ensures SnapshotTypeAsWritten(ts[i]).None? <==> HoldsUnhashableUnion(ts[i])
      ensures SnapshotTypeAsWritten(ts[i]).Some? ==>
                (Hashable(SnapshotTypeAsWritten(ts[i]).value) <==> ListFree(ts[i]))
    {
      AsWrittenRaisesIff(ts[i]);
    }
  }

  lemma {:induction false} UnboundRaisesIff(t: Type)
    requires t.UnboundType? && NoPartial(t)
    ensures SnapshotTypeAsWritten(t).None? <==> HoldsUnhashableUnion(t)
    ensures SnapshotTypeAsWritten(t).Some? ==> (Hashable(SnapshotTypeAsWritten(t).value) <==> ListFree(t))
    decreases t, 1
  {
    EachRaisesIff(t.args);
  }

  lemma {:induction false} InstanceRaisesIff(t: Type)
    requires t.Instance? && NoPartial(t)
    ensures SnapshotTypeAsWritten(t).None? <==> HoldsUnhashableUnion(t)
    ensures SnapshotTypeAsWritten(t).Some? ==> (Hashable(SnapshotTypeAsWritten(t).value) <==> ListFree(t))
    decreases t, 1
  {
    EachRaisesIff(t.args);
    var a := EachAsWritten(t.args);
    if a.Some? {
      var v := Tuple([Str("Instance"), Str(t.typeName), Tuple(a.value)]);
      assert SnapshotTypeAsWritten(t) == Some(v);
      assert Hashable(v) <==> Hashable(v.items[2]);
    }
  }

  lemma {:induction false} TupleRaisesIff(t: Type)
    requires t.TupleType? && NoPartial(t)
    ensures SnapshotTypeAsWritten(t).None? <==> HoldsUnhashableUnion(t)
    ensures SnapshotTypeAsWritten(t).Some? ==> (Hashable(SnapshotTypeAsWritten(t).value) <==> ListFree(t))
    decreases t, 1
  {
    EachRaisesIff(t.items);
    var a := EachAsWritten(t.items);
    if a.Some? {
      var v := Tuple([Str("TupleType"), Tuple(a.value)]);
      assert SnapshotTypeAsWritten(t) == Some(v);
      assert Hashable(v) <==> Hashable(v.items[1]);
    }
  }

  lemma {:induction false} OverloadedRaisesIff(t: Type)
    requires t.Overloaded? && NoPartial(t)
    ensures SnapshotTypeAsWritten(t).None? <==> HoldsUnhashableUnion(t)
    ensures SnapshotTypeAsWritten(t).Some? ==> (Hashable(SnapshotTypeAsWritten(t).value) <==> ListFree(t))
    decreases t, 1
  {
    EachRaisesIff(t.items);
    var a := EachAsWritten(t.items);
    if a.Some? {
      var v := Tuple([Str("Overloaded"), Tuple(a.value)]);
      assert SnapshotTypeAsWritten(t) == Some(v);
      assert Hashable(v) <==> Hashable(v.items[1]);
    }
  }

  lemma {:induction false} TypeTypeRaisesIff(t: Type)
    requires t.TypeType? && NoPartial(t)
    ensures SnapshotTypeAsWritten(t).None? <==> HoldsUnhashableUnion(t)
    ensures SnapshotTypeAsWritten(t).Some? ==> (Hashable(SnapshotTypeAsWritten(t).value) <==> ListFree(t))
    decreases t, 1
  {
    AsWrittenRaisesIff(t.item);
    var a := SnapshotTypeAsWritten(t.item);
    if a.Some? {
      var v := Tuple([Str("TypeType"), a.value]);
      assert SnapshotTypeAsWritten(t) == Some(v);
      assert Hashable(v) <==> Hashable(v.items[1]);
    }
  }

  lemma {:induction false} CallableRaisesIff(t: Type)
    requires t.CallableType? && NoPartial(t)
    ensures SnapshotTypeAsWritten(t).None? <==> HoldsUnhashableUnion(t)
    ensures SnapshotTypeAsWritten(t).Some? ==> (Hashable(SnapshotTypeAsWritten(t).value) <==> ListFree(t))
    decreases t, 1
  {
    EachRaisesIff(t.argTypes);
    AsWrittenRaisesIff(t.retType);
  }

  lemma {:induction false} TypeVarRaisesIff(t: Type)
    requires t.TypeVarType? && NoPartial(t)
    ensures SnapshotTypeAsWritten(t).None? <==> HoldsUnhashableUnion(t)
    ensures SnapshotTypeAsWritten(t).Some? ==> (Hashable(SnapshotTypeAsWritten(t).value) <==> ListFree(t))
    decreases t, 1
  {
    EachRaisesIff(t.values);
    AsWrittenRaisesIff(t.upperBound);
    if SnapshotTypeAsWritten(t).Some? {
      TypeVarHashableIff(t);
    }
  }

  lemma {:induction false} TypeVarHashableIff(t: Type)
    requires t.TypeVarType? && NoPartial(t) && SnapshotTypeAsWritten(t).Some?
    requires AllHashable(EachAsWritten(t.values).value) <==> AllListFree(t.values)
    requires Hashable(SnapshotTypeAsWritten(t.upperBound).value) <==> ListFree(t.upperBound)
    ensures Hashable(SnapshotTypeAsWritten(t).value) <==> ListFree(t)
    decreases t, 0
  {
    var vs, ub := EachAsWritten(t.values), SnapshotTypeAsWritten(t.upperBound);
    var v := Tuple([Str("TypeVar"), Str(t.name), Str(t.fullname), Int(t.id.rawId), Int(t.id.metaLevel),
                    Tuple(vs.value), ub.value, Int(t.variance)]);
    assert SnapshotTypeAsWritten(t) == Some(v);
    assert Hashable(v.items[5]) <==> AllHashable(vs.value);
    assert Hashable(v) <==> Hashable(v.items[5]) && Hashable(v.items[6]);
  }

  lemma {:induction false} FieldsRaiseIff(fields: seq<Field>)
    requires FieldsNoPartial(fields)
    ensures SnapshotTypeAsWritten(TypedDictType(fields)).None? <==> HoldsUnhashableUnion(TypedDictType(fields))
    ensures SnapshotTypeAsWritten(TypedDictType(fields)).Some? ==>
              (Hashable(SnapshotTypeAsWritten(TypedDictType(fields)).value) <==> ListFree(TypedDictType(fields)))
    decreases TypedDictType(fields), 1
  {
    forall i | 0 <= i < |fields|
      ensures SnapshotTypeAsWritten(fields[i].typ).None? <==> HoldsUnhashableUnion(fields[i].typ)
      ensures SnapshotTypeAsWritten(fields[i].typ).Some? ==>
                (Hashable(SnapshotTypeAsWritten(fields[i].typ).value) <==> ListFree(fields[i].typ))
    {
      AsWrittenRaisesIff(fields[i].typ);
    }
    if SnapshotTypeAsWritten(TypedDictType(fields)).Some? {
      FieldsHashableIff(fields);
    }
  }

  lemma {:induction false} FieldsHashableIff(fields: seq<Field>)
    requires FieldsNoPartial(fields) && SnapshotTypeAsWritten(TypedDictType(fields)).Some?
    requires forall i :: 0 <= i < |fields| && SnapshotTypeAsWritten(fields[i].typ).Some? ==>
               (Hashable(SnapshotTypeAsWritten(fields[i].typ).value) <==> ListFree(fields[i].typ))
    ensures Hashable(SnapshotTypeAsWritten(TypedDictType(fields)).value) <==> ListFree(TypedDictType(fields))
    decreases TypedDictType(fields), 0
  {
    var a := FieldsAsWritten(fields);
    forall i | 0 <= i < |a.value|
      ensures Hashable(a.value[i]) <==> ListFree(fields[i].typ)
    {
      var p := a.value[i];
      assert p == Tuple([Str(fields[i].key), SnapshotTypeAsWritten(fields[i].typ).value]);
      assert Hashable(p) <==> Hashable(p.items[1]);
    }
    var v := Tuple([Str("TypedDictType"), Tuple(a.value)]);
    assert SnapshotTypeAsWritten(TypedDictType(fields)) == Some(v);
    assert Hashable(v) <==> Hashable(v.items[1]);
  }

  lemma {:induction false} UnionRaisesIff(items: seq<Type>)
    requires AllNoPartial(items)
    ensures SnapshotTypeAsWritten(UnionType(items)).None? <==> HoldsUnhashableUnion(UnionType(items))
    ensures SnapshotTypeAsWritten(UnionType(items)).Some? ==>
              (Hashable(SnapshotTypeAsWritten(UnionType(items)).value) <==> ListFree(UnionType(items)))
    decreases UnionType(items), 1
  {
    EachRaisesIff(items);
    var a := EachAsWritten(items);
    if a.None? || !AllHashable(a.value) {
      assert SnapshotTypeAsWritten(UnionType(items)).None?;
    } else {
      TypeSnapshotProperties.NormalizedHashable(a.value);
      var v := Tuple([Str("UnionType"), Tuple(Normalize(a.value))]);
      assert SnapshotTypeAsWritten(UnionType(items)) == Some(v);
      assert Hashable(v);
    }
  }

  /** Once every member snapshot of a union is hashable, the `sorted` of
      line 337 returns as well: such members hold no list, so their
      snapshots are the corrected ones, and any two of those compare. So
      the set at line 336 is the only place a union raises as written. */
  lemma {:induction false} UnionSortableAsWritten(items: seq<Type>)
    requires AllNoPartial(items)
    requires EachAsWritten(items).Some? && AllHashable(EachAsWritten(items).value)
    ensures forall v, w :: v in EachAsWritten(items).value && w in EachAsWritten(items).value ==>
              Comparable(v, w)
  {
    EachRaisesIff(items);
    var a := EachAsWritten(items).value;
    forall i | 0 <= i < |items|
      ensures a[i] == TypeSnapshots.SnapshotType(items[i])
    {
      AsWrittenAgreesWhenListFree(items[i]);
    }
    assert a == TypeSnapshots.SnapshotEach(items);
    SnapshotOrder.UnionMembersSortable(items);
  }

  /** The definitions whose snapshot raises as written: a function without
      a type, a function or variable whose type raises, or a class with such
      a definition among its own entries, at any depth. */
  predicate DefinitionRaises(n: SymbolNode)
    decreases n
  {
    match n
    case FuncNode(_, _, typ) => typ.None? || HoldsUnhashableUnion(typ.value)
    case VarNode(_, typ) => typ.Some? && HoldsUnhashableUnion(typ.value)
    case TypeInfoNode(fullname, _, _, _, _, _, _, names) => TableRaises(fullname, names)
    case _ => false
  }

  predicate TableRaises(prefix: string, table: SymbolTable)
    decreases table
  {
    exists name :: name in table.entries && EntryRaises(prefix, table.entries[name])
  }

  predicate EntryRaises(prefix: string, e: SymbolTableNode)
    decreases e
  {
    !Shallow(prefix, e) && e.node.Some? && DefinitionRaises(e.node.value)
  }

  /** `snapshot_symbol_table` as written, `None` when some entry raises. */
  function SnapshotSymbolTableAsWritten(prefix: string, table: SymbolTable): (r: Option<TableSnapshot>)
    requires TableOk(prefix, table)
    ensures r.None? <==> TableRaises(prefix, table)
    ensures r.Some? ==> r.value.entries.Keys == table.entries.Keys
    decreases table, 1
  {
    if exists name :: name in table.entries && SnapshotEntryAsWritten(prefix, table.entries[name]).None? then None
    else Some(TableSnapshot(map name | name in table.entries :: SnapshotEntryAsWritten(prefix, table.entries[name]).value))
  }

  function SnapshotEntryAsWritten(prefix: string, e: SymbolTableNode): (r: Option<Item>)
    requires EntryOk(prefix, e)
    ensures r.None? <==> EntryRaises(prefix, e)
    ensures r.Some? ==> r.value.common == CommonOf(e)
    decreases e, 1
  {
    if e.kind == ModuleRef then Some(ModuleRefItem(CommonOf(e)))
    else if IsForeign(prefix, e) then Some(CrossRefItem(CommonOf(e)))
    else SnapshotDefinitionAsWritten(e.node.value, CommonOf(e))
  }

  /** `snapshot_definition` as written: a function's type goes to
      `snapshot_type` even when there is none, and every type is snapshotted
      as written. */
  function SnapshotDefinitionAsWritten(n: SymbolNode, common: Common): (r: Option<Item>)
    requires DefinitionOk(n)
    ensures r.None? <==> DefinitionRaises(n)
    ensures r.Some? ==> r.value.common == common && r.value.Tag() == DefinitionTag(n)
    decreases n, 1
  {
    if n.FuncNode? then
      if n.typ.None? then None
      else
        AsWrittenRaisesIff(n.typ.value);
        var v := SnapshotTypeAsWritten(n.typ.value);
        if v.None? then None else Some(FuncItem(common, n.isProperty, Some(v.value)))
    else if n.VarNode? then
      if n.typ.None? then Some(VarItem(common, None))
      else
        AsWrittenRaisesIff(n.typ.value);
        var v := SnapshotTypeAsWritten(n.typ.value);
        if v.None? then None else Some(VarItem(common, Some(v.value)))
    else
      var names := SnapshotSymbolTableAsWritten(n.fullname, n.names);
      if names.None? then None
      else Some(TypeInfoItem(common, ClassAttrs(n.isAbstract, n.isEnum, n.fallbackToAny, n.isNamedTuple,
                                                n.isNewtype, n.mro), names.value))
  }

  /** Every function annotated and no callable or unbound type anywhere,
      through local classes at any depth. */
  predicate DefinitionListFree(n: SymbolNode)
    decreases n
  {
    match n
    case FuncNode(_, _, typ) => typ.Some? && ListFree(typ.value)
    case VarNode(_, typ) => typ.Some? ==> ListFree(typ.value)
    case TypeInfoNode(fullname, _, _, _, _, _, _, names) => TableListFree(fullname, names)
    case _ => true
  }

  predicate TableListFree(prefix: string, table: SymbolTable)
    decreases table
  {
    forall name :: name in table.entries ==> EntryListFree(prefix, table.entries[name])
  }

  predicate EntryListFree(prefix: string, e: SymbolTableNode)
    decreases e
  {
    Shallow(prefix, e) || (e.node.Some? && DefinitionListFree(e.node.value))
  }

  /** Away from unannotated functions, callables and unbound types, the
      definition snapshot as written is the corrected one. */
  lemma {:induction false} DefinitionAgreesWhenListFree(n: SymbolNode, common: Common)
    requires DefinitionOk(n) && DefinitionListFree(n)
    ensures SnapshotDefinitionAsWritten(n, common) == Some(SnapshotDefinition(n, common))
    decreases n, 1
  {
    match n
    case FuncNode(_, _, typ) => AsWrittenAgreesWhenListFree(typ.value);
    case VarNode(_, typ) =>
      if typ.Some? {
        AsWrittenAgreesWhenListFree(typ.value);
      }
    case TypeInfoNode(fullname, _, _, _, _, _, _, names) => TableAgreesWhenListFree(fullname, names);
  }

  lemma {:induction false} TableAgreesWhenListFree(prefix: string, table: SymbolTable)
    requires TableOk(prefix, table) && TableListFree(prefix, table)
    ensures SnapshotSymbolTableAsWritten(prefix, table) == Some(SnapshotSymbolTable(prefix, table))
    decreases table, 1
  {
    forall name | name in table.entries
      ensures SnapshotEntryAsWritten(prefix, table.entries[name]) == Some(SnapshotEntry(prefix, table.entries[name]))
    {
      var e := table.entries[name];
      if !Shallow(prefix, e) {
        DefinitionAgreesWhenListFree(e.node.value, CommonOf(e));
      }
    }
    var r := SnapshotSymbolTableAsWritten(prefix, table);
    assert r.Some?;
    assert r.value.entries == SnapshotSymbolTable(prefix, table).entries;
  }

  /** An unannotated function `m.f` raises as written; the corrected
      snapshot records it with no signature. */
  lemma UnannotatedFunctionRaisesAsWritten()
    ensures SnapshotDefinitionAsWritten(FuncNode("m.f", false, None), Common(Some("m.f"), Gdef, true)).None?
    ensures SnapshotDefinition(FuncNode("m.f", false, None), Common(Some("m.f"), Gdef, true))
         == FuncItem(Common(Some("m.f"), Gdef, true), false, None)
  {
  }

  /** A class `m.C` holding an unannotated method `f` raises as written too:
      the class's own table is snapshotted, and `f` with it. */
  lemma UnannotatedMethodRaisesAsWritten()
    ensures SnapshotDefinitionAsWritten(UnannotatedMethodClass(), Common(Some("m.C"), Gdef, true)).None?
    ensures SnapshotDefinition(UnannotatedMethodClass(), Common(Some("m.C"), Gdef, true)).TypeInfoItem?
  {
    var c := UnannotatedMethodClass();
    var f := c.names.entries["f"];
    assert GetPrefix("m.C.f") == "m.C" by {
      PrefixOfQualified("m.C", "f");
    }
    assert EntryRaises("m.C", f);
  }

  function UnannotatedMethodClass(): (c: SymbolNode)
    ensures DefinitionOk(c)
  {
    var f := SymbolTableNode(Mdef, Some(FuncNode("m.C.f", false, None)), true);
    assert GetPrefix("m.C.f") == "m.C" by {
      PrefixOfQualified("m.C", "f");
    }
    assert EntryOk("m.C", f);
    assert TableOk("m.C", SymbolTable(map["f" := f]));
    TypeInfoNode("m.C", false, false, false, false, false, ["m.C", "builtins.object"],
                 SymbolTable(map["f" := f]))
  }

  /** A variable declared `Union[Callable[[], None], int]` raises as
      written, at the union; the corrected snapshot records its type. */
  lemma CallableUnionVariableRaisesAsWritten()
    ensures SnapshotDefinitionAsWritten(VarNode("m.x", Some(CallableOrInt())), Common(Some("m.x"), Gdef, true)).None?
    ensures SnapshotDefinition(VarNode("m.x", Some(CallableOrInt())), Common(Some("m.x"), Gdef, true)).typ.Some?
  {
    UnionOfCallableRaisesAsWritten();
  }

  /** `Union[Callable[[], None], int]`, a union whatever the optional-type
      setting of the analyser. */
  function CallableOrInt(): Type
  {
    UnionType([CallableType([], NoneTyp, [], [], false, false), Instance("builtins.int", [])])
  }
}
