/** What the as-written snapshots tell apart, against the corrected ones.
    Wherever the code as written returns, two of its snapshots are equal
    exactly when the corrected snapshots are; so on the tables it does not
    raise on, it reports the same triggers. The lists it builds cost
    hashability, never information. */
module AsWrittenProperties {

  import opened Wrappers
  import opened Types
  import opened Values
  import opened Symbols
  import opened TableSnapshots
  import opened AsWritten
  import opened Compare
  import TypeSnapshots
  import TypeSnapshotProperties

  /** A union that returns as written has only list-free members, so its
      snapshot is the corrected one. */
  lemma UnionAsWrittenIsCorrected(t: Type)
    requires t.UnionType? && NoPartial(t) && SnapshotTypeAsWritten(t).Some?
    ensures SnapshotTypeAsWritten(t) == Some(TypeSnapshots.SnapshotType(t))
  {
    EachRaisesIff(t.items);
    assert ListFree(t);
    AsWrittenAgreesWhenListFree(t);
  }

  /** Equal as-written snapshots mean the same type up to union order and
      repetition. */
  lemma {:induction false} AsWrittenEqualImpliesEquiv(t: Type, s: Type)
    requires NoPartial(t) && NoPartial(s)
    requires SnapshotTypeAsWritten(t).Some? && SnapshotTypeAsWritten(t) == SnapshotTypeAsWritten(s)
    ensures TypeSnapshotProperties.Equiv(t, s)
    decreases t, 2
  {
    assert SnapshotTypeAsWritten(t).value.items[0] == SnapshotTypeAsWritten(s).value.items[0];
    TypeSnapshots.TagIdentifiesVariant(t, s);
    if t.UnboundType? {
      UnboundAsWrittenEqual(t, s);
    } else if t.Instance? {
      InstanceAsWrittenEqual(t, s);
    } else if t.TypeVarType? {
      TypeVarAsWrittenEqual(t, s);
    } else if t.CallableType? {
      CallableAsWrittenEqual(t, s);
    } else if t.TupleType? {
      TupleAsWrittenEqual(t, s);
    } else if t.TypedDictType? {
      TypedDictAsWrittenEqual(t, s);
    } else if t.UnionType? {
      UnionAsWrittenIsCorrected(t);
      UnionAsWrittenIsCorrected(s);
      TypeSnapshotProperties.SnapshotsEqualImplyEquiv(t, s);
    } else if t.Overloaded? {
      OverloadedAsWrittenEqual(t, s);
    } else if t.TypeType? {
      TypeTypeAsWrittenEqual(t, s);
    }
  }

  lemma {:induction false} UnboundAsWrittenEqual(t: Type, s: Type)
    requires t.UnboundType? && s.UnboundType? && NoPartial(t) && NoPartial(s)
    requires SnapshotTypeAsWritten(t).Some? && SnapshotTypeAsWritten(t) == SnapshotTypeAsWritten(s)
    ensures TypeSnapshotProperties.Equiv(t, s)
    decreases t, 1
  {
    var a, b := SnapshotTypeAsWritten(t).value, SnapshotTypeAsWritten(s).value;
    assert a.items[1] == b.items[1] && a.items[2] == b.items[2] && a.items[3] == b.items[3];
    assert a.items[4] == b.items[4];
    EachAsWrittenEqualImpliesEquiv(t.args, s.args);
  }

  lemma {:induction false} InstanceAsWrittenEqual(t: Type, s: Type)
    requires t.Instance? && s.Instance? && NoPartial(t) && NoPartial(s)
    requires SnapshotTypeAsWritten(t).Some? && SnapshotTypeAsWritten(t) == SnapshotTypeAsWritten(s)
    ensures TypeSnapshotProperties.Equiv(t, s)
    decreases t, 1
  {
    var a, b := SnapshotTypeAsWritten(t).value, SnapshotTypeAsWritten(s).value;
    assert a.items[1] == b.items[1] && a.items[2] == b.items[2];
    EachAsWrittenEqualImpliesEquiv(t.args, s.args);
  }

  lemma {:induction false} TypeVarAsWrittenEqual(t: Type, s: Type)
    requires t.TypeVarType? && s.TypeVarType? && NoPartial(t) && NoPartial(s)
    requires SnapshotTypeAsWritten(t).Some? && SnapshotTypeAsWritten(t) == SnapshotTypeAsWritten(s)
    ensures TypeSnapshotProperties.Equiv(t, s)
    decreases t, 1
  {
    var a, b := SnapshotTypeAsWritten(t).value, SnapshotTypeAsWritten(s).value;
    assert a.items[1] == b.items[1] && a.items[2] == b.items[2];
    assert a.items[3] == b.items[3] && a.items[4] == b.items[4];
    assert a.items[5] == b.items[5] && a.items[6] == b.items[6] && a.items[7] == b.items[7];
    EachAsWrittenEqualImpliesEquiv(t.values, s.values);
    AsWrittenEqualImpliesEquiv(t.upperBound, s.upperBound);
  }

  lemma {:induction false} CallableAsWrittenEqual(t: Type, s: Type)
    requires t.CallableType? && s.CallableType? && NoPartial(t) && NoPartial(s)
    requires SnapshotTypeAsWritten(t).Some? && SnapshotTypeAsWritten(t) == SnapshotTypeAsWritten(s)
    ensures TypeSnapshotProperties.Equiv(t, s)
    decreases t, 1
  {
    var a, b := SnapshotTypeAsWritten(t).value, SnapshotTypeAsWritten(s).value;
    assert a.items[1] == b.items[1] && a.items[2] == b.items[2];
    assert a.items[3] == b.items[3] && a.items[4] == b.items[4];
    assert a.items[5] == b.items[5] && a.items[6] == b.items[6];
    EachAsWrittenEqualImpliesEquiv(t.argTypes, s.argTypes);
    AsWrittenEqualImpliesEquiv(t.retType, s.retType);
    EncodeNamesAsWrittenInjective(t.argNames, s.argNames);
    TypeSnapshotProperties.EncodeKindsInjective(t.argKinds, s.argKinds);
  }

  lemma {:induction false} TupleAsWrittenEqual(t: Type, s: Type)
    requires t.TupleType? && s.TupleType? && NoPartial(t) && NoPartial(s)
    requires SnapshotTypeAsWritten(t).Some? && SnapshotTypeAsWritten(t) == SnapshotTypeAsWritten(s)
    ensures TypeSnapshotProperties.Equiv(t, s)
    decreases t, 1
  {
    assert SnapshotTypeAsWritten(t).value.items[1] == SnapshotTypeAsWritten(s).value.items[1];
    EachAsWrittenEqualImpliesEquiv(t.items, s.items);
  }

  lemma {:induction false} TypedDictAsWrittenEqual(t: Type, s: Type)
    requires t.TypedDictType? && s.TypedDictType? && NoPartial(t) && NoPartial(s)
    requires SnapshotTypeAsWritten(t).Some? && SnapshotTypeAsWritten(t) == SnapshotTypeAsWritten(s)
    ensures TypeSnapshotProperties.Equiv(t, s)
    decreases t, 1
  {
    assert SnapshotTypeAsWritten(t).value.items[1] == SnapshotTypeAsWritten(s).value.items[1];
    FieldsAsWrittenEqualImplyEquiv(t.fields, s.fields);
  }

  lemma {:induction false} OverloadedAsWrittenEqual(t: Type, s: Type)
    requires t.Overloaded? && s.Overloaded? && NoPartial(t) && NoPartial(s)
    requires SnapshotTypeAsWritten(t).Some? && SnapshotTypeAsWritten(t) == SnapshotTypeAsWritten(s)
    ensures TypeSnapshotProperties.Equiv(t, s)
    decreases t, 1
  {
    assert SnapshotTypeAsWritten(t).value.items[1] == SnapshotTypeAsWritten(s).value.items[1];
    EachAsWrittenEqualImpliesEquiv(t.items, s.items);
  }

  lemma {:induction false} TypeTypeAsWrittenEqual(t: Type, s: Type)
    requires t.TypeType? && s.TypeType? && NoPartial(t) && NoPartial(s)
    requires SnapshotTypeAsWritten(t).Some? && SnapshotTypeAsWritten(t) == SnapshotTypeAsWritten(s)
    ensures TypeSnapshotProperties.Equiv(t, s)
    decreases t, 1
  {
    assert SnapshotTypeAsWritten(t).value.items[1] == SnapshotTypeAsWritten(s).value.items[1];
    AsWrittenEqualImpliesEquiv(t.item, s.item);
  }

  lemma {:induction false} EachAsWrittenEqualImpliesEquiv(xs: seq<Type>, ys: seq<Type>)
    requires AllNoPartial(xs) && AllNoPartial(ys)
    requires EachAsWritten(xs).Some? && EachAsWritten(xs) == EachAsWritten(ys)
    ensures TypeSnapshotProperties.EquivEach(xs, ys)
    decreases xs, 0
  {
    forall i | 0 <= i < |xs|
      ensures TypeSnapshotProperties.Equiv(xs[i], ys[i])
    {
      AsWrittenEqualImpliesEquiv(xs[i], ys[i]);
    }
  }

  lemma {:induction false} FieldsAsWrittenEqualImplyEquiv(fs: seq<Field>, gs: seq<Field>)
    requires FieldsNoPartial(fs) && FieldsNoPartial(gs)
    requires FieldsAsWritten(fs).Some? && FieldsAsWritten(fs) == FieldsAsWritten(gs)
    ensures TypeSnapshotProperties.EquivFields(fs, gs)
    decreases fs, 0
  {
    forall i | 0 <= i < |fs|
      ensures fs[i].key == gs[i].key && TypeSnapshotProperties.Equiv(fs[i].typ, gs[i].typ)
    {
      var p, q := FieldsAsWritten(fs).value[i], FieldsAsWritten(gs).value[i];
      assert p.items[0] == q.items[0] && p.items[1] == q.items[1];
      AsWrittenEqualImpliesEquiv(fs[i].typ, gs[i].typ);
    }
  }

  lemma EncodeNamesAsWrittenInjective(xs: seq<Option<string>>, ys: seq<Option<string>>)
    requires EncodeNamesAsWritten(xs) == EncodeNamesAsWritten(ys)
    ensures xs == ys
  {
    var a, b := EncodeNamesAsWritten(xs), EncodeNamesAsWritten(ys);
    forall i | 0 <= i < |xs|
      ensures xs[i] == ys[i]
    {
      assert a[i] == b[i];
    }
  }

  /** The same type up to union order and repetition has the same
      as-written snapshot, wherever both return. */
  lemma {:induction false} EquivImpliesAsWrittenEqual(t: Type, s: Type)
    requires NoPartial(t) && NoPartial(s)
    requires SnapshotTypeAsWritten(t).Some? && SnapshotTypeAsWritten(s).Some?
    requires TypeSnapshotProperties.Equiv(t, s)
    ensures SnapshotTypeAsWritten(t) == SnapshotTypeAsWritten(s)
    decreases t, 2
  {
    match t
    case UnboundType(_, _, _, args) => EachEquivImpliesAsWrittenEqual(args, s.args);
    case Instance(_, args) => EachEquivImpliesAsWrittenEqual(args, s.args);
    case TypeVarType(_, _, _, values, upperBound, _) =>
      EachEquivImpliesAsWrittenEqual(values, s.values);
      EquivImpliesAsWrittenEqual(upperBound, s.upperBound);
    case CallableType(argTypes, retType, _, _, _, _) =>
      EachEquivImpliesAsWrittenEqual(argTypes, s.argTypes);
      EquivImpliesAsWrittenEqual(retType, s.retType);
    case TupleType(items) => EachEquivImpliesAsWrittenEqual(items, s.items);
    case TypedDictType(fields) => FieldsEquivImplyAsWrittenEqual(fields, s.fields);
    case UnionType(_) =>
      UnionAsWrittenIsCorrected(t);
      UnionAsWrittenIsCorrected(s);
      TypeSnapshotProperties.EquivImpliesSnapshotsEqual(t, s);
    case Overloaded(items) => EachEquivImpliesAsWrittenEqual(items, s.items);
    case TypeType(item) => EquivImpliesAsWrittenEqual(item, s.item);
    case _ =>
  }

  lemma {:induction false} EachEquivImpliesAsWrittenEqual(xs: seq<Type>, ys: seq<Type>)
    requires AllNoPartial(xs) && AllNoPartial(ys)
    requires EachAsWritten(xs).Some? && EachAsWritten(ys).Some?
    requires TypeSnapshotProperties.EquivEach(xs, ys)
    ensures EachAsWritten(xs) == EachAsWritten(ys)
    decreases xs, 0
  {
    forall i | 0 <= i < |xs|
      ensures SnapshotTypeAsWritten(xs[i]) == SnapshotTypeAsWritten(ys[i])
    {
      EquivImpliesAsWrittenEqual(xs[i], ys[i]);
    }
    assert EachAsWritten(xs).value == EachAsWritten(ys).value;
  }

  lemma {:induction false} FieldsEquivImplyAsWrittenEqual(fs: seq<Field>, gs: seq<Field>)
    requires FieldsNoPartial(fs) && FieldsNoPartial(gs)
    requires FieldsAsWritten(fs).Some? && FieldsAsWritten(gs).Some?
    requires TypeSnapshotProperties.EquivFields(fs, gs)
    ensures FieldsAsWritten(fs) == FieldsAsWritten(gs)
    decreases fs, 0
  {
    forall i | 0 <= i < |fs|
      ensures SnapshotTypeAsWritten(fs[i].typ) == SnapshotTypeAsWritten(gs[i].typ)
    {
      EquivImpliesAsWrittenEqual(fs[i].typ, gs[i].typ);
    }
    assert FieldsAsWritten(fs).value == FieldsAsWritten(gs).value;
  }

  /** Where the code as written returns, its snapshots of two types are
      equal exactly when the corrected snapshots are. */
  lemma AsWrittenEqualIffSnapshotsEqual(t: Type, s: Type)
    requires NoPartial(t) && NoPartial(s)
    requires SnapshotTypeAsWritten(t).Some? && SnapshotTypeAsWritten(s).Some?
    ensures SnapshotTypeAsWritten(t) == SnapshotTypeAsWritten(s)
        <==> TypeSnapshots.SnapshotType(t) == TypeSnapshots.SnapshotType(s)
  {
    TypeSnapshotProperties.SnapshotsEqualIffEquiv(t, s);
    if SnapshotTypeAsWritten(t) == SnapshotTypeAsWritten(s) {
      AsWrittenEqualImpliesEquiv(t, s);
    } else if TypeSnapshotProperties.Equiv(t, s) {
      EquivImpliesAsWrittenEqual(t, s);
    }
  }

  /** The as-written item of an entry that returns, against its corrected
      item: the same kind and common fields; module references and foreign
      names alike; a function or variable with the as-written snapshot of
      its type in place of the corrected one; a class with the same flags
      and MRO and its own table snapshotted as written. */
  lemma {:induction false} EntryMirrored(prefix: string, e: SymbolTableNode)
    requires EntryOk(prefix, e) && SnapshotEntryAsWritten(prefix, e).Some?
    ensures SnapshotEntryAsWritten(prefix, e).value.common == SnapshotEntry(prefix, e).common
    ensures SnapshotEntryAsWritten(prefix, e).value.Tag() == SnapshotEntry(prefix, e).Tag()
    ensures Shallow(prefix, e) ==> SnapshotEntryAsWritten(prefix, e).value == SnapshotEntry(prefix, e)
    ensures !Shallow(prefix, e) ==> e.node.Some? && DefinitionOk(e.node.value)
    ensures !Shallow(prefix, e) && e.node.value.FuncNode? ==>
              && e.node.value.typ.Some? && SnapshotTypeAsWritten(e.node.value.typ.value).Some?
              && SnapshotEntryAsWritten(prefix, e).value
                 == FuncItem(CommonOf(e), e.node.value.isProperty, SnapshotTypeAsWritten(e.node.value.typ.value))
              && SnapshotEntry(prefix, e)
                 == FuncItem(CommonOf(e), e.node.value.isProperty,
                             Some(TypeSnapshots.SnapshotType(e.node.value.typ.value)))
    ensures !Shallow(prefix, e) && e.node.value.VarNode? ==>
              && (e.node.value.typ.None? ==> SnapshotEntryAsWritten(prefix, e).value == SnapshotEntry(prefix, e))
              && (e.node.value.typ.Some? ==>
                    && SnapshotTypeAsWritten(e.node.value.typ.value).Some?
                    && SnapshotEntryAsWritten(prefix, e).value
                       == VarItem(CommonOf(e), SnapshotTypeAsWritten(e.node.value.typ.value))
                    && SnapshotEntry(prefix, e)
                       == VarItem(CommonOf(e), Some(TypeSnapshots.SnapshotType(e.node.value.typ.value))))
    ensures !Shallow(prefix, e) && e.node.value.TypeInfoNode? ==>
              && SnapshotSymbolTableAsWritten(e.node.value.fullname, e.node.value.names).Some?
              && SnapshotEntryAsWritten(prefix, e).value.attrs == SnapshotEntry(prefix, e).attrs
              && SnapshotEntryAsWritten(prefix, e).value.names
                 == SnapshotSymbolTableAsWritten(e.node.value.fullname, e.node.value.names).value
              && SnapshotEntry(prefix, e).names == SnapshotSymbolTable(e.node.value.fullname, e.node.value.names)
  {
    if !Shallow(prefix, e) {
      var n := e.node.value;
      if n.FuncNode? || n.VarNode? {
        if n.typ.Some? {
          AsWrittenRaisesIff(n.typ.value);
        }
      }
    }
  }

  /** Two leaf items that return as written are equal exactly when their
      corrected items are. */
  lemma {:induction false} LeafEntriesAgree(p1: string, e1: SymbolTableNode, p2: string, e2: SymbolTableNode)
    requires EntryOk(p1, e1) && SnapshotEntryAsWritten(p1, e1).Some?
    requires EntryOk(p2, e2) && SnapshotEntryAsWritten(p2, e2).Some?
    requires SnapshotEntryAsWritten(p1, e1).value.Tag() == SnapshotEntryAsWritten(p2, e2).value.Tag()
    requires !SnapshotEntryAsWritten(p1, e1).value.TypeInfoItem?
    ensures SnapshotEntryAsWritten(p1, e1).value == SnapshotEntryAsWritten(p2, e2).value
        <==> SnapshotEntry(p1, e1) == SnapshotEntry(p2, e2)
  {
    EntryMirrored(p1, e1);
    EntryMirrored(p2, e2);
    var a1, a2 := SnapshotEntryAsWritten(p1, e1).value, SnapshotEntryAsWritten(p2, e2).value;
    TagIdentifiesVariant(a1, a2);
    if !Shallow(p1, e1) && !Shallow(p2, e2) {
      var n1, n2 := e1.node.value, e2.node.value;
      if (n1.FuncNode? || n1.VarNode?) && (n2.FuncNode? || n2.VarNode?) && n1.typ.Some? && n2.typ.Some? {
        AsWrittenEqualIffSnapshotsEqual(n1.typ.value, n2.typ.value);
      }
    }
  }

  /** An entry present in both tables gets the same triggers as written as
      corrected. */
  lemma {:induction false} EntryTriggersAgree(prefix: string, name: string,
                                              p1: string, e1: SymbolTableNode, p2: string, e2: SymbolTableNode)
    requires EntryOk(p1, e1) && SnapshotEntryAsWritten(p1, e1).Some?
    requires EntryOk(p2, e2) && SnapshotEntryAsWritten(p2, e2).Some?
    ensures ItemTriggers(prefix, name, SnapshotEntryAsWritten(p1, e1).value, SnapshotEntryAsWritten(p2, e2).value)
         == ItemTriggers(prefix, name, SnapshotEntry(p1, e1), SnapshotEntry(p2, e2))
    decreases e1, 1
  {
    EntryMirrored(p1, e1);
    EntryMirrored(p2, e2);
    var a1, a2 := SnapshotEntryAsWritten(p1, e1).value, SnapshotEntryAsWritten(p2, e2).value;
    var c1, c2 := SnapshotEntry(p1, e1), SnapshotEntry(p2, e2);
    if a1.Tag() != a2.Tag() {
    } else if a1.TypeInfoItem? {
      TagIdentifiesVariant(a1, a2);
      TagIdentifiesVariant(c1, c2);
      var n1, n2 := e1.node.value, e2.node.value;
      ClassItemTriggers(prefix, name, a1, a2);
      ClassItemTriggers(prefix, name, c1, c2);
      TriggersAgreeAsWritten(Qualify(prefix, name), n1.fullname, n1.names, n2.fullname, n2.names);
    } else {
      LeafEntriesAgree(p1, e1, p2, e2);
    }
  }

  /** Where neither table raises as written, the diff of the as-written
      snapshots is the diff of the corrected ones: the code as written
      misses no change and reports no extra one. */
  lemma {:induction false} TriggersAgreeAsWritten(prefix: string,
                                                  p1: string, t1: SymbolTable, p2: string, t2: SymbolTable)
    requires TableOk(p1, t1) && SnapshotSymbolTableAsWritten(p1, t1).Some?
    requires TableOk(p2, t2) && SnapshotSymbolTableAsWritten(p2, t2).Some?
    ensures CompareSymbolTableSnapshots(prefix, SnapshotSymbolTableAsWritten(p1, t1).value,
                                        SnapshotSymbolTableAsWritten(p2, t2).value)
         == CompareSymbolTableSnapshots(prefix, SnapshotSymbolTable(p1, t1), SnapshotSymbolTable(p2, t2))
    decreases t1, 2
  {
    var a1, a2 := SnapshotSymbolTableAsWritten(p1, t1).value, SnapshotSymbolTableAsWritten(p2, t2).value;
    var c1, c2 := SnapshotSymbolTable(p1, t1), SnapshotSymbolTable(p2, t2);
    forall n | n in a1.entries && n in a2.entries
      ensures ItemTriggers(prefix, n, a1.entries[n], a2.entries[n]) == ItemTriggers(prefix, n, c1.entries[n], c2.entries[n])
    {
      NamedEntryTriggersAgree(prefix, n, p1, t1, p2, t2);
    }
    SameItemTriggersSameDiff(prefix, a1, a2, c1, c2);
  }

  lemma {:induction false} NamedEntryTriggersAgree(prefix: string, n: string,
                                                   p1: string, t1: SymbolTable, p2: string, t2: SymbolTable)
    requires TableOk(p1, t1) && SnapshotSymbolTableAsWritten(p1, t1).Some?
    requires TableOk(p2, t2) && SnapshotSymbolTableAsWritten(p2, t2).Some?
    requires n in t1.entries && n in t2.entries
    ensures ItemTriggers(prefix, n, SnapshotSymbolTableAsWritten(p1, t1).value.entries[n],
                         SnapshotSymbolTableAsWritten(p2, t2).value.entries[n])
         == ItemTriggers(prefix, n, SnapshotSymbolTable(p1, t1).entries[n], SnapshotSymbolTable(p2, t2).entries[n])
    decreases t1, 1
  {
    var e1, e2 := t1.entries[n], t2.entries[n];
    assert SnapshotSymbolTableAsWritten(p1, t1).value.entries[n] == SnapshotEntryAsWritten(p1, e1).value;
    assert SnapshotSymbolTableAsWritten(p2, t2).value.entries[n] == SnapshotEntryAsWritten(p2, e2).value;
    assert SnapshotSymbolTable(p1, t1).entries[n] == SnapshotEntry(p1, e1);
    assert SnapshotSymbolTable(p2, t2).entries[n] == SnapshotEntry(p2, e2);
    EntryTriggersAgree(prefix, n, p1, e1, p2, e2);
  }

  /** Two pairs of snapshots with the same names, whose shared names each
      get the same triggers, have the same diff. */
  lemma SameItemTriggersSameDiff(prefix: string, a1: TableSnapshot, a2: TableSnapshot,
                                 c1: TableSnapshot, c2: TableSnapshot)
    requires a1.entries.Keys == c1.entries.Keys && a2.entries.Keys == c2.entries.Keys
    requires forall n :: n in a1.entries && n in a2.entries ==>
               ItemTriggers(prefix, n, a1.entries[n], a2.entries[n])
               == ItemTriggers(prefix, n, c1.entries[n], c2.entries[n])
    ensures CompareSymbolTableSnapshots(prefix, a1, a2) == CompareSymbolTableSnapshots(prefix, c1, c2)
  {
    assert ChangeTriggers(prefix, a1, a2) == ChangeTriggers(prefix, c1, c2);
  }
}
