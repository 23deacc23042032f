/** End-to-end properties: from symbol tables, through their snapshots, to
    the triggers of the diff. */
module TableSnapshotProperties {

  import opened Wrappers
  import opened Types
  import opened Symbols
  import opened TableSnapshots
  import opened Compare
  import opened CompareProperties
  import TypeSnapshots
  import TypeSnapshotProperties

  /** Changes behind a module reference or a name owned by another module,
      which leave the entry's target name, kind and visibility alone, change
      neither the snapshot nor the diff. */
  lemma ForeignDetailsInvisible(prefix: string, t1: SymbolTable, t2: SymbolTable)
    requires TableOk(prefix, t1) && TableOk(prefix, t2)
    requires t1.entries.Keys == t2.entries.Keys
    requires forall n :: n in t1.entries ==>
               t1.entries[n] == t2.entries[n]
               || (Shallow(prefix, t1.entries[n]) && Shallow(prefix, t2.entries[n])
                   && CommonOf(t1.entries[n]) == CommonOf(t2.entries[n]))
    ensures SnapshotSymbolTable(prefix, t1) == SnapshotSymbolTable(prefix, t2)
    ensures CompareSymbolTableSnapshots(prefix, SnapshotSymbolTable(prefix, t1), SnapshotSymbolTable(prefix, t2)) == {}
  {
    var s1 := SnapshotSymbolTable(prefix, t1);
    var s2 := SnapshotSymbolTable(prefix, t2);
    forall n | n in s1.entries ensures s1.entries[n] == s2.entries[n] {
      assert s1.entries[n] == SnapshotEntry(prefix, t1.entries[n]);
      assert s2.entries[n] == SnapshotEntry(prefix, t2.entries[n]);
    }
    assert s1.entries == s2.entries;
    SelfDiffEmpty(prefix, s1);
  }

  /** Setting one entry of a table sets the same entry of its snapshot. */
  lemma SnapshotOfUpdate(prefix: string, table: SymbolTable, n: string, e: SymbolTableNode)
    requires TableOk(prefix, table) && EntryOk(prefix, e)
    ensures TableOk(prefix, SymbolTable(table.entries[n := e]))
    ensures SnapshotSymbolTable(prefix, SymbolTable(table.entries[n := e]))
         == TableSnapshot(SnapshotSymbolTable(prefix, table).entries[n := SnapshotEntry(prefix, e)])
  {
    var updated := SymbolTable(table.entries[n := e]);
    assert TableOk(prefix, updated);
    var left := SnapshotSymbolTable(prefix, updated);
    var right := TableSnapshot(SnapshotSymbolTable(prefix, table).entries[n := SnapshotEntry(prefix, e)]);
    forall m | m in left.entries ensures left.entries[m] == right.entries[m] {
      if m != n {
        assert updated.entries[m] == table.entries[m];
      }
    }
    assert left.entries == right.entries;
  }

  /** Two optional types (function signatures, or declared variable types)
      describe the same type: both absent, or both present and equivalent. */
  predicate SameSignature(a: Option<Type>, b: Option<Type>)
  {
    match (a, b)
    case (None, None) => true
    case (Some(x), Some(y)) => TypeSnapshotProperties.Equiv(x, y)
    case _ => false
  }

  /** A local function entry. */
  function LocalFunction(kind: Kind, fullname: string, isProperty: bool, sig: Option<Type>, public: bool): SymbolTableNode
  {
    SymbolTableNode(kind, Some(FuncNode(fullname, isProperty, sig)), public)
  }

  /** Two tables that differ in one entry only differ, in the diff, by
      the triggers of that entry's two snapshots. */
  lemma OneEntryChanged(prefix: string, table: SymbolTable, n: string, e1: SymbolTableNode, e2: SymbolTableNode)
    requires TableOk(prefix, table) && n !in table.entries
    requires EntryOk(prefix, e1) && EntryOk(prefix, e2)
    ensures TableOk(prefix, SymbolTable(table.entries[n := e1]))
    ensures TableOk(prefix, SymbolTable(table.entries[n := e2]))
    ensures CompareSymbolTableSnapshots(prefix, SnapshotSymbolTable(prefix, SymbolTable(table.entries[n := e1])),
                                        SnapshotSymbolTable(prefix, SymbolTable(table.entries[n := e2])))
         == ItemTriggers(prefix, n, SnapshotEntry(prefix, e1), SnapshotEntry(prefix, e2))
  {
    SnapshotOfUpdate(prefix, table, n, e1);
    SnapshotOfUpdate(prefix, table, n, e2);
    var s := SnapshotSymbolTable(prefix, table);
    EntryContribution(prefix, s, s, n, SnapshotEntry(prefix, e1), SnapshotEntry(prefix, e2));
    SelfDiffEmpty(prefix, s);
  }

  /** The snapshot of a local function entry. */
  lemma LocalFunctionSnapshot(prefix: string, kind: Kind, fullname: string, isProperty: bool,
                              sig: Option<Type>, public: bool)
    requires kind == Ldef || kind == Gdef || kind == Mdef
    requires GetPrefix(fullname) == prefix
    requires sig.Some? ==> NoPartial(sig.value)
    ensures EntryOk(prefix, LocalFunction(kind, fullname, isProperty, sig, public))
    ensures SnapshotEntry(prefix, LocalFunction(kind, fullname, isProperty, sig, public))
         == FuncItem(Common(Some(fullname), kind, public), isProperty, TypeSnapshots.SnapshotOptionalType(sig))
  {
  }

  /** Optional signatures snapshot alike exactly when they are the same. */
  lemma SameSignatureIffSameSnapshot(a: Option<Type>, b: Option<Type>)
    requires a.Some? ==> NoPartial(a.value)
    requires b.Some? ==> NoPartial(b.value)
    ensures TypeSnapshots.SnapshotOptionalType(a) == TypeSnapshots.SnapshotOptionalType(b) <==> SameSignature(a, b)
  {
    if a.Some? && b.Some? {
      TypeSnapshotProperties.SnapshotsEqualIffEquiv(a.value, b.value);
    }
  }

  /** Replacing the signature of a local function reports exactly the
      function's qualified name, and only when the new signature is not
      the same as the old one (a reordered union, for example, is not a
      change). */
  lemma SignatureChangeReportedIffNotSame(prefix: string, table: SymbolTable, n: string, kind: Kind,
                                          fullname: string, isProperty: bool, public: bool,
                                          sig1: Option<Type>, sig2: Option<Type>)
    requires TableOk(prefix, table) && n !in table.entries
    requires kind == Ldef || kind == Gdef || kind == Mdef
    requires GetPrefix(fullname) == prefix
    requires sig1.Some? ==> NoPartial(sig1.value)
    requires sig2.Some? ==> NoPartial(sig2.value)
    ensures TableOk(prefix, SymbolTable(table.entries[n := LocalFunction(kind, fullname, isProperty, sig1, public)]))
    ensures TableOk(prefix, SymbolTable(table.entries[n := LocalFunction(kind, fullname, isProperty, sig2, public)]))
    ensures CompareSymbolTableSnapshots(
              prefix,
              SnapshotSymbolTable(prefix, SymbolTable(table.entries[n := LocalFunction(kind, fullname, isProperty, sig1, public)])),
              SnapshotSymbolTable(prefix, SymbolTable(table.entries[n := LocalFunction(kind, fullname, isProperty, sig2, public)])))
         == if SameSignature(sig1, sig2) then {} else {Qualify(prefix, n)}
  {
    var e1 := LocalFunction(kind, fullname, isProperty, sig1, public);
    var e2 := LocalFunction(kind, fullname, isProperty, sig2, public);
    LocalFunctionSnapshot(prefix, kind, fullname, isProperty, sig1, public);
    LocalFunctionSnapshot(prefix, kind, fullname, isProperty, sig2, public);
    OneEntryChanged(prefix, table, n, e1, e2);
    SameSignatureIffSameSnapshot(sig1, sig2);
    var r := ItemTriggers(prefix, n, SnapshotEntry(prefix, e1), SnapshotEntry(prefix, e2));
    assert r <= {Qualify(prefix, n)};
  }

  /** A local variable entry. */
  function LocalVariable(kind: Kind, fullname: string, typ: Option<Type>, public: bool): SymbolTableNode
  {
    SymbolTableNode(kind, Some(VarNode(fullname, typ)), public)
  }

  /** The snapshot of a local variable entry. */
  lemma LocalVariableSnapshot(prefix: string, kind: Kind, fullname: string, typ: Option<Type>, public: bool)
    requires kind == Ldef || kind == Gdef || kind == Mdef
    requires GetPrefix(fullname) == prefix
    requires typ.Some? ==> NoPartial(typ.value)
    ensures EntryOk(prefix, LocalVariable(kind, fullname, typ, public))
    ensures SnapshotEntry(prefix, LocalVariable(kind, fullname, typ, public))
         == VarItem(Common(Some(fullname), kind, public), TypeSnapshots.SnapshotOptionalType(typ))
  {
  }

  /** Replacing the declared type of a local variable reports exactly the
      variable's qualified name, and only when the new type is not the same
      as the old one. */
  lemma VarTypeChangeReportedIffNotSame(prefix: string, table: SymbolTable, n: string, kind: Kind,
                                        fullname: string, public: bool, typ1: Option<Type>, typ2: Option<Type>)
    requires TableOk(prefix, table) && n !in table.entries
    requires kind == Ldef || kind == Gdef || kind == Mdef
    requires GetPrefix(fullname) == prefix
    requires typ1.Some? ==> NoPartial(typ1.value)
    requires typ2.Some? ==> NoPartial(typ2.value)
    ensures TableOk(prefix, SymbolTable(table.entries[n := LocalVariable(kind, fullname, typ1, public)]))
    ensures TableOk(prefix, SymbolTable(table.entries[n := LocalVariable(kind, fullname, typ2, public)]))
    ensures CompareSymbolTableSnapshots(
              prefix,
              SnapshotSymbolTable(prefix, SymbolTable(table.entries[n := LocalVariable(kind, fullname, typ1, public)])),
              SnapshotSymbolTable(prefix, SymbolTable(table.entries[n := LocalVariable(kind, fullname, typ2, public)])))
         == if SameSignature(typ1, typ2) then {} else {Qualify(prefix, n)}
  {
    var e1 := LocalVariable(kind, fullname, typ1, public);
    var e2 := LocalVariable(kind, fullname, typ2, public);
    LocalVariableSnapshot(prefix, kind, fullname, typ1, public);
    LocalVariableSnapshot(prefix, kind, fullname, typ2, public);
    OneEntryChanged(prefix, table, n, e1, e2);
    SameSignatureIffSameSnapshot(typ1, typ2);
    var r := ItemTriggers(prefix, n, SnapshotEntry(prefix, e1), SnapshotEntry(prefix, e2));
    assert r <= {Qualify(prefix, n)};
  }

  /** Defining a new name in a table reports that name and nothing else. */
  lemma NewEntryReportedAlone(prefix: string, table: SymbolTable, n: string, e: SymbolTableNode)
    requires TableOk(prefix, table) && n !in table.entries && EntryOk(prefix, e)
    ensures TableOk(prefix, SymbolTable(table.entries[n := e]))
    ensures CompareSymbolTableSnapshots(prefix, SnapshotSymbolTable(prefix, table),
                                        SnapshotSymbolTable(prefix, SymbolTable(table.entries[n := e])))
         == {Qualify(prefix, n)}
  {
    SnapshotOfUpdate(prefix, table, n, e);
    var s := SnapshotSymbolTable(prefix, table);
    AddedNameReportedAlone(prefix, s, s, n, SnapshotEntry(prefix, e));
    SelfDiffEmpty(prefix, s);
  }

  /** A local class entry named `prefix.n`. */
  function LocalClass(kind: Kind, prefix: string, n: string, attrs: ClassAttrs, members: SymbolTable, public: bool): SymbolTableNode
  {
    SymbolTableNode(kind, Some(TypeInfoNode(Qualify(prefix, n), attrs.isAbstract, attrs.isEnum, attrs.fallbackToAny,
                                            attrs.isNamedTuple, attrs.isNewtype, attrs.mro, members)), public)
  }

  /** When only the members of a class change, the module's diff is the
      diff of the class's member tables under the class's qualified name:
      member triggers and no trigger for the class itself. */
  lemma ClassBodyChangeReportedInside(prefix: string, table: SymbolTable, n: string, kind: Kind,
                                      attrs: ClassAttrs, public: bool,
                                      members1: SymbolTable, members2: SymbolTable)
    requires TableOk(prefix, table) && n !in table.entries && '.' !in n
    requires kind == Ldef || kind == Gdef || kind == Mdef
    requires TableOk(Qualify(prefix, n), members1) && TableOk(Qualify(prefix, n), members2)
    ensures TableOk(prefix, SymbolTable(table.entries[n := LocalClass(kind, prefix, n, attrs, members1, public)]))
    ensures TableOk(prefix, SymbolTable(table.entries[n := LocalClass(kind, prefix, n, attrs, members2, public)]))
    ensures CompareSymbolTableSnapshots(
              prefix,
              SnapshotSymbolTable(prefix, SymbolTable(table.entries[n := LocalClass(kind, prefix, n, attrs, members1, public)])),
              SnapshotSymbolTable(prefix, SymbolTable(table.entries[n := LocalClass(kind, prefix, n, attrs, members2, public)])))
         == CompareSymbolTableSnapshots(Qualify(prefix, n),
                                        SnapshotSymbolTable(Qualify(prefix, n), members1),
                                        SnapshotSymbolTable(Qualify(prefix, n), members2))
  {
    var e1 := LocalClass(kind, prefix, n, attrs, members1, public);
    var e2 := LocalClass(kind, prefix, n, attrs, members2, public);
    LocalClassSnapshot(prefix, kind, n, attrs, members1, public);
    LocalClassSnapshot(prefix, kind, n, attrs, members2, public);
    OneEntryChanged(prefix, table, n, e1, e2);
    SameHeaderClassTriggers(prefix, n, SnapshotEntry(prefix, e1), SnapshotEntry(prefix, e2));
  }

  /** Two class items with one header differ only by their member tables. */
  lemma SameHeaderClassTriggers(prefix: string, n: string, a: Item, b: Item)
    requires a.TypeInfoItem? && b.TypeInfoItem? && a.common == b.common && a.attrs == b.attrs
    ensures ItemTriggers(prefix, n, a, b) == CompareSymbolTableSnapshots(Qualify(prefix, n), a.names, b.names)
  {
    ClassItemTriggers(prefix, n, a, b);
  }

  /** The snapshot of a local class entry. */
  lemma LocalClassSnapshot(prefix: string, kind: Kind, n: string, attrs: ClassAttrs, members: SymbolTable, public: bool)
    requires '.' !in n
    requires kind == Ldef || kind == Gdef || kind == Mdef
    requires TableOk(Qualify(prefix, n), members)
    ensures EntryOk(prefix, LocalClass(kind, prefix, n, attrs, members, public))
    ensures SnapshotEntry(prefix, LocalClass(kind, prefix, n, attrs, members, public))
         == TypeInfoItem(Common(Some(Qualify(prefix, n)), kind, public), attrs,
                         SnapshotSymbolTable(Qualify(prefix, n), members))
  {
    PrefixOfQualified(prefix, n);
  }
}
