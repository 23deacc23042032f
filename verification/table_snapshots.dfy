/** Snapshots of symbol tables: each entry of a module or class table is
    turned into a node-identity-free item. Module references and references
    to names owned by another module are kept shallow (only the common
    fields); local classes recurse into their own tables. */
module TableSnapshots {

  import opened Wrappers
  import opened Types
  import opened Values
  import opened Symbols
  import TypeSnapshots

  /** The fields every item carries: the target's full name (absent when
      the entry has no node), the entry kind and its visibility. */
  datatype Common = Common(fullname: Option<string>, kind: Kind, modulePublic: bool)

  /** The shallow attributes of a class. */
  datatype ClassAttrs = ClassAttrs(isAbstract: bool, isEnum: bool, fallbackToAny: bool,
                                   isNamedTuple: bool, isNewtype: bool, mro: seq<string>)

  datatype Item =
    | ModuleRefItem(common: Common)
    | CrossRefItem(common: Common)
    | FuncItem(common: Common, isProperty: bool, signature: Option<Value>)
    | VarItem(common: Common, typ: Option<Value>)
    | TypeInfoItem(common: Common, attrs: ClassAttrs, names: TableSnapshot)
  {
    /** The leading string of the item's tuple, which the diff compares
        first. */
    function Tag(): string
    {
      match this
      case ModuleRefItem(_) => "Moduleref"
      case CrossRefItem(_) => "CrossRef"
      case FuncItem(_, _, _) => "Func"
      case VarItem(_, _) => "Var"
      case TypeInfoItem(_, _, _) => "TypeInfo"
    }
  }

  datatype TableSnapshot = TableSnapshot(entries: map<string, Item>)

  /** Distinct variants carry distinct tags. */
  lemma TagIdentifiesVariant(a: Item, b: Item)
    ensures a.Tag() == b.Tag() <==>
              (a.ModuleRefItem? && b.ModuleRefItem?) || (a.CrossRefItem? && b.CrossRefItem?)
              || (a.FuncItem? && b.FuncItem?) || (a.VarItem? && b.VarItem?)
              || (a.TypeInfoItem? && b.TypeInfoItem?)
  {
  }

  function CommonOf(e: SymbolTableNode): (c: Common)
    ensures c.kind == e.kind && c.modulePublic == e.modulePublic
    ensures c.fullname.Some? <==> e.node.Some?
    ensures e.node.Some? ==> c.fullname.value == e.node.value.fullname
  {
    Common(if e.node.Some? then Some(e.node.value.fullname) else None, e.kind, e.modulePublic)
  }

  /** An entry whose node is owned by some other module (or class) than the
      table being snapshotted. */
  predicate IsForeign(prefix: string, e: SymbolTableNode)
  {
    e.node.Some? && GetPrefix(e.node.value.fullname) != prefix
  }

  /** An entry that is snapshotted by its common fields alone. */
  predicate Shallow(prefix: string, e: SymbolTableNode)
  {
    e.kind == ModuleRef || IsForeign(prefix, e)
  }

  /** The tables the snapshot can be taken of without an assertion failure
      or a runtime error: no type variable, type alias or unbound import
      entries; module references point at modules; every local entry has a
      function, variable or class node; no partial type anywhere. */
  predicate TableOk(prefix: string, table: SymbolTable)
    decreases table
  {
    forall name :: name in table.entries ==> EntryOk(prefix, table.entries[name])
  }

  predicate EntryOk(prefix: string, e: SymbolTableNode)
    decreases e
  {
    match e.kind
    case ModuleRef => e.node.Some? && e.node.value.MypyFileNode?
    case Tvar => false
    case TypeAlias => false
    case UnboundImported => false
    case _ => IsForeign(prefix, e) || (e.node.Some? && DefinitionOk(e.node.value))
  }

  predicate DefinitionOk(n: SymbolNode)
    decreases n
  {
    match n
    case FuncNode(_, _, typ) => typ.Some? ==> NoPartial(typ.value)
    case VarNode(_, typ) => typ.Some? ==> NoPartial(typ.value)
    case TypeInfoNode(fullname, _, _, _, _, _, _, names) => TableOk(fullname, names)
    case _ => false
  }

  /** The snapshot of a table under the qualified name of its owner. */
  function SnapshotSymbolTable(prefix: string, table: SymbolTable): (r: TableSnapshot)
    requires TableOk(prefix, table)
    ensures r.entries.Keys == table.entries.Keys
    ensures forall name :: name in r.entries ==> r.entries[name].common == CommonOf(table.entries[name])
    ensures forall name :: name in r.entries ==>
              (r.entries[name].ModuleRefItem? <==> table.entries[name].kind == ModuleRef)
    ensures forall name :: name in r.entries ==>
              (r.entries[name].CrossRefItem? <==>
                 table.entries[name].kind != ModuleRef && IsForeign(prefix, table.entries[name]))
    decreases table, 1
  {
    TableSnapshot(map name | name in table.entries :: SnapshotEntry(prefix, table.entries[name]))
  }

  /** One entry: module references and foreign names are shallow, local
      definitions are described in full. */
  function SnapshotEntry(prefix: string, e: SymbolTableNode): (r: Item)
    requires EntryOk(prefix, e)
    ensures r.common == CommonOf(e)
    ensures r.ModuleRefItem? <==> e.kind == ModuleRef
    ensures r.CrossRefItem? <==> e.kind != ModuleRef && IsForeign(prefix, e)
    ensures !r.ModuleRefItem? && !r.CrossRefItem? ==> e.node.Some? && r.Tag() == DefinitionTag(e.node.value)
    decreases e, 1
  {
    if e.kind == ModuleRef then ModuleRefItem(CommonOf(e))
    else if IsForeign(prefix, e) then CrossRefItem(CommonOf(e))
    else SnapshotDefinition(e.node.value, CommonOf(e))
  }

  /** The tag a local definition's item carries. */
  function DefinitionTag(n: SymbolNode): string
  {
    match n
    case FuncNode(_, _, _) => "Func"
    case VarNode(_, _) => "Var"
    case TypeInfoNode(_, _, _, _, _, _, _, _) => "TypeInfo"
    case _ => ""
  }

  /** A local definition: functions keep their signature, variables their
      declared type, classes their flags, MRO and the snapshot of their own
      table under the class's full name. */
  function SnapshotDefinition(n: SymbolNode, common: Common): (r: Item)
    requires DefinitionOk(n)
    ensures r.common == common
    ensures r.Tag() == DefinitionTag(n)
    ensures n.FuncNode? ==> r.isProperty == n.isProperty
                            && (r.signature.Some? <==> n.typ.Some?)
                            && (n.typ.Some? ==> r.signature.value == TypeSnapshots.SnapshotType(n.typ.value))
    ensures n.VarNode? ==> (r.typ.Some? <==> n.typ.Some?)
                           && (n.typ.Some? ==> r.typ.value == TypeSnapshots.SnapshotType(n.typ.value))
    ensures n.TypeInfoNode? ==> r.attrs.isAbstract == n.isAbstract && r.attrs.isEnum == n.isEnum
                                && r.attrs.fallbackToAny == n.fallbackToAny
                                && r.attrs.isNamedTuple == n.isNamedTuple && r.attrs.isNewtype == n.isNewtype
                                && r.attrs.mro == n.mro
    ensures n.TypeInfoNode? ==> r.names.entries.Keys == n.names.entries.Keys
                                && r.names == SnapshotSymbolTable(n.fullname, n.names)
    decreases n, 1
  {
    match n
    case FuncNode(_, isProperty, typ) =>
      FuncItem(common, isProperty, TypeSnapshots.SnapshotOptionalType(typ))
    case VarNode(_, typ) =>
      VarItem(common, TypeSnapshots.SnapshotOptionalType(typ))
    case TypeInfoNode(fullname, isAbstract, isEnum, fallbackToAny, isNamedTuple, isNewtype, mro, names) =>
      TypeInfoItem(common, ClassAttrs(isAbstract, isEnum, fallbackToAny, isNamedTuple, isNewtype, mro),
                   SnapshotSymbolTable(fullname, names))
  }
}
