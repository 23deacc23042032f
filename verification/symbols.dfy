/** Symbol tables as the change detector sees them: a name-to-entry map per
    module or class, where an entry has a kind, a visibility flag and an
    optional node (a function, a variable, a class with its own table, a
    module, or something else). */
module Symbols {

  import opened Wrappers
  import opened Types

  /** The symbol kinds of `mypy.nodes`; only their identity matters here. */
  datatype Kind = Ldef | Gdef | Mdef | ModuleRef | Tvar | TypeAlias | UnboundImported

  datatype SymbolNode =
      /** A function or overloaded function (`FuncBase`); `typ` is absent
          for a function without annotations. */
    | FuncNode(fullname: string, isProperty: bool, typ: Option<Type>)
    | VarNode(fullname: string, typ: Option<Type>)
      /** A class (`TypeInfo`): its flags, the full names of its method
          resolution order, and its own symbol table. */
    | TypeInfoNode(fullname: string, isAbstract: bool, isEnum: bool, fallbackToAny: bool,
                   isNamedTuple: bool, isNewtype: bool, mro: seq<string>, names: SymbolTable)
    | MypyFileNode(fullname: string)
      /** Any other symbol node (a decorator, a type variable expression, ...). */
    | OtherNode(fullname: string)

  datatype SymbolTableNode = SymbolTableNode(kind: Kind, node: Option<SymbolNode>, modulePublic: bool)

  datatype SymbolTable = SymbolTable(entries: map<string, SymbolTableNode>)

  /** The qualified name `prefix.name`. */
  function Qualify(prefix: string, name: string): (q: string)
    ensures |q| == |prefix| + 1 + |name|
    ensures q[..|prefix|] == prefix && q[|prefix|] == '.' && q[|prefix| + 1..] == name
  {
    prefix + "." + name
  }

  /** Under one prefix, distinct names give distinct qualified names. */
  lemma QualifyInjective(prefix: string, a: string, b: string)
    ensures Qualify(prefix, a) == Qualify(prefix, b) <==> a == b
  {
    if Qualify(prefix, a) == Qualify(prefix, b) {
      assert a == Qualify(prefix, a)[|prefix| + 1..];
    }
  }

  /** The position of the last '.' in `s`, if there is one. */
  function LastDot(s: string): (r: Option<nat>)
    ensures r.None? <==> '.' !in s
    ensures r.Some? ==> r.value < |s| && s[r.value] == '.' && '.' !in s[r.value + 1..]
  {
    if |s| == 0 then None
    else if s[|s| - 1] == '.' then Some(|s| - 1)
    else
      var r := LastDot(s[..|s| - 1]);
      assert s[..|s| - 1] + [s[|s| - 1]] == s;
      if r.Some? then
        assert s[r.value + 1..] == s[..|s| - 1][r.value + 1..] + [s[|s| - 1]];
        r
      else r
  }

  /** The owner of a qualified name: everything before its last '.', or the
      whole name when it has no '.'. */
  function GetPrefix(fullname: string): (p: string)
    ensures '.' !in fullname ==> p == fullname
    ensures '.' in fullname ==>
              |p| < |fullname| && fullname[..|p|] == p && fullname[|p|] == '.' && '.' !in fullname[|p| + 1..]
  {
    match LastDot(fullname)
    case None => fullname
    case Some(i) => fullname[..i]
  }

  /** `GetPrefix` undoes `Qualify` for a simple (dot-free) name. */
  lemma PrefixOfQualified(prefix: string, name: string)
    requires '.' !in name
    ensures GetPrefix(Qualify(prefix, name)) == prefix
  {
    var q := Qualify(prefix, name);
    assert q[|prefix|] == '.';
  }
}
