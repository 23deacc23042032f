/** Worked examples of the change detector on small modules. */
module Scenarios {

  import opened Wrappers
  import opened Types
  import opened Symbols
  import opened TableSnapshots
  import opened Compare
  import opened TableSnapshotProperties
  import TypeSnapshots
  import TypeSnapshotProperties

  const IntType: Type := Instance("builtins.int", [])
  const StrType: Type := Instance("builtins.str", [])

  /** `def foo(self, x: int) -> ret` inside class `m.C`. */
  function FooSignature(ret: Type): Type
  {
    CallableType([Instance("m.C", []), IntType], ret, [Some("self"), Some("x")], [0, 0], false, false)
  }

  function Foo(ret: Type): SymbolTableNode
  {
    LocalFunction(Mdef, "m.C.foo", false, Some(FooSignature(ret)), true)
  }

  /** `def bar(self) -> None` inside class `m.C`. */
  function Bar(): SymbolTableNode
  {
    LocalFunction(Mdef, "m.C.bar", false,
                  Some(CallableType([Instance("m.C", [])], NoneTyp, [Some("self")], [0], false, false)), true)
  }

  /** A plain class: no flags, MRO `m.C`, `builtins.object`. */
  function AttrsOfC(): ClassAttrs
  {
    ClassAttrs(false, false, false, false, false, ["m.C", "builtins.object"])
  }

  /** Module `m` holding only class `C` with the given members. */
  function ModuleWithC(members: map<string, SymbolTableNode>): SymbolTable
  {
    SymbolTable(map["C" := LocalClass(Gdef, "m", "C", AttrsOfC(), SymbolTable(members), true)])
  }

  /** Class `m.C`'s table with `foo` is well formed. */
  lemma FooMembersOk(ret: Type)
    requires NoPartial(ret)
    ensures TableOk("m.C", SymbolTable(map["foo" := Foo(ret)]))
  {
    assert Qualify("m.C", "foo") == "m.C.foo";
    PrefixOfQualified("m.C", "foo");
    LocalFunctionSnapshot("m.C", Mdef, "m.C.foo", false, Some(FooSignature(ret)), true);
  }

  lemma FooSignaturesDiffer()
    ensures !SameSignature(Some(FooSignature(IntType)), Some(FooSignature(StrType)))
  {
    assert !TypeSnapshotProperties.Equiv(IntType, StrType);
  }

  /** Within class `C`: a new return type of `foo` reports `m.C.foo`. */
  lemma FooReturnChangeInMembers()
    ensures TableOk("m.C", SymbolTable(map["foo" := Foo(IntType)]))
    ensures TableOk("m.C", SymbolTable(map["foo" := Foo(StrType)]))
    ensures CompareSymbolTableSnapshots("m.C", SnapshotSymbolTable("m.C", SymbolTable(map["foo" := Foo(IntType)])),
                                        SnapshotSymbolTable("m.C", SymbolTable(map["foo" := Foo(StrType)])))
         == {"m.C.foo"}
  {
    var empty := SymbolTable(map[]);
    assert Qualify("m.C", "foo") == "m.C.foo";
    PrefixOfQualified("m.C", "foo");
    SignatureChangeReportedIffNotSame("m.C", empty, "foo", Mdef, "m.C.foo", false, true,
                                      Some(FooSignature(IntType)), Some(FooSignature(StrType)));
    FooSignaturesDiffer();
    assert empty.entries["foo" := Foo(IntType)] == map["foo" := Foo(IntType)];
    assert empty.entries["foo" := Foo(StrType)] == map["foo" := Foo(StrType)];
  }

  /** Changing only the return type of method `foo` of class `C` in module
      `m` reports `m.C.foo` and not `m.C`. */
  lemma ReturnTypeChangeInClass()
    ensures TableOk("m", ModuleWithC(map["foo" := Foo(IntType)]))
    ensures TableOk("m", ModuleWithC(map["foo" := Foo(StrType)]))
    ensures CompareSymbolTableSnapshots("m", SnapshotSymbolTable("m", ModuleWithC(map["foo" := Foo(IntType)])),
                                        SnapshotSymbolTable("m", ModuleWithC(map["foo" := Foo(StrType)])))
         == {"m.C.foo"}
  {
    var empty := SymbolTable(map[]);
    assert Qualify("m", "C") == "m.C";
    FooReturnChangeInMembers();
    ClassBodyChangeReportedInside("m", empty, "C", Gdef, AttrsOfC(), true,
                                  SymbolTable(map["foo" := Foo(IntType)]), SymbolTable(map["foo" := Foo(StrType)]));
    assert ModuleWithC(map["foo" := Foo(IntType)])
        == SymbolTable(empty.entries["C" := LocalClass(Gdef, "m", "C", AttrsOfC(), SymbolTable(map["foo" := Foo(IntType)]), true)]);
    assert ModuleWithC(map["foo" := Foo(StrType)])
        == SymbolTable(empty.entries["C" := LocalClass(Gdef, "m", "C", AttrsOfC(), SymbolTable(map["foo" := Foo(StrType)]), true)]);
  }

  /** Within class `C`: adding `bar` reports `m.C.bar`. */
  lemma BarAddedToMembers()
    ensures TableOk("m.C", SymbolTable(map["foo" := Foo(IntType)]))
    ensures TableOk("m.C", SymbolTable(map["foo" := Foo(IntType), "bar" := Bar()]))
    ensures CompareSymbolTableSnapshots("m.C", SnapshotSymbolTable("m.C", SymbolTable(map["foo" := Foo(IntType)])),
                                        SnapshotSymbolTable("m.C", SymbolTable(map["foo" := Foo(IntType), "bar" := Bar()])))
         == {"m.C.bar"}
  {
    FooMembersOk(IntType);
    assert Qualify("m.C", "bar") == "m.C.bar";
    PrefixOfQualified("m.C", "bar");
    LocalFunctionSnapshot("m.C", Mdef, "m.C.bar", false, Bar().node.value.typ, true);
    NewEntryReportedAlone("m.C", SymbolTable(map["foo" := Foo(IntType)]), "bar", Bar());
  }

  /** Adding method `bar` to an otherwise unchanged class `C` reports
      `m.C.bar` alone. */
  lemma MethodAddedToClass()
    ensures TableOk("m", ModuleWithC(map["foo" := Foo(IntType)]))
    ensures TableOk("m", ModuleWithC(map["foo" := Foo(IntType), "bar" := Bar()]))
    ensures CompareSymbolTableSnapshots("m", SnapshotSymbolTable("m", ModuleWithC(map["foo" := Foo(IntType)])),
                                        SnapshotSymbolTable("m", ModuleWithC(map["foo" := Foo(IntType), "bar" := Bar()])))
         == {"m.C.bar"}
  {
    var empty := SymbolTable(map[]);
    assert Qualify("m", "C") == "m.C";
    BarAddedToMembers();
    var before := SymbolTable(map["foo" := Foo(IntType)]);
    var after := SymbolTable(map["foo" := Foo(IntType), "bar" := Bar()]);
    ClassBodyChangeReportedInside("m", empty, "C", Gdef, AttrsOfC(), true, before, after);
    assert ModuleWithC(before.entries)
        == SymbolTable(empty.entries["C" := LocalClass(Gdef, "m", "C", AttrsOfC(), before, true)]);
    assert ModuleWithC(after.entries)
        == SymbolTable(empty.entries["C" := LocalClass(Gdef, "m", "C", AttrsOfC(), after, true)]);
  }

  /** `y` in module `m` refers to class `other.Z`; whatever happens inside
      `other.Z` is invisible to the diff of `m`. */
  lemma ForeignClassChangeIgnored(members1: SymbolTable, members2: SymbolTable)
    ensures TableOk("m", SymbolTable(map["y" := SymbolTableNode(Gdef, Some(TypeInfoNode(
              "other.Z", false, false, false, false, false, ["other.Z"], members1)), true)]))
    ensures TableOk("m", SymbolTable(map["y" := SymbolTableNode(Gdef, Some(TypeInfoNode(
              "other.Z", true, false, false, false, false, ["other.Z", "other.Base"], members2)), true)]))
    ensures CompareSymbolTableSnapshots(
              "m",
              SnapshotSymbolTable("m", SymbolTable(map["y" := SymbolTableNode(Gdef, Some(TypeInfoNode(
                "other.Z", false, false, false, false, false, ["other.Z"], members1)), true)])),
              SnapshotSymbolTable("m", SymbolTable(map["y" := SymbolTableNode(Gdef, Some(TypeInfoNode(
                "other.Z", true, false, false, false, false, ["other.Z", "other.Base"], members2)), true)])))
         == {}
  {
    assert Qualify("other", "Z") == "other.Z";
    PrefixOfQualified("other", "Z");
    var t1 := SymbolTable(map["y" := SymbolTableNode(Gdef, Some(TypeInfoNode(
                "other.Z", false, false, false, false, false, ["other.Z"], members1)), true)]);
    var t2 := SymbolTable(map["y" := SymbolTableNode(Gdef, Some(TypeInfoNode(
                "other.Z", true, false, false, false, false, ["other.Z", "other.Base"], members2)), true)]);
    assert IsForeign("m", t1.entries["y"]) && IsForeign("m", t2.entries["y"]);
    ForeignDetailsInvisible("m", t1, t2);
  }

  /** `Union[int, str]`, `Union[str, int]` and `Union[int, str, int]` have
      one snapshot. */
  lemma UnionSnapshotsAgree()
    ensures TypeSnapshots.SnapshotType(UnionType([IntType, StrType]))
         == TypeSnapshots.SnapshotType(UnionType([StrType, IntType]))
    ensures TypeSnapshots.SnapshotType(UnionType([IntType, StrType]))
         == TypeSnapshots.SnapshotType(UnionType([IntType, StrType, IntType]))
  {
    TypeSnapshotProperties.UnionSnapshotIgnoresOrder([IntType, StrType], [StrType, IntType]);
    TypeSnapshotProperties.UnionSnapshotIgnoresOrder([IntType, StrType], [IntType, StrType, IntType]);
  }

  /** Module `m` holding only function `f`, with or without annotations. */
  function ModuleWithF(sig: Option<Type>): SymbolTable
  {
    SymbolTable(map["f" := LocalFunction(Gdef, "m.f", false, sig, true)])
  }

  /** Annotating a previously unannotated function `m.f` (as `() -> int`)
      reports `m.f`; neither version fails. */
  lemma AnnotatingFunctionReported()
    ensures TableOk("m", ModuleWithF(None))
    ensures TableOk("m", ModuleWithF(Some(CallableType([], IntType, [], [], false, false))))
    ensures CompareSymbolTableSnapshots("m", SnapshotSymbolTable("m", ModuleWithF(None)),
                                        SnapshotSymbolTable("m", ModuleWithF(Some(CallableType([], IntType, [], [], false, false)))))
         == {"m.f"}
  {
    var empty := SymbolTable(map[]);
    assert Qualify("m", "f") == "m.f";
    PrefixOfQualified("m", "f");
    SignatureChangeReportedIffNotSame("m", empty, "f", Gdef, "m.f", false, true,
                                      None, Some(CallableType([], IntType, [], [], false, false)));
    assert ModuleWithF(None) == SymbolTable(empty.entries["f" := LocalFunction(Gdef, "m.f", false, None, true)]);
    assert ModuleWithF(Some(CallableType([], IntType, [], [], false, false)))
        == SymbolTable(empty.entries["f" := LocalFunction(Gdef, "m.f", false, Some(CallableType([], IntType, [], [], false, false)), true)]);
  }
}
