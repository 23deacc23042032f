# mypy's AST change detector (`mypy/server/astdiff.py`) in Dafny

The fine-grained incremental mode of mypy re-checks only the parts of a
program that depend on something that changed. `mypy/server/astdiff.py`
decides what changed between two versions of a module. It has three parts,
each modelled here.

**Type snapshots.**
- `snapshot_type` and `SnapshotTypeVisitor` turn a type into a value that
  names classes by their full names and holds no analyser nodes. Two
  analysis generations of the same type therefore have equal snapshots.
- Union members are snapshotted, de-duplicated and sorted, so the order and
  repetition of members do not matter.

**Symbol-table snapshots and the diff.**
- `snapshot_symbol_table` and `snapshot_definition` turn a module's or a
  class's name-to-entry table into a name-to-item map. Module references and
  names owned by another module are kept shallow. Local classes recurse into
  their own tables.
- `compare_symbol_table_snapshots` turns two such maps into the set of
  qualified names ("triggers") whose definitions changed.

**Live identity comparison.**
- `is_identical_type` is a conservative equality over live type values.
  Some types that are the same can be answered "different", but a rigid
  type is never "identical" to a different one.

The model uses immutable datatypes and pure functions:
- `Types.Type` is the closed set of type variants.
- `Values.Value` is Python's nested tuples, lists and primitives.
- `Symbols.SymbolTable` and `TableSnapshots.TableSnapshot` wrap maps, so
  that nested class tables recurse structurally.

Errors are preconditions:
- `NoPartial` rules out the partial type.
- `TableOk` rules out type-variable, type-alias and unbound-import entries,
  module references that are not modules, and local entries without a
  function, variable or class node.

The identity comparison returns `Option<bool>`. `None` is the `RuntimeError`
raised when a partial type is reached on the left. The comparison returns
`False` before reaching the partial type in many cases, so this is not a
precondition.

Modules, in dependency order:
- `Wrappers`, `Types` and `Values`: the data model.
- `Sorting`: de-duplicating insertion sort under a strict total order on
  values.
- `TypeSnapshots` and `TypeSnapshotProperties`: snapshots of types. Two types
  have equal snapshots exactly when they are equivalent (`Equiv`): equal,
  except that unions are compared as member sets.
- `Identity` and `IdentityProperties`: the live comparison.
- `Symbols`, `TableSnapshots`, `Compare`, `CompareProperties` and
  `TableSnapshotProperties`: symbol-table snapshots and the diff, with
  properties from one table to its triggers.
- `Scenarios`: worked examples.
- `SnapshotOrder`: Python's `<` never raises between two (corrected)
  snapshots, so the sort in the union case always succeeds.
- `AsWritten`: the code's own snapshots, for the two behaviours listed under
  Findings.
- `AsWrittenProperties`: wherever the code as written returns, its
  snapshots of two types are equal exactly when the corrected ones are. So
  on the tables it does not raise on, its diff is the corrected diff.

Two behaviours of the code that the model keeps, although a reader might
not expect them:
- A TypedDict snapshot lists its fields in the dictionary's iteration order
  (lines 328-331). Two TypedDicts with the same fields in another order
  therefore snapshot differently.
- Identity compares type variables by id alone (lines 83-85). Two type
  variables with the same id but different bounds or names are "identical",
  although their snapshots differ (`IdentityProperties.TypeVarsComparedById`).
  So "never identical when different" holds for types without type
  variables, up to the order of TypedDict fields at any depth: for those,
  identity is exactly `IdentityProperties.SameUpToFieldOrder`
  (`IdentityProperties.IdenticalIffSameUpToFieldOrder`). Without TypedDicts
  this is plain equality (`IdentityProperties.IdenticalImpliesEqual`).

In two places the main model uses corrected definitions, and `AsWritten`
keeps the code's own (see Findings):
- `TypeSnapshots.SnapshotType` builds tuples in three places where the code
  holds lists: line 283 builds a list of the unbound type's arguments, and
  lines 320-321 keep the callable's own `arg_names` and `arg_kinds` lists. It also encodes an argument name as `()` (no name) or
  `(name,)`, where line 320 keeps `None` or the name.
- `TableSnapshots.SnapshotDefinition` snapshots a function's type with
  `snapshot_optional_type`, where line 233 calls `snapshot_type`.

## Model

| member | source | states |
|---|---|---|
| TypeSnapshots.SnapshotSimpleType | mypy/server/astdiff.py:273-274 | a markerless type's snapshot is a one-element tuple naming its variant |
| TypeSnapshots.SimpleSnapshotIdentifiesVariant | mypy/server/astdiff.py:285-298 | two markerless types have equal snapshots exactly when they are the same variant |
| TypeSnapshots.TagIdentifiesVariant | mypy/server/astdiff.py:277-349 | the leading string of a snapshot determines the type's variant |
| TypeSnapshots.SnapshotType | mypy/server/astdiff.py:277-349 | every type without a partial type has a snapshot, a tuple led by its variant's tag |
| TypeSnapshots.SnapshotTypes | mypy/server/astdiff.py:269-270 | the snapshot of a type list is a tuple of the members' snapshots, same length, same order |
| TypeSnapshots.SnapshotEach | mypy/server/astdiff.py:269-270 | pointwise: the i-th snapshot is the snapshot of the i-th type |
| TypeSnapshots.SnapshotFields | mypy/server/astdiff.py:328-331 | a TypedDict snapshot pairs each key with its type's snapshot, in field order |
| TypeSnapshots.SnapshotOptionalType | mypy/server/astdiff.py:262-266 | the snapshot is present exactly when the type is, and a present snapshot is led by the type's tag; `TableSnapshotProperties.SameSignatureIffSameSnapshot` relates two of them |
| TypeSnapshots.EncodeNames | mypy/server/astdiff.py:320 | argument names are kept pointwise, a missing name as `()` and a name as `(name,)` |
| TypeSnapshots.EncodeKinds | mypy/server/astdiff.py:321 | argument kinds are kept pointwise |
| Values.LessIsStrictTotalOrder | mypy/server/astdiff.py:336-337 | the order used to sort union members is irreflexive, transitive and total |
| Sorting.Insert | mypy/server/astdiff.py:336-337 | inserting into a strictly sorted sequence keeps it strictly sorted and adds exactly the new element |
| Sorting.Normalize | mypy/server/astdiff.py:336-337 | the normalised members are strictly sorted (so free of duplicates) and are exactly the input's members |
| Sorting.SortedUnique | mypy/server/astdiff.py:336-337 | two strictly sorted sequences with the same members are equal |
| Sorting.NormalizeCanonical | mypy/server/astdiff.py:333-338 | normalisation depends only on the set of members |
| TypeSnapshotProperties.SnapshotHashable | mypy/server/astdiff.py:136-140 | every type snapshot is hashable (no lists), so the member set of a union can always be built |
| TypeSnapshotProperties.SnapshotsEqualImplyEquiv | mypy/server/astdiff.py:277-349 | equal snapshots mean equivalent types: no two different types collide |
| TypeSnapshotProperties.EquivImpliesSnapshotsEqual | mypy/server/astdiff.py:277-349 | equivalent types, including unions with reordered or repeated members, have equal snapshots |
| TypeSnapshotProperties.SnapshotsEqualIffEquiv | mypy/server/astdiff.py:277-349 | snapshot equality is exactly type equivalence |
| SnapshotOrder.SnapshotsComparable | mypy/server/astdiff.py:336-337 | Python's `<` returns, rather than raising, between any two type snapshots |
| SnapshotOrder.UnionMembersSortable | mypy/server/astdiff.py:336-337 | any two member snapshots of a union compare with `<`, so `sorted` of their set never raises |
| TypeSnapshotProperties.UnionSnapshotIgnoresOrder | mypy/server/astdiff.py:333-338 | two unions with the same member set have the same snapshot, whatever the order or repetition |
| Identity.IsIdenticalType | mypy/server/astdiff.py:24-133 | unbound and erased left operands are never identical; a true answer needs the same variant on the right, and for instances the same class name and argument count; only a partial type on the left raises |
| Identity.IsIdenticalTypes | mypy/server/astdiff.py:31-32 | two type lists are identical exactly when they have the same length and are identical pointwise |
| Identity.IdenticalFields | mypy/server/astdiff.py:104-111 | every left field whose key is on the right is identical to the right field of that key |
| IdentityProperties.IdenticalToItself | mypy/server/astdiff.py:78-133 | every type with no unbound, erased or partial part is identical to itself |
| IdentityProperties.IdenticalImpliesEqual | mypy/server/astdiff.py:35-52 | no false positives: a type without type variables and TypedDicts is identical only to itself |
| IdentityProperties.IdenticalTypedDictsAgree | mypy/server/astdiff.py:104-111 | a TypedDict (distinct keys, field types without type variables or TypedDicts) is identical only to a TypedDict with the same keys and the same type under every key |
| IdentityProperties.IdenticalImpliesSameUpToFieldOrder | mypy/server/astdiff.py:35-133 | no false positives for any type without type variables: an identical type has the same structure, with TypedDicts at any depth matched key by key |
| IdentityProperties.SameUpToFieldOrderImpliesIdentical | mypy/server/astdiff.py:35-133 | no false negatives: a reliable type is identical to every type with the same structure up to TypedDict field order |
| IdentityProperties.IdenticalIffSameUpToFieldOrder | mypy/server/astdiff.py:35-133 | on reliable types without type variables, identity is exactly sameness up to TypedDict field order |
| IdentityProperties.SameUpToFieldOrderRigidIsEqual | mypy/server/astdiff.py:104-111 | without TypedDicts, sameness up to field order is equality, so the key-by-key matching is the only slack |
| IdentityProperties.NestedFieldOrderIgnored | mypy/server/astdiff.py:104-111 | `List[TypedDict(a, b)]` and `List[TypedDict(b, a)]` are identical |
| IdentityProperties.SwappedFieldsSnapshotsDiffer | mypy/server/astdiff.py:328-331 | the two TypedDicts with swapped fields have different snapshots |
| IdentityProperties.IdenticalIffEqual | mypy/server/astdiff.py:35-133 | on such types that are also reliable, identity is exactly equality |
| IdentityProperties.UnionOrderMatters | mypy/server/astdiff.py:114-118 | a reordered union is not identical, although its snapshot is the same |
| IdentityProperties.TypeVarsComparedById | mypy/server/astdiff.py:83-85 | type variables with one id and different bounds are identical, although their snapshots differ |
| Symbols.Qualify | mypy/server/astdiff.py:158 | `prefix.name` is the prefix, a dot and the name |
| Symbols.QualifyInjective | mypy/server/astdiff.py:158-160 | under one prefix, distinct names give distinct qualified names |
| Symbols.GetPrefix | mypy/server/astdiff.py:216 | the owner of a name is what precedes its last dot, or the name itself when it has no dot |
| Symbols.PrefixOfQualified | mypy/server/astdiff.py:216 | the owner of `prefix.name`, for a dot-free name, is `prefix` |
| TableSnapshots.TagIdentifiesVariant | mypy/server/astdiff.py:166-169 | two items have the same kind string exactly when they are the same variant |
| TableSnapshots.SnapshotSymbolTable | mypy/server/astdiff.py:188-221 | the snapshot has exactly the table's names; each item carries its entry's common fields, is a module reference exactly for module-reference entries and a cross-reference exactly for foreign nodes |
| TableSnapshots.SnapshotEntry | mypy/server/astdiff.py:199-220 | module references and foreign names are shallow; other entries are described by their definition |
| TableSnapshots.SnapshotDefinition | mypy/server/astdiff.py:224-254 | a function keeps its property flag and the snapshot of its type, if it has one; a variable the snapshot of its declared type, if any; a class its five flags, its MRO and the snapshot of its own table, taken under the class's full name |
| Compare.QualifyAll | mypy/server/astdiff.py:158-159 | the qualified names are exactly `prefix.n` for the keys `n` |
| Compare.CompareSymbolTableSnapshots | mypy/server/astdiff.py:146-185 | a name in only one snapshot is reported; every trigger is `prefix.n`, or nested inside it, for a name `n` of one of the snapshots |
| Compare.PresenceTriggers | mypy/server/astdiff.py:157-160 | the presence triggers are exactly the qualified names of the names in one snapshot only |
| Compare.ChangeTriggers | mypy/server/astdiff.py:162-183 | every change trigger lies under a name present in both snapshots |
| Compare.ItemTriggers | mypy/server/astdiff.py:163-183 | a kind change reports exactly the name; a leaf item reports the name exactly when it changed, and nothing else; every trigger lies under the name |
| Compare.ChangeTriggerIncluded | mypy/server/astdiff.py:163-183 | the triggers of a shared name are triggers of the diff |
| Compare.NestedWithin | mypy/server/astdiff.py:179 | a name nested in `q.m` is nested in `q` and differs from `q` |
| CompareProperties.SelfDiffEmpty | mypy/server/astdiff.py:158-185 | diffing a snapshot against itself, under any prefix, reports nothing |
| CompareProperties.DifferentSnapshotsTrigger | mypy/server/astdiff.py:158-185 | snapshots that differ anywhere, at any depth, report something |
| CompareProperties.EmptyDiffIffEqual | mypy/server/astdiff.py:146-185 | the diff is empty exactly when the two snapshots are equal |
| CompareProperties.CompareSymmetric | mypy/server/astdiff.py:158-183 | swapping the two snapshots gives the same triggers |
| CompareProperties.EntryContribution | mypy/server/astdiff.py:163-183 | a name in both snapshots adds exactly its own items' triggers to the diff of the rest |
| CompareProperties.AddedNameReportedAlone | mypy/server/astdiff.py:158-160 | a name added to the second snapshot adds exactly `prefix.name` to the diff |
| CompareProperties.RemovedNameReportedAlone | mypy/server/astdiff.py:158-160 | a name removed from the first snapshot adds exactly `prefix.name` to the diff |
| CompareProperties.ClassHeaderChangeReported | mypy/server/astdiff.py:172-175 | a class whose common fields or attributes changed is reported by name |
| CompareProperties.ClassMembersAlwaysDiffed | mypy/server/astdiff.py:176-179 | the member tables of a class in both snapshots are always diffed, under the class's name |
| CompareProperties.NestedOnlyChange | mypy/server/astdiff.py:172-179 | a class with an unchanged shallow part and a dot-free name is not itself reported |
| CompareProperties.SiblingsDisjoint | mypy/server/astdiff.py:168 | triggers under one name never equal another dot-free sibling's qualified name |
| TableSnapshotProperties.ForeignDetailsInvisible | mypy/server/astdiff.py:204-218 | changes behind module references and foreign names that keep the common fields change neither the snapshot nor the diff |
| TableSnapshotProperties.SnapshotOfUpdate | mypy/server/astdiff.py:199-221 | setting one entry of a table sets the same entry of its snapshot and nothing else |
| TableSnapshotProperties.OneEntryChanged | mypy/server/astdiff.py:158-221 | tables that differ in one entry have as diff that entry's triggers |
| TableSnapshotProperties.LocalFunctionSnapshot | mypy/server/astdiff.py:214-233 | a local function is snapshotted with its common fields, property flag and signature snapshot |
| TableSnapshotProperties.SameSignatureIffSameSnapshot | mypy/server/astdiff.py:231-235 | two optional signatures snapshot alike exactly when both are absent or both present and equivalent |
| TableSnapshotProperties.SignatureChangeReportedIffNotSame | mypy/server/astdiff.py:180-233 | a new signature of a local function reports exactly its name, and only if the signature is not equivalent to the old one |
| TableSnapshotProperties.LocalVariableSnapshot | mypy/server/astdiff.py:214-235 | a local variable is snapshotted with its common fields and the snapshot of its declared type |
| TableSnapshotProperties.VarTypeChangeReportedIffNotSame | mypy/server/astdiff.py:180-235 | a new declared type of a local variable reports exactly its name, and only if the type is not equivalent to the old one |
| TableSnapshotProperties.NewEntryReportedAlone | mypy/server/astdiff.py:158-160 | defining a new name in a table reports that name alone |
| TableSnapshotProperties.LocalClassSnapshot | mypy/server/astdiff.py:236-251 | a local class is snapshotted with its attributes and its table snapshotted under its full name |
| TableSnapshotProperties.ClassBodyChangeReportedInside | mypy/server/astdiff.py:172-179 | when only a class's members change, the module diff is the diff of its member tables under the class's name |
| Scenarios.FooMembersOk | mypy/server/astdiff.py:214-233 | the example class table is one the snapshot accepts |
| Scenarios.FooSignaturesDiffer | mypy/server/astdiff.py:315-323 | `(self, x: int) -> int` and `(self, x: int) -> str` are different signatures |
| Scenarios.FooReturnChangeInMembers | mypy/server/astdiff.py:180-183 | in class `m.C`, changing `foo`'s return type reports `m.C.foo` |
| Scenarios.ReturnTypeChangeInClass | mypy/server/astdiff.py:172-179 | changing only `foo`'s return type in class `C` of module `m` reports exactly `m.C.foo` |
| Scenarios.BarAddedToMembers | mypy/server/astdiff.py:158-160 | in class `m.C`, adding `bar` reports `m.C.bar` |
| Scenarios.MethodAddedToClass | mypy/server/astdiff.py:158-179 | adding method `bar` to an otherwise unchanged class `C` reports exactly `m.C.bar` |
| Scenarios.ForeignClassChangeIgnored | mypy/server/astdiff.py:216-218 | a reference to `other.Z` in `m` reports nothing when `other.Z`'s flags, MRO and members change |
| Scenarios.UnionSnapshotsAgree | mypy/server/astdiff.py:333-338 | `Union[int, str]`, `Union[str, int]` and `Union[int, str, int]` have one snapshot |
| Scenarios.AnnotatingFunctionReported | mypy/server/astdiff.py:231-233 | annotating an unannotated function reports it, and neither version fails |
| AsWritten.EncodeNamesAsWritten | mypy/server/astdiff.py:320 | as written, argument names are kept pointwise and a missing name is `None` |
| AsWritten.SnapshotTypeAsWritten | mypy/server/astdiff.py:277-349 | the code's own snapshot: a tuple led by the tag; callable and unbound snapshots are unhashable |
| AsWritten.EachAsWritten | mypy/server/astdiff.py:269-270 | a list of snapshots exists exactly when every member's does, pointwise |
| AsWritten.FieldsAsWritten | mypy/server/astdiff.py:328-331 | the TypedDict pairs exist exactly when every field's snapshot does, pointwise |
| AsWritten.UnionOfCallableRaisesAsWritten | mypy/server/astdiff.py:315-338 | `Union[Callable[[], None], int]` raises as written; its corrected snapshot is hashable |
| AsWritten.AsWrittenAgreesWhenListFree | mypy/server/astdiff.py:277-349 | without callables and unbound types, the code as written and the corrected snapshot agree |
| AsWritten.AsWrittenRaisesIff | mypy/server/astdiff.py:277-349 | as written, a type's snapshot raises exactly when some union inside it has a member holding a callable or unbound type; when it returns, it is hashable exactly when the type holds no callable or unbound type |
| AsWritten.UnionSortableAsWritten | mypy/server/astdiff.py:336-337 | as written, once every member snapshot of a union is hashable, any two of them compare with `<`, so `sorted` returns and the set is the only place a union raises |
| AsWritten.SnapshotSymbolTableAsWritten | mypy/server/astdiff.py:188-221 | as written, a table's snapshot raises exactly when the definition of one of its local entries raises; otherwise it has the table's names |
| AsWritten.SnapshotEntryAsWritten | mypy/server/astdiff.py:199-220 | as written, module references and foreign names never raise; a local entry raises exactly when its definition does |
| AsWritten.SnapshotDefinitionAsWritten | mypy/server/astdiff.py:224-254 | as written, a definition raises exactly when it is a function without a type, a function or variable whose type's snapshot raises, or a class with such a definition in its own table at any depth |
| AsWritten.DefinitionAgreesWhenListFree | mypy/server/astdiff.py:224-254 | for a definition with no function and no callable or unbound type anywhere (through local classes), the snapshot as written is the corrected one; definitions holding a function are covered by `AsWrittenProperties.TriggersAgreeAsWritten` |
| AsWritten.TableAgreesWhenListFree | mypy/server/astdiff.py:188-221 | the same for a whole table with no function and no callable or unbound type, through local classes |
| AsWritten.UnannotatedFunctionRaisesAsWritten | mypy/server/astdiff.py:231-233 | an unannotated function raises as written; the corrected snapshot records no signature |
| AsWritten.UnannotatedMethodRaisesAsWritten | mypy/server/astdiff.py:231-250 | a class holding an unannotated method raises as written, through the snapshot of its own table at line 250 |
| AsWrittenProperties.UnionAsWrittenIsCorrected | mypy/server/astdiff.py:333-338 | a union whose snapshot returns as written has exactly its corrected snapshot |
| AsWrittenProperties.AsWrittenEqualImpliesEquiv | mypy/server/astdiff.py:277-349 | equal as-written snapshots mean the same type up to the order and repetition of union members |
| AsWrittenProperties.EquivImpliesAsWrittenEqual | mypy/server/astdiff.py:277-349 | the same type up to the order and repetition of union members has the same as-written snapshot, wherever both return |
| AsWrittenProperties.AsWrittenEqualIffSnapshotsEqual | mypy/server/astdiff.py:277-349 | wherever both return, two as-written type snapshots are equal exactly when the corrected snapshots are |
| AsWrittenProperties.EntryMirrored | mypy/server/astdiff.py:199-254 | an entry that returns as written has the corrected item's kind and common fields; module references and foreign names are the same item; a function or variable differs only by the as-written snapshot of its type; a class keeps its flags and MRO and has its own table snapshotted as written |
| AsWrittenProperties.LeafEntriesAgree | mypy/server/astdiff.py:181-183 | two function, variable, module or foreign items that return as written are equal exactly when their corrected items are |
| AsWrittenProperties.EntryTriggersAgree | mypy/server/astdiff.py:163-183 | a name present in both tables gets the same triggers from its as-written items as from its corrected items |
| AsWrittenProperties.TriggersAgreeAsWritten | mypy/server/astdiff.py:146-185 | where neither table's snapshot raises as written, the diff of the as-written snapshots equals the diff of the corrected snapshots, for tables with functions and local classes at any depth |
| AsWritten.CallableUnionVariableRaisesAsWritten | mypy/server/astdiff.py:234-235 | a variable declared `Union[Callable[[], None], int]` raises as written, at the union of line 336; the corrected snapshot records its type |

## Left out

- The visitor (`accept`) double dispatch. It becomes a `match` over `Types.Type`.
- The internals of `mypy.nodes` and `mypy.types` are plain datatype fields:
  `fullname()`, `is_type_obj()`, `TypedDictType.items`/`zip`, `TypeInfo.mro`,
  the kind constants and `TypeVarId`.
  - Kinds are an enumeration, because only their equality is used.
  - A `TypeVarId` is compared as its (raw id, meta level) pair.
- `TypedDictType.items` is a sequence of fields. Duplicate keys, which a
  Python dict cannot hold, are excluded by `DistinctKeys` where a lemma needs
  it.
- `mypy.util.get_prefix` is not part of this model. `Symbols.GetPrefix`
  assumes it returns the text before the last dot, or the whole name when
  there is none.
- Python's `sorted` on snapshot tuples is replaced by an explicit strict total
  order on values (`Values.Less`). Snapshots of unions are compared only for
  equality, and any strict total order gives the same equalities; the sorted
  order itself is not reproduced. Whether Python's `<` returns at all is
  modelled (`Values.Comparable`), and `SnapshotOrder` proves it does for
  the corrected snapshots.
- Python truthiness of nodes and types (`if node`, `if typ`) is modelled as
  presence. mypy's node and type classes do not define `__bool__` or
  `__len__`.
- Hashing itself is not modelled. `Values.Hashable` (no list inside) stands in
  for "can be put in a set".
- `RuntimeError`, `TypeError`, `AttributeError` and `assert False` are not run.
  Each becomes a precondition (`NoPartial`, `TableOk`) or, in `Identity` and
  `AsWritten`, the value `None`.
- The unused `TypeList` import is not modelled. So is everything on the
  caller's side: building the AST, the trigger graph and caching.
- TableSnapshots.SnapshotSymbolTable: its contract states the key set, the
  common fields and the shallow/deep split per entry. The contents of local
  definitions are stated by `TableSnapshots.SnapshotDefinition` and the
  lemmas of `TableSnapshotProperties`.
- TableSnapshots.SnapshotDefinition: an unannotated function's item records no
  signature, because a function node here carries only its type. So
  `def f(x)` changed to `def f(x, y)` gives equal snapshots. The docstring
  at lines 227-229 counts externally visible attributes, and a parameter
  list is one. The code does not show whether its authors meant to record
  it, so the model does not.
- Identity.IsIdenticalType: its contract states the false answers and the
  variant and class-name conditions of a true answer. Full structural
  soundness is stated, for all types without type variables, by
  `IdentityProperties.IdenticalImpliesSameUpToFieldOrder`. With type
  variables it does not hold (see the notes above).

## Findings

| source | as written | input that shows it | evidently intended | confidence | as-written member | corrected member |
|---|---|---|---|---|---|---|
| mypy/server/astdiff.py:315-338 | callable snapshots hold the argument names and kinds as lists, and unbound snapshots hold their arguments as a list; a union builds a set of its member snapshots, and a list cannot be hashed | `Union[Callable[[], None], int]`, a union under any analyser flags (with strict optional types, `Optional[Callable[[], None]]` too): building the member set raises `TypeError` | type snapshots are hashable (lines 136-140), so names, kinds and arguments are tuples; with a missing argument name as `()` rather than `None`, `sorted` can also compare any two member snapshots (`SnapshotOrder.UnionMembersSortable`), and every union can be snapshotted | high (not executed) | AsWritten.UnionOfCallableRaisesAsWritten | TypeSnapshotProperties.SnapshotHashable |
| mypy/server/astdiff.py:231-233 | a function's snapshot calls `snapshot_type(node.type)`, which fails when the function has no type | an unannotated `def f(): ...` in the module, whose node type is `None`; also an unannotated method of a local class, reached through line 250 (`AsWritten.UnannotatedMethodRaisesAsWritten`) | the signature is snapshotted with `snapshot_optional_type`, as variables are (line 235), and annotating a function is reported as a change. This is the smallest correction, not the only one: the corrected snapshot of an unannotated function records no signature, so a change to its parameter list alone is not reported (see Left out) | medium (not executed) | AsWritten.UnannotatedFunctionRaisesAsWritten | Scenarios.AnnotatingFunctionReported |
