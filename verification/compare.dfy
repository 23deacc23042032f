/** The diff of two snapshots of one symbol table: the set of qualified
    names whose externally visible definition changed. */
module Compare {

  import opened Symbols
  import opened TableSnapshots

  /** `t` is the name `q` itself or a name nested inside it. */
  predicate Within(q: string, t: string)
  {
    t == q || (|q| + 1 <= |t| && t[..|q| + 1] == q + ".")
  }

  /** `prefix.name` for every name of `keys`. */
  function QualifyAll(prefix: string, keys: set<string>): (r: set<string>)
    ensures forall n :: n in keys ==> Qualify(prefix, n) in r
    ensures forall q :: q in r ==> exists n :: n in keys && Qualify(prefix, n) == q
  {
    set n | n in keys :: Qualify(prefix, n)
  }

  /** Triggers for the names of two snapshots under `prefix`: a name present
      in only one of them, and every change of an entry present in both. */
  function CompareSymbolTableSnapshots(prefix: string, s1: TableSnapshot, s2: TableSnapshot): (r: set<string>)
    ensures forall n :: n in s1.entries && n !in s2.entries ==> Qualify(prefix, n) in r
    ensures forall n :: n in s2.entries && n !in s1.entries ==> Qualify(prefix, n) in r
    ensures forall t :: t in r ==>
              exists n :: (n in s1.entries || n in s2.entries) && Within(Qualify(prefix, n), t)
    decreases s1, 2
  {
    PresenceTriggers(prefix, s1.entries.Keys, s2.entries.Keys) + ChangeTriggers(prefix, s1, s2)
  }

  /** The qualified names of the names in exactly one of the two key sets. */
  function PresenceTriggers(prefix: string, keys1: set<string>, keys2: set<string>): (r: set<string>)
    ensures forall n :: (n in keys1) != (n in keys2) ==> Qualify(prefix, n) in r
    ensures forall t :: t in r ==> exists n :: (n in keys1) != (n in keys2) && Qualify(prefix, n) == t
  {
    var names1 := QualifyAll(prefix, keys1);
    var names2 := QualifyAll(prefix, keys2);
    forall n | (n in keys1) != (n in keys2)
      ensures (Qualify(prefix, n) in names1) != (Qualify(prefix, n) in names2)
    {
      forall m | m in keys1 + keys2 ensures Qualify(prefix, m) == Qualify(prefix, n) <==> m == n {
        QualifyInjective(prefix, m, n);
      }
    }
    (names1 - names2) + (names2 - names1)
  }

  /** The triggers of the names present in both snapshots. */
  function ChangeTriggers(prefix: string, s1: TableSnapshot, s2: TableSnapshot): (r: set<string>)
    ensures forall t :: t in r ==>
              exists n :: n in s1.entries && n in s2.entries && Within(Qualify(prefix, n), t)
    decreases s1, 1
  {
    set n, t | n in s1.entries && n in s2.entries
               && t in ItemTriggers(prefix, n, s1.entries[n], s2.entries[n]) :: t
  }

  /** The triggers for one name present in both snapshots. A change of
      kind, or of a leaf item, reports the name; for two classes the shallow
      part is compared and the nested tables are always diffed under the
      class's qualified name. */
  function ItemTriggers(prefix: string, name: string, i1: Item, i2: Item): (r: set<string>)
    ensures i1.Tag() != i2.Tag() ==> r == {Qualify(prefix, name)}
    ensures !(i1.TypeInfoItem? && i2.TypeInfoItem?) ==> r <= {Qualify(prefix, name)}
    ensures !(i1.TypeInfoItem? && i2.TypeInfoItem?) ==> (Qualify(prefix, name) in r <==> i1 != i2)
    ensures forall t :: t in r ==> Within(Qualify(prefix, name), t)
    decreases i1, 0
  {
    var itemName := Qualify(prefix, name);
    if i1.Tag() != i2.Tag() then {itemName}
    else if i1.TypeInfoItem? then
      var nested := CompareSymbolTableSnapshots(itemName, i1.names, i2.names);
      forall t | t in nested ensures Within(itemName, t) {
        var m :| (m in i1.names.entries || m in i2.names.entries) && Within(Qualify(itemName, m), t);
        NestedWithin(itemName, m, t);
      }
      (if i1.common != i2.common || i1.attrs != i2.attrs then {itemName} else {}) + nested
    else if i1 != i2 then {itemName}
    else {}
  }

  /** A name nested inside `q.m` is nested inside `q`. */
  lemma NestedWithin(q: string, m: string, t: string)
    requires Within(Qualify(q, m), t)
    ensures Within(q, t) && t != q
  {
    var qm := Qualify(q, m);
    assert qm[..|q| + 1] == q + ".";
    if t != qm {
      assert t[..|qm|] == qm[..|qm|];
      assert t[..|q| + 1] == t[..|qm|][..|q| + 1];
    }
  }

  /** A trigger of an entry present in both snapshots is a trigger of the
      diff. */
  lemma ChangeTriggerIncluded(prefix: string, s1: TableSnapshot, s2: TableSnapshot, n: string, t: string)
    requires n in s1.entries && n in s2.entries
    requires t in ItemTriggers(prefix, n, s1.entries[n], s2.entries[n])
    ensures t in CompareSymbolTableSnapshots(prefix, s1, s2)
  {
    assert t in ChangeTriggers(prefix, s1, s2);
  }

  /** The triggers of two class items: the class's own name when its
      shallow part changed, and the diff of the two member tables. */
  lemma ClassItemTriggers(prefix: string, name: string, a: Item, b: Item)
    requires a.TypeInfoItem? && b.TypeInfoItem?
    ensures ItemTriggers(prefix, name, a, b)
         == (if a.common != b.common || a.attrs != b.attrs then {Qualify(prefix, name)} else {})
            + CompareSymbolTableSnapshots(Qualify(prefix, name), a.names, b.names)
  {
  }
}
