/** What the diff promises: it is empty exactly when the two snapshots are
    equal, it does not depend on the order of its arguments, it reports a
    name added or removed by that name alone, and class members are diffed
    under the class's qualified name whether or not the class itself
    changed. */
module CompareProperties {

  import opened Symbols
  import opened TableSnapshots
  import opened Compare

  /** Diffing a snapshot against itself reports nothing. */
  lemma {:induction false} SelfDiffEmpty(prefix: string, s: TableSnapshot)
    ensures CompareSymbolTableSnapshots(prefix, s, s) == {}
    decreases s, 1
  {
    forall n | n in s.entries
      ensures ItemTriggers(prefix, n, s.entries[n], s.entries[n]) == {}
    {
      SameItemNoTriggers(prefix, n, s.entries[n]);
    }
  }

  lemma {:induction false} SameItemNoTriggers(prefix: string, name: string, i: Item)
    ensures ItemTriggers(prefix, name, i, i) == {}
    decreases i, 0
  {
    if i.TypeInfoItem? {
      SelfDiffEmpty(Qualify(prefix, name), i.names);
    }
  }

  /** Two snapshots that differ anywhere, at any depth, produce at least one
      trigger. */
  lemma {:induction false} DifferentSnapshotsTrigger(prefix: string, s1: TableSnapshot, s2: TableSnapshot)
    requires s1 != s2
    ensures CompareSymbolTableSnapshots(prefix, s1, s2) != {}
    decreases s1, 1
  {
    var r := CompareSymbolTableSnapshots(prefix, s1, s2);
    if s1.entries.Keys != s2.entries.Keys {
      if exists n :: n in s1.entries && n !in s2.entries {
        var n :| n in s1.entries && n !in s2.entries;
        assert Qualify(prefix, n) in r;
      } else {
        var n :| n in s2.entries && n !in s1.entries;
        assert Qualify(prefix, n) in r;
      }
    } else {
      if forall n :: n in s1.entries ==> s1.entries[n] == s2.entries[n] {
        assert false;
      }
      var n :| n in s1.entries && s1.entries[n] != s2.entries[n];
      DifferentItemsTrigger(prefix, n, s1.entries[n], s2.entries[n]);
      var t :| t in ItemTriggers(prefix, n, s1.entries[n], s2.entries[n]);
      ChangeTriggerIncluded(prefix, s1, s2, n, t);
    }
  }

  lemma {:induction false} DifferentItemsTrigger(prefix: string, name: string, a: Item, b: Item)
    requires a != b
    ensures ItemTriggers(prefix, name, a, b) != {}
    decreases a, 0
  {
    if a.Tag() == b.Tag() && a.TypeInfoItem? && b.TypeInfoItem?
       && a.common == b.common && a.attrs == b.attrs {
      DifferentSnapshotsTrigger(Qualify(prefix, name), a.names, b.names);
    }
  }

  /** The diff is exact: it is empty if and only if the snapshots are equal. */
  lemma EmptyDiffIffEqual(prefix: string, s1: TableSnapshot, s2: TableSnapshot)
    ensures CompareSymbolTableSnapshots(prefix, s1, s2) == {} <==> s1 == s2
  {
    if s1 == s2 {
      SelfDiffEmpty(prefix, s1);
    } else {
      DifferentSnapshotsTrigger(prefix, s1, s2);
    }
  }

  /** Swapping the two snapshots gives the same triggers. */
  lemma {:induction false} CompareSymmetric(prefix: string, s1: TableSnapshot, s2: TableSnapshot)
    ensures CompareSymbolTableSnapshots(prefix, s1, s2) == CompareSymbolTableSnapshots(prefix, s2, s1)
    decreases s1, 1
  {
    forall n | n in s1.entries && n in s2.entries
      ensures ItemTriggers(prefix, n, s1.entries[n], s2.entries[n])
           == ItemTriggers(prefix, n, s2.entries[n], s1.entries[n])
    {
      ItemTriggersSymmetric(prefix, n, s1.entries[n], s2.entries[n]);
    }
  }

  lemma {:induction false} ItemTriggersSymmetric(prefix: string, name: string, a: Item, b: Item)
    ensures ItemTriggers(prefix, name, a, b) == ItemTriggers(prefix, name, b, a)
    decreases a, 0
  {
    if a.TypeInfoItem? && b.TypeInfoItem? {
      ClassItemTriggers(prefix, name, a, b);
      ClassItemTriggers(prefix, name, b, a);
      CompareSymmetric(Qualify(prefix, name), a.names, b.names);
    }
  }

  /** A name present in both snapshots contributes exactly the triggers of
      its two items; the rest of the table is diffed as if it were absent. */
  lemma EntryContribution(prefix: string, s1: TableSnapshot, s2: TableSnapshot, n: string, a: Item, b: Item)
    requires n !in s1.entries && n !in s2.entries
    ensures CompareSymbolTableSnapshots(prefix, TableSnapshot(s1.entries[n := a]), TableSnapshot(s2.entries[n := b]))
         == CompareSymbolTableSnapshots(prefix, s1, s2) + ItemTriggers(prefix, n, a, b)
  {
    var t1 := TableSnapshot(s1.entries[n := a]);
    var t2 := TableSnapshot(s2.entries[n := b]);
    assert t1.entries.Keys == s1.entries.Keys + {n};
    assert t2.entries.Keys == s2.entries.Keys + {n};
    PresenceIgnoresShared(prefix, s1.entries.Keys, s2.entries.Keys, n);
    SharedChangeTriggers(prefix, s1, s2, n, a, b);
  }

  lemma PresenceIgnoresShared(prefix: string, keys1: set<string>, keys2: set<string>, n: string)
    requires n !in keys1 && n !in keys2
    ensures PresenceTriggers(prefix, keys1 + {n}, keys2 + {n}) == PresenceTriggers(prefix, keys1, keys2)
  {
    var left := PresenceTriggers(prefix, keys1 + {n}, keys2 + {n});
    var right := PresenceTriggers(prefix, keys1, keys2);
    forall t | t in left ensures t in right {
      var m :| ((m in keys1 + {n}) != (m in keys2 + {n})) && Qualify(prefix, m) == t;
      assert (m in keys1) != (m in keys2);
    }
    forall t | t in right ensures t in left {
      var m :| ((m in keys1) != (m in keys2)) && Qualify(prefix, m) == t;
      assert m != n;
    }
  }

  lemma PresenceOfAdded(prefix: string, keys1: set<string>, keys2: set<string>, n: string)
    requires n !in keys1 && n !in keys2
    ensures PresenceTriggers(prefix, keys1, keys2 + {n}) == PresenceTriggers(prefix, keys1, keys2) + {Qualify(prefix, n)}
  {
    var left := PresenceTriggers(prefix, keys1, keys2 + {n});
    var right := PresenceTriggers(prefix, keys1, keys2);
    forall t | t in left ensures t in right + {Qualify(prefix, n)} {
      var m :| ((m in keys1) != (m in keys2 + {n})) && Qualify(prefix, m) == t;
      if m != n {
        assert (m in keys1) != (m in keys2);
      }
    }
    forall t | t in right ensures t in left {
      var m :| ((m in keys1) != (m in keys2)) && Qualify(prefix, m) == t;
      assert m != n;
    }
  }

  lemma SharedChangeTriggers(prefix: string, s1: TableSnapshot, s2: TableSnapshot, n: string, a: Item, b: Item)
    requires n !in s1.entries && n !in s2.entries
    ensures ChangeTriggers(prefix, TableSnapshot(s1.entries[n := a]), TableSnapshot(s2.entries[n := b]))
         == ChangeTriggers(prefix, s1, s2) + ItemTriggers(prefix, n, a, b)
  {
    var t1 := TableSnapshot(s1.entries[n := a]);
    var t2 := TableSnapshot(s2.entries[n := b]);
    var left := ChangeTriggers(prefix, t1, t2);
    var right := ChangeTriggers(prefix, s1, s2);
    forall t | t in left ensures t in right + ItemTriggers(prefix, n, a, b) {
      var m :| m in t1.entries && m in t2.entries
               && t in ItemTriggers(prefix, m, t1.entries[m], t2.entries[m]);
      if m != n {
        assert t1.entries[m] == s1.entries[m] && t2.entries[m] == s2.entries[m];
      }
    }
    forall t | t in right ensures t in left {
      var m :| m in s1.entries && m in s2.entries
               && t in ItemTriggers(prefix, m, s1.entries[m], s2.entries[m]);
      assert t1.entries[m] == s1.entries[m] && t2.entries[m] == s2.entries[m];
    }
    forall t | t in ItemTriggers(prefix, n, a, b) ensures t in left {
      assert t1.entries[n] == a && t2.entries[n] == b;
    }
  }

  lemma UnsharedChangeTriggers(prefix: string, s1: TableSnapshot, s2: TableSnapshot, n: string, b: Item)
    requires n !in s1.entries
    ensures ChangeTriggers(prefix, s1, TableSnapshot(s2.entries[n := b])) == ChangeTriggers(prefix, s1, s2)
  {
    var t2 := TableSnapshot(s2.entries[n := b]);
    var left := ChangeTriggers(prefix, s1, t2);
    var right := ChangeTriggers(prefix, s1, s2);
    forall t | t in left ensures t in right {
      var m :| m in s1.entries && m in t2.entries
               && t in ItemTriggers(prefix, m, s1.entries[m], t2.entries[m]);
      assert t2.entries[m] == s2.entries[m];
    }
    forall t | t in right ensures t in left {
      var m :| m in s1.entries && m in s2.entries
               && t in ItemTriggers(prefix, m, s1.entries[m], s2.entries[m]);
      assert t2.entries[m] == s2.entries[m];
    }
  }

  /** A name added to the second snapshot is reported by its qualified name
      and nothing else. */
  lemma AddedNameReportedAlone(prefix: string, s1: TableSnapshot, s2: TableSnapshot, n: string, b: Item)
    requires n !in s1.entries && n !in s2.entries
    ensures CompareSymbolTableSnapshots(prefix, s1, TableSnapshot(s2.entries[n := b]))
         == CompareSymbolTableSnapshots(prefix, s1, s2) + {Qualify(prefix, n)}
  {
    assert TableSnapshot(s2.entries[n := b]).entries.Keys == s2.entries.Keys + {n};
    PresenceOfAdded(prefix, s1.entries.Keys, s2.entries.Keys, n);
    UnsharedChangeTriggers(prefix, s1, s2, n, b);
  }

  /** A name removed from the first snapshot is reported by its qualified
      name and nothing else. */
  lemma RemovedNameReportedAlone(prefix: string, s1: TableSnapshot, s2: TableSnapshot, n: string, a: Item)
    requires n !in s1.entries && n !in s2.entries
    ensures CompareSymbolTableSnapshots(prefix, TableSnapshot(s1.entries[n := a]), s2)
         == CompareSymbolTableSnapshots(prefix, s1, s2) + {Qualify(prefix, n)}
  {
    CompareSymmetric(prefix, TableSnapshot(s1.entries[n := a]), s2);
    AddedNameReportedAlone(prefix, s2, s1, n, a);
    CompareSymmetric(prefix, s1, s2);
  }

  /** A class whose flags, MRO or common fields changed is reported by its
      own qualified name. */
  lemma ClassHeaderChangeReported(prefix: string, s1: TableSnapshot, s2: TableSnapshot, n: string)
    requires n in s1.entries && n in s2.entries
    requires s1.entries[n].TypeInfoItem? && s2.entries[n].TypeInfoItem?
    requires s1.entries[n].common != s2.entries[n].common || s1.entries[n].attrs != s2.entries[n].attrs
    ensures Qualify(prefix, n) in CompareSymbolTableSnapshots(prefix, s1, s2)
  {
    ClassItemTriggers(prefix, n, s1.entries[n], s2.entries[n]);
    ChangeTriggerIncluded(prefix, s1, s2, n, Qualify(prefix, n));
  }

  /** The members of a class present in both snapshots are always diffed,
      under the class's qualified name. */
  lemma ClassMembersAlwaysDiffed(prefix: string, s1: TableSnapshot, s2: TableSnapshot, n: string)
    requires n in s1.entries && n in s2.entries
    requires s1.entries[n].TypeInfoItem? && s2.entries[n].TypeInfoItem?
    ensures CompareSymbolTableSnapshots(Qualify(prefix, n), s1.entries[n].names, s2.entries[n].names)
         <= CompareSymbolTableSnapshots(prefix, s1, s2)
  {
    var nested := CompareSymbolTableSnapshots(Qualify(prefix, n), s1.entries[n].names, s2.entries[n].names);
    forall t | t in nested ensures t in CompareSymbolTableSnapshots(prefix, s1, s2) {
      ClassItemTriggers(prefix, n, s1.entries[n], s2.entries[n]);
      ChangeTriggerIncluded(prefix, s1, s2, n, t);
    }
  }

  /** A change confined to the members of a class with a simple name does
      not report the class itself. */
  lemma NestedOnlyChange(prefix: string, s1: TableSnapshot, s2: TableSnapshot, n: string)
    requires '.' !in n
    requires n in s1.entries && n in s2.entries
    requires s1.entries[n].TypeInfoItem? && s2.entries[n].TypeInfoItem?
    requires s1.entries[n].common == s2.entries[n].common && s1.entries[n].attrs == s2.entries[n].attrs
    ensures Qualify(prefix, n) !in CompareSymbolTableSnapshots(prefix, s1, s2)
  {
    var q := Qualify(prefix, n);
    forall m, t | m in s1.entries && m in s2.entries
                  && t in ItemTriggers(prefix, m, s1.entries[m], s2.entries[m])
      ensures t != q
    {
      if m == n {
        ClassItemTriggers(prefix, n, s1.entries[n], s2.entries[n]);
        var nested := CompareSymbolTableSnapshots(q, s1.entries[n].names, s2.entries[n].names);
        assert t in nested;
        var k :| (k in s1.entries[n].names.entries || k in s2.entries[n].names.entries)
                 && Within(Qualify(q, k), t);
        NestedWithin(q, k, t);
      } else {
        SiblingsDisjoint(prefix, m, n, t);
      }
    }
    assert q !in ChangeTriggers(prefix, s1, s2);
    forall m | Qualify(prefix, m) == q ensures m == n {
      QualifyInjective(prefix, m, n);
    }
    assert q !in PresenceTriggers(prefix, s1.entries.Keys, s2.entries.Keys);
  }

  /** A name nested inside `prefix.m` is never `prefix.n` for another
      simple name `n`. */
  lemma SiblingsDisjoint(prefix: string, m: string, n: string, t: string)
    requires m != n && '.' !in n
    requires Within(Qualify(prefix, m), t)
    ensures t != Qualify(prefix, n)
  {
    QualifyInjective(prefix, m, n);
    var qm := Qualify(prefix, m);
    var qn := Qualify(prefix, n);
    if t != qm && |t| == |qn| {
      assert t[|qm|] == (qm + ".")[|qm|] == '.';
      assert qn[|qm|] == n[|m|];
    }
  }
}
