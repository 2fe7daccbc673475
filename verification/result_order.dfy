/**
 * How `select` puts the scanned items in order before returning them: each
 * item's attributes sorted by name (`ksort`), the items stably sorted by
 * their `name` attribute (`uasort`), renumbered, and finally sorted by PHP's
 * array comparison (`sort`).
 */
module ResultOrder {

  import opened PhpArray
  import opened Values
  import opened PhpSort

  /** `strcmp(a, b) <= 0`, the order `ksort` puts string keys in. */
  function StrLe(a: string, b: string): bool
  {
    StringCmp(a, b) <= 0
  }

  function AttributeName(entry: (string, Scalar)): string
  {
    entry.0
  }

  function KeyLe(a: (string, Scalar), b: (string, Scalar)): bool
  {
    StrLe(AttributeName(a), AttributeName(b))
  }

  /** `ksort($item)`. */
  function KSort(item: Record): Record
  {
    Sort(KeyLe, item)
  }

  /** `ksort` applied to every scanned item, in scan order. */
  function KSortAll(items: seq<Record>): seq<Record>
  {
    Project(KSort, items)
  }

  /** `$item['name']`: a missing attribute reads as null. */
  function NameOf(item: Record): Scalar
  {
    match Lookup(item, "name")
    case Some(v) => v
    case None => Null
  }

  /** The `uasort` callback `$a['name'] <=> $b['name']`, as a "comes no later than". */
  function NameLe(a: Record, b: Record): bool
  {
    ScalarCmp(NameOf(a), NameOf(b)) <= 0
  }

  /** `sort`'s default comparison of two items, as a "comes no later than". */
  function RecordLe(a: Record, b: Record): bool
  {
    RecordCmp(a, b) <= 0
  }

  /** The items `select` returns for the scanned items `items`. */
  function Canonical(items: seq<Record>): seq<Record>
  {
    Sort(RecordLe, Sort(NameLe, KSortAll(items)))
  }

  /** Every item has the attribute names `names` (in any order), and no name twice. */
  ghost predicate Uniform(items: seq<Record>, names: seq<string>)
  {
    && Distinct(names)
    && forall i :: 0 <= i < |items| ==> multiset(Keys(items[i])) == multiset(names)
  }

  /** Every record has exactly the attribute names `names`, in that order. */
  ghost predicate SameKeys(records: seq<Record>, names: seq<string>)
  {
    && Distinct(names)
    && forall r :: r in records ==> Keys(r) == names
  }

  // ---------------------------------------------------------------------------
  // Attribute order within an item

  lemma StrLeTotalOrder(s: seq<string>)
    ensures TotalOrderOn(StrLe, s)
  {
    forall a, b | a in s && b in s ensures StrLe(a, b) || StrLe(b, a) {
      StringCmpAntisymmetric(a, b);
    }
    forall a, b, c | a in s && b in s && c in s && StrLe(a, b) && StrLe(b, c) ensures StrLe(a, c) {
      StringCmpTransitive(a, b, c);
    }
    forall a, b | a in s && b in s && StrLe(a, b) && StrLe(b, a) ensures a == b {
      StringCmpAntisymmetric(a, b);
    }
  }

  lemma {:induction false} KeysProject(item: Record)
    ensures Keys(item) == Project(AttributeName, item)
  {
    forall i | 0 <= i < |item| ensures Keys(item)[i] == Project(AttributeName, item)[i] {
      ProjectAt(AttributeName, item, i);
    }
  }

  /**
   * `ksort` keeps an item's entries and lists its attribute names in
   * ascending byte order, each once.
   */
  lemma KSortSpec(item: Record)
    requires DistinctKeys(item)
    ensures multiset(KSort(item)) == multiset(item)
    ensures Keys(KSort(item)) == Sort(StrLe, Keys(item))
    ensures Sorted(StrLe, Keys(KSort(item)))
    ensures DistinctKeys(KSort(item))
  {
    KeysProject(item);
    KeysProject(KSort(item));
    SortProject(KeyLe, StrLe, AttributeName, item);
    StrLeTotalOrder(Keys(item));
    SortSorted(StrLe, Keys(item));
    DistinctPermutation(Keys(item), Keys(KSort(item)));
  }

  /** Two items with the same attribute names end up with them in the same order. */
  lemma KSortSameOrder(a: Record, b: Record)
    requires DistinctKeys(a) && DistinctKeys(b)
    requires multiset(Keys(a)) == multiset(Keys(b))
    ensures Keys(KSort(a)) == Keys(KSort(b))
  {
    KSortSpec(a);
    KSortSpec(b);
    StrLeTotalOrder(Keys(a));
    SortIgnoresInputOrder(StrLe, Keys(a), Keys(b));
  }

  lemma SortedByName(item: Record)
    requires Sorted(StrLe, Keys(item))
    ensures Sorted(KeyLe, item)
  {
    forall i | 0 < i < |item| ensures KeyLe(item[i - 1], item[i]) {
      assert Keys(item)[i - 1] == item[i - 1].0;
    }
  }

  lemma KeyLeTotalOrder(item: Record)
    requires DistinctKeys(item)
    ensures TotalOrderOn(KeyLe, item)
  {
    forall a, b | a in item && b in item ensures KeyLe(a, b) || KeyLe(b, a) {
      StringCmpAntisymmetric(a.0, b.0);
    }
    forall a, b, c | a in item && b in item && c in item && KeyLe(a, b) && KeyLe(b, c) ensures KeyLe(a, c) {
      StringCmpTransitive(a.0, b.0, c.0);
    }
    forall a, b | a in item && b in item && KeyLe(a, b) && KeyLe(b, a) ensures a == b {
      StringCmpAntisymmetric(a.0, b.0);
      var i :| 0 <= i < |item| && item[i] == a;
      var j :| 0 <= j < |item| && item[j] == b;
      assert Keys(item)[i] == Keys(item)[j];
    }
  }

  /** An item whose attributes are already in ascending order is left as it is. */
  lemma KSortKeepsSorted(item: Record)
    requires DistinctKeys(item) && Sorted(StrLe, Keys(item))
    ensures KSort(item) == item
  {
    KSortSpec(item);
    SortedByName(item);
    SortedByName(KSort(item));
    KeyLeTotalOrder(item);
    SortedUnique(KeyLe, item, KSort(item));
  }

  /** Under uniform attributes, every ksorted item lists the same names in the same order. */
  lemma KSortAllUniform(items: seq<Record>, names: seq<string>)
    requires Uniform(items, names)
    ensures SameKeys(KSortAll(items), Sort(StrLe, names))
  {
    var ks := Sort(StrLe, names);
    DistinctPermutation(names, ks);
    forall r | r in KSortAll(items) ensures Keys(r) == ks {
      var j :| 0 <= j < |KSortAll(items)| && KSortAll(items)[j] == r;
      ProjectAt(KSort, items, j);
      DistinctPermutation(names, Keys(items[j]));
      KSortSpec(items[j]);
      StrLeTotalOrder(Keys(items[j]));
      SortIgnoresInputOrder(StrLe, Keys(items[j]), names);
    }
  }

  // ---------------------------------------------------------------------------
  // Item order

  /** For records with the same names in the same order, `sort`'s comparison is a total order. */
  lemma RecordLeTotalOrder(records: seq<Record>, names: seq<string>)
    requires SameKeys(records, names)
    ensures TotalOrderOn(RecordLe, records)
  {
    forall a, b | a in records && b in records
      ensures RecordCmp(a, b) == ValuesCmp(a, b, 0) && RecordCmp(a, b) == -RecordCmp(b, a)
      ensures RecordCmp(a, b) == 0 ==> a == b
    {
      EntriesCmpSameKeys(a, b, 0);
      EntriesCmpSameKeys(b, a, 0);
      ValuesCmpAntisymmetric(a, b, 0);
      if RecordCmp(a, b) == 0 {
        forall j | 0 <= j < |a| ensures a[j] == b[j] {
          assert Keys(a)[j] == Keys(b)[j];
        }
      }
    }
    forall a, b, c | a in records && b in records && c in records && RecordLe(a, b) && RecordLe(b, c)
      ensures RecordLe(a, c)
    {
      ValuesCmpTransitive(a, b, c, 0);
    }
  }

  /** The returned items are the ksorted scanned items, in ascending order of `sort`'s comparison. */
  lemma CanonicalOrdered(items: seq<Record>, names: seq<string>)
    requires Uniform(items, names)
    ensures multiset(Canonical(items)) == multiset(KSortAll(items))
    ensures SameKeys(Canonical(items), Sort(StrLe, names))
    ensures Sorted(RecordLe, Canonical(items))
  {
    var ks := Sort(StrLe, names);
    var byName := Sort(NameLe, KSortAll(items));
    KSortAllUniform(items, names);
    SameElements(KSortAll(items), byName);
    SameElements(byName, Canonical(items));
    RecordLeTotalOrder(byName, ks);
    SortSorted(RecordLe, byName);
  }

  /**
   * Under uniform attributes the sort by `name` has no effect on the result:
   * the final `sort` alone decides the order.
   */
  lemma NameSortRedundant(items: seq<Record>, names: seq<string>)
    requires Uniform(items, names)
    ensures Canonical(items) == Sort(RecordLe, KSortAll(items))
  {
    KSortAllUniform(items, names);
    RecordLeTotalOrder(KSortAll(items), Sort(StrLe, names));
    SortIgnoresInputOrder(RecordLe, KSortAll(items), Sort(NameLe, KSortAll(items)));
  }

  /** The result does not depend on the order in which the scan returns the items. */
  lemma CanonicalIgnoresScanOrder(items: seq<Record>, other: seq<Record>, names: seq<string>)
    requires Uniform(items, names)
    requires multiset(items) == multiset(other)
    ensures Canonical(items) == Canonical(other)
  {
    ProjectPermutation(KSort, items, other);
    KSortAllUniform(items, names);
    RecordLeTotalOrder(Sort(NameLe, KSortAll(items)), Sort(StrLe, names)) by {
      SameElements(KSortAll(items), Sort(NameLe, KSortAll(items)));
    }
    SortIgnoresInputOrder(RecordLe, Sort(NameLe, KSortAll(items)), Sort(NameLe, KSortAll(other)));
  }

  /**
   * What the facade's own test expects: the rows it stored, each listing its
   * attributes in ascending order, come back sorted by name and then by
   * `sort`, whatever order the scan delivers the items in and whatever order
   * each item lists its attributes in.
   */
  lemma SelectMatchesRowOrder(items: seq<Record>, rows: seq<Record>, names: seq<string>)
    requires Uniform(items, names)
    requires forall r :: r in rows ==> Keys(r) == names
    requires multiset(KSortAll(items)) == multiset(rows)
    ensures Canonical(items) == Sort(RecordLe, Sort(NameLe, rows))
  {
    var ks := Sort(StrLe, names);
    KSortAllUniform(items, names);
    SameElements(KSortAll(items), rows);
    RecordLeTotalOrder(KSortAll(items), ks);
    NameSortRedundant(items, names);
    SortIgnoresInputOrder(RecordLe, KSortAll(items), rows);
    SameElements(rows, Sort(NameLe, rows));
    RecordLeTotalOrder(rows, names);
    SortIgnoresInputOrder(RecordLe, rows, Sort(NameLe, rows));
  }
}
