/**
 * PHP's library sorts (`ksort`, `uasort`, `sort`) as one stable insertion
 * sort parameterised by the "less than or equal" its comparator induces.
 * PHP's own algorithm is a hybrid insertion/quick sort; what the model relies
 * on is only what any stable sort guarantees: the result is a permutation of
 * the input, it is ordered, and for a total order it is the unique ordered
 * permutation.
 */
module PhpSort {

  import opened PhpArray

  /** Inserts `x` in front of the first element it is less than or equal to. */
  function Insert<T>(le: (T, T) -> bool, x: T, s: seq<T>): (r: seq<T>)
    ensures multiset(r) == multiset(s) + multiset{x}
    ensures |r| == |s| + 1
    ensures r[0] == x || (s != [] && r[0] == s[0])
  {
    if s == [] || le(x, s[0]) then [x] + s
    else
      assert s == [s[0]] + s[1..];
      [s[0]] + Insert(le, x, s[1..])
  }

  /** Sorts `s` by `le`, keeping equal elements in their input order. */
  function Sort<T>(le: (T, T) -> bool, s: seq<T>): (r: seq<T>)
    ensures multiset(r) == multiset(s)
    ensures |r| == |s|
  {
    if s == [] then []
    else
      assert s == [s[0]] + s[1..];
      Insert(le, s[0], Sort(le, s[1..]))
  }

  /** Each element is less than or equal to its successor. */
  ghost predicate Sorted<T>(le: (T, T) -> bool, s: seq<T>)
  {
    forall i :: 0 < i < |s| ==> le(s[i - 1], s[i])
  }

  /** Any two elements of `s` are comparable. */
  ghost predicate TotalOn<T>(le: (T, T) -> bool, s: seq<T>)
  {
    forall a, b :: a in s && b in s ==> le(a, b) || le(b, a)
  }

  /** `le` is transitive on the elements of `s`. */
  ghost predicate TransitiveOn<T>(le: (T, T) -> bool, s: seq<T>)
  {
    forall a, b, c :: a in s && b in s && c in s && le(a, b) && le(b, c) ==> le(a, c)
  }

  /** `le` is antisymmetric on the elements of `s`. */
  ghost predicate AntisymmetricOn<T>(le: (T, T) -> bool, s: seq<T>)
  {
    forall a, b :: a in s && b in s && le(a, b) && le(b, a) ==> a == b
  }

  /** A total, transitive, antisymmetric `le` on the elements of `s`. */
  ghost predicate TotalOrderOn<T>(le: (T, T) -> bool, s: seq<T>)
  {
    TotalOn(le, s) && TransitiveOn(le, s) && AntisymmetricOn(le, s)
  }

  lemma {:induction false} InsertSorted<T>(le: (T, T) -> bool, x: T, s: seq<T>)
    requires Sorted(le, s)
    requires TotalOn(le, [x] + s)
    ensures Sorted(le, Insert(le, x, s))
  {
    if s != [] && !le(x, s[0]) {
      assert s[0] in [x] + s && x in [x] + s;
      assert le(s[0], x);
      var tail := s[1..];
      forall a, b | a in [x] + tail && b in [x] + tail ensures le(a, b) || le(b, a) {
        assert a in [x] + s && b in [x] + s;
      }
      InsertSorted(le, x, tail);
      var rest := Insert(le, x, tail);
      assert rest[0] == x || rest[0] == s[1];
    }
  }

  /** Sort orders its input whenever the input's elements are all comparable. */
  lemma {:induction false} SortSorted<T>(le: (T, T) -> bool, s: seq<T>)
    requires TotalOn(le, s)
    ensures Sorted(le, Sort(le, s))
  {
    if s != [] {
      var tail := s[1..];
      forall a, b | a in tail && b in tail ensures le(a, b) || le(b, a) {
        assert a in s && b in s;
      }
      SortSorted(le, tail);
      var sorted := Sort(le, tail);
      assert s == [s[0]] + tail;
      forall a, b | a in [s[0]] + sorted && b in [s[0]] + sorted ensures le(a, b) || le(b, a) {
        assert multiset([s[0]] + sorted) == multiset(s);
        assert a in multiset(s) && b in multiset(s);
      }
      InsertSorted(le, s[0], sorted);
    }
  }

  /** With a transitive order, the first element of a sorted sequence is below all the others. */
  lemma {:induction false} SortedHeadBelow<T>(le: (T, T) -> bool, s: seq<T>, j: nat)
    requires Sorted(le, s) && TransitiveOn(le, s)
    requires 0 < j < |s|
    ensures le(s[0], s[j])
  {
    if j > 1 {
      SortedHeadBelow(le, s, j - 1);
      assert s[0] in s && s[j - 1] in s && s[j] in s;
    }
  }

  /** An order on the elements of `s` is one on any sequence drawn from them. */
  lemma TotalOrderOnSub<T>(le: (T, T) -> bool, s: seq<T>, u: seq<T>)
    requires TotalOrderOn(le, s)
    requires forall x :: x in u ==> x in s
    ensures TotalOrderOn(le, u)
  {
  }

  lemma SortedTail<T>(le: (T, T) -> bool, s: seq<T>)
    requires Sorted(le, s) && s != []
    ensures Sorted(le, s[1..])
  {
    assert forall i :: 0 < i < |s[1..]| ==> s[1..][i - 1] == s[i] && s[1..][i] == s[i + 1];
  }

  /** Two sorted permutations of each other start with the same element. */
  lemma SortedSameHead<T>(le: (T, T) -> bool, s: seq<T>, t: seq<T>)
    requires multiset(s) == multiset(t) && s != []
    requires Sorted(le, s) && Sorted(le, t)
    requires TotalOrderOn(le, s)
    ensures t != [] && s[0] == t[0]
  {
    SameElements(s, t);
    assert |t| == |multiset(t)| == |multiset(s)| == |s|;
    assert t[0] in t && s[0] in s;
    TotalOrderOnSub(le, s, t);
    if s[0] != t[0] {
      var i :| 0 <= i < |s| && s[i] == t[0];
      var j :| 0 <= j < |t| && t[j] == s[0];
      SortedHeadBelow(le, s, i);
      SortedHeadBelow(le, t, j);
      assert false;
    }
  }

  /** Two sorted permutations of each other are equal under a total order. */
  lemma {:induction false} SortedUnique<T>(le: (T, T) -> bool, s: seq<T>, t: seq<T>)
    requires multiset(s) == multiset(t)
    requires Sorted(le, s) && Sorted(le, t)
    requires TotalOrderOn(le, s)
    ensures s == t
  {
    if s == [] {
      assert |t| == |multiset(t)| == 0;
    } else {
      SortedSameHead(le, s, t);
      assert s == [s[0]] + s[1..] && t == [t[0]] + t[1..];
      assert multiset(s) == multiset{s[0]} + multiset(s[1..]);
      assert multiset(t) == multiset{t[0]} + multiset(t[1..]);
      assert multiset(s[1..]) == multiset(s) - multiset{s[0]};
      assert multiset(t[1..]) == multiset(t) - multiset{t[0]};
      SortedTail(le, s);
      SortedTail(le, t);
      TotalOrderOnSub(le, s, s[1..]);
      SortedUnique(le, s[1..], t[1..]);
    }
  }

  /**
   * Under a total order the result of Sort depends only on the multiset of
   * its input: the order in which the elements arrive does not matter.
   */
  lemma SortIgnoresInputOrder<T>(le: (T, T) -> bool, s: seq<T>, t: seq<T>)
    requires multiset(s) == multiset(t)
    requires TotalOrderOn(le, s)
    ensures Sort(le, s) == Sort(le, t)
  {
    SameElements(s, t);
    SameElements(s, Sort(le, s));
    SameElements(t, Sort(le, t));
    TotalOrderOnSub(le, s, t);
    TotalOrderOnSub(le, s, Sort(le, s));
    SortSorted(le, s);
    SortSorted(le, t);
    SortedUnique(le, Sort(le, s), Sort(le, t));
  }

  /** Sequences with the same multiset have the same elements. */
  lemma SameElements<T>(s: seq<T>, t: seq<T>)
    requires multiset(s) == multiset(t)
    ensures forall x :: x in s ==> x in t
    ensures forall x :: x in t ==> x in s
  {
    forall x ensures x in s <==> x in t {
      assert x in s <==> x in multiset(s);
      assert x in t <==> x in multiset(t);
    }
  }

  /** A permutation of a sequence without repetitions has no repetitions. */
  lemma DistinctPermutation<T>(s: seq<T>, t: seq<T>)
    requires multiset(s) == multiset(t) && Distinct(s)
    ensures Distinct(t)
  {
    DistinctCounts(s);
    forall i, j | 0 <= i < j < |t| ensures t[i] != t[j] {
      assert t == t[..j] + t[j..];
      assert multiset(t) == multiset(t[..j]) + multiset(t[j..]);
      assert t[i] in t[..j] && t[j] in t[j..];
      assert multiset(t)[t[j]] == multiset(t[..j])[t[j]] + multiset(t[j..])[t[j]];
    }
  }

  lemma {:induction false} DistinctCounts<T>(s: seq<T>)
    requires Distinct(s)
    ensures forall x :: multiset(s)[x] <= 1
  {
    if s != [] {
      assert s == [s[0]] + s[1..];
      assert Distinct(s[1..]);
      DistinctCounts(s[1..]);
      assert s[0] !in s[1..];
    }
  }

  /** Sorting commutes with a projection when the order is defined through it. */
  lemma {:induction false} InsertProject<T, K>(le: (T, T) -> bool, leK: (K, K) -> bool, key: T -> K, x: T, s: seq<T>)
    requires forall a, b :: le(a, b) == leK(key(a), key(b))
    ensures Project(key, Insert(le, x, s)) == Insert(leK, key(x), Project(key, s))
  {
    if s != [] && !le(x, s[0]) {
      InsertProject(le, leK, key, x, s[1..]);
      assert Project(key, s)[1..] == Project(key, s[1..]);
      assert Project(key, [s[0]] + Insert(le, x, s[1..])) == [key(s[0])] + Project(key, Insert(le, x, s[1..]));
    } else {
      assert Project(key, [x] + s) == [key(x)] + Project(key, s);
    }
  }

  lemma {:induction false} SortProject<T, K>(le: (T, T) -> bool, leK: (K, K) -> bool, key: T -> K, s: seq<T>)
    requires forall a, b :: le(a, b) == leK(key(a), key(b))
    ensures Project(key, Sort(le, s)) == Sort(leK, Project(key, s))
  {
    if s != [] {
      SortProject(le, leK, key, s[1..]);
      InsertProject(le, leK, key, s[0], Sort(le, s[1..]));
      assert Project(key, s)[1..] == Project(key, s[1..]);
    }
  }

  /** `key` applied to every element. */
  function Project<T, K>(key: T -> K, s: seq<T>): (r: seq<K>)
    ensures |r| == |s|
  {
    if s == [] then [] else [key(s[0])] + Project(key, s[1..])
  }

  lemma {:induction false} ProjectAt<T, K>(key: T -> K, s: seq<T>, i: nat)
    requires i < |s|
    ensures Project(key, s)[i] == key(s[i])
  {
    if i > 0 {
      ProjectAt(key, s[1..], i - 1);
    }
  }

  /** Projecting a concatenation projects each part. */
  lemma {:induction false} ProjectConcat<T, K>(key: T -> K, a: seq<T>, b: seq<T>)
    ensures Project(key, a + b) == Project(key, a) + Project(key, b)
  {
    if a != [] {
      assert (a + b)[1..] == a[1..] + b;
      ProjectConcat(key, a[1..], b);
    } else {
      assert a + b == b;
    }
  }

  /** Projecting after removing the element at `j` loses exactly its image. */
  lemma ProjectRemoveAt<T, K>(key: T -> K, t: seq<T>, j: nat)
    requires j < |t|
    ensures multiset(Project(key, t)) == multiset(Project(key, t[..j] + t[j + 1..])) + multiset{key(t[j])}
  {
    var before, after := t[..j], t[j + 1..];
    ProjectConcat(key, before, after);
    ProjectConcat(key, before, [t[j]] + after);
    ProjectConcat(key, [t[j]], after);
    assert t == before + ([t[j]] + after);
    assert Project(key, [t[j]]) == [key(t[j])];
  }

  /** Removing the element at `j` removes one copy of it from the multiset. */
  lemma RemoveAt<T>(t: seq<T>, j: nat)
    requires j < |t|
    ensures multiset(t) == multiset(t[..j] + t[j + 1..]) + multiset{t[j]}
  {
    assert t == t[..j] + [t[j]] + t[j + 1..];
    assert multiset(t) == multiset(t[..j]) + multiset{t[j]} + multiset(t[j + 1..]);
  }

  /** Mapping a function over two permutations of each other gives permutations of each other. */
  lemma {:induction false} ProjectPermutation<T, K>(key: T -> K, s: seq<T>, t: seq<T>)
    requires multiset(s) == multiset(t)
    ensures multiset(Project(key, s)) == multiset(Project(key, t))
  {
    if s == [] {
      assert t == [];
    } else {
      assert s[0] in t by {
        assert s[0] in multiset(t);
      }
      var j := IndexOf(t, s[0]);
      var rest := t[..j] + t[j + 1..];
      RemoveFirstMatching(s, t, j);
      ProjectPermutation(key, s[1..], rest);
      ProjectRemoveAt(key, t, j);
    }
  }

  /** Taking the same element out of two permutations of each other leaves permutations of each other. */
  lemma RemoveFirstMatching<T>(s: seq<T>, t: seq<T>, j: nat)
    requires multiset(s) == multiset(t) && s != [] && j < |t| && t[j] == s[0]
    ensures multiset(s[1..]) == multiset(t[..j] + t[j + 1..])
  {
    RemoveAt(t, j);
    assert s == [s[0]] + s[1..];
    assert multiset(s) == multiset(s[1..]) + multiset{s[0]};
    forall x ensures multiset(s[1..])[x] == multiset(t[..j] + t[j + 1..])[x] {
      assert multiset(s)[x] == multiset(t)[x];
    }
  }
}
