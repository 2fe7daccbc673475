/**
 * What the update-expression builder promises about a payload: one clause
 * per leaf, in depth-first order, nothing for empty nested arrays, aliases
 * only for reserved top-level names, and placeholders that line up with the
 * value bindings when the payload is flat.
 */
module UpdateFacts {

  import opened PhpArray
  import opened Values
  import opened ClientWrapper

  /** The part of a payload reached by following `path`, if there is one. */
  function Descend(t: Tree, path: seq<string>): Option<Tree>
    decreases |path|
  {
    if path == [] then Some(t)
    else match t
      case Leaf(_) => None
      case Node(entries) =>
        match Lookup(entries, path[0])
        case None => None
        case Some(child) => Descend(child, path[1..])
  }

  /** `path` leads from the top of the payload to a scalar value. */
  predicate IsLeafPath(data: seq<(string, Tree)>, path: seq<string>)
  {
    path != [] && Descend(Node(data), path).Some? && Descend(Node(data), path).value.Leaf?
  }

  /** The placeholders the update expression's clauses reference, in order. */
  function Placeholders(paths: seq<seq<string>>): (tokens: seq<string>)
    requires forall p :: p in paths ==> |p| > 0
    ensures |tokens| == |paths|
  {
    seq(|paths|, j requires 0 <= j < |paths| => ":" + paths[j][|paths[j]| - 1])
  }

  /** A payload whose every top-level value is a scalar. */
  predicate Flat(data: seq<(string, Tree)>)
  {
    forall i :: 0 <= i < |data| ==> data[i].1.Leaf?
  }

  // ---------------------------------------------------------------------------
  // The leaf paths are exactly the payload's leaves

  /** `t` holds a scalar at the end of `path`. */
  predicate LeafAt(t: Tree, path: seq<string>)
  {
    Descend(t, path).Some? && Descend(t, path).value.Leaf?
  }

  lemma PrefixedMember(k: string, paths: seq<seq<string>>, p: seq<string>)
    ensures p in Prefixed(k, paths) <==> p != [] && p[0] == k && p[1..] in paths
  {
    var r := Prefixed(k, paths);
    if p in r {
      var j :| 0 <= j < |r| && r[j] == p;
      assert p[1..] == paths[j];
    }
    if p != [] && p[0] == k && p[1..] in paths {
      var j := IndexOf(paths, p[1..]);
      assert r[j] == p;
    }
  }

  lemma {:induction false} LeafPathsFromSound(t: Tree, i: nat, p: seq<string>)
    requires t.Node? && WellFormedTree(t)
    requires p in LeafPathsFrom(t, i)
    ensures p != [] && LeafAt(t, p)
    decreases t, |t.entries| - i
  {
    var (k, child) := t.entries[i];
    if p in EntryPaths(k, child) {
      LookupAt(t.entries, i);
      if child.Node? {
        PrefixedMember(k, LeafPathsFrom(child, 0), p);
        LeafPathsFromSound(child, 0, p[1..]);
      }
    } else {
      LeafPathsFromSound(t, i + 1, p);
    }
  }

  /** A leaf below the entry at `m` is among the paths from any earlier position on. */
  lemma {:induction false} LeafPathsFromComplete(t: Tree, i: nat, m: nat, p: seq<string>)
    requires t.Node? && i <= m < |t.entries|
    requires p != [] && p[0] == t.entries[m].0 && LeafAt(t.entries[m].1, p[1..])
    ensures p in LeafPathsFrom(t, i)
    decreases t, m - i
  {
    if i < m {
      LeafPathsFromComplete(t, i + 1, m, p);
      LeafPathsFromLater(t, i, p);
    } else {
      EntryPathsComplete(t.entries[m].0, t.entries[m].1, p);
      LeafPathsFromHere(t, i, p);
    }
  }

  lemma LeafPathsFromUnfold(t: Tree, i: nat)
    requires t.Node? && i < |t.entries|
    ensures LeafPathsFrom(t, i) == EntryPaths(t.entries[i].0, t.entries[i].1) + LeafPathsFrom(t, i + 1)
  {
  }

  lemma LeafPathsFromLater(t: Tree, i: nat, p: seq<string>)
    requires t.Node? && i < |t.entries| && p in LeafPathsFrom(t, i + 1)
    ensures p in LeafPathsFrom(t, i)
  {
  }

  lemma LeafPathsFromHere(t: Tree, i: nat, p: seq<string>)
    requires t.Node? && i < |t.entries| && p in EntryPaths(t.entries[i].0, t.entries[i].1)
    ensures p in LeafPathsFrom(t, i)
  {
  }

  /** A path that leads to a leaf goes on from the first entry under its first key. */
  lemma DescendFirst(t: Tree, p: seq<string>)
    requires t.Node? && p != [] && LeafAt(t, p)
    ensures p[0] in Keys(t.entries)
    ensures var m := IndexOf(Keys(t.entries), p[0]); t.entries[m].0 == p[0] && LeafAt(t.entries[m].1, p[1..])
  {
    assert Lookup(t.entries, p[0]).Some?;
    LookupIndexOf(t.entries, p[0]);
  }

  /** A leaf below the entry `k => child` is among that entry's paths. */
  lemma {:induction false} EntryPathsComplete(k: string, child: Tree, p: seq<string>)
    requires p != [] && p[0] == k && LeafAt(child, p[1..])
    ensures p in EntryPaths(k, child)
    decreases child
  {
    var q := p[1..];
    if child.Leaf? {
      assert q == [];
      assert p == [k];
    } else {
      assert q != [];
      DescendFirst(child, q);
      LeafPathsFromComplete(child, 0, IndexOf(Keys(child.entries), q[0]), q);
      PrefixedMember(k, LeafPathsFrom(child, 0), p);
    }
  }

  /**
   * The builder visits exactly the leaves: a path gets a clause if and only
   * if it leads to a scalar value of the payload.
   */
  lemma LeafPathsExact(data: seq<(string, Tree)>, p: seq<string>)
    requires WellFormed(data)
    ensures p in LeafPaths(data) <==> IsLeafPath(data, p)
  {
    if p in LeafPaths(data) {
      LeafPathsFromSound(Node(data), 0, p);
    }
    if IsLeafPath(data, p) {
      DescendFirst(Node(data), p);
      LeafPathsFromComplete(Node(data), 0, IndexOf(Keys(data), p[0]), p);
    }
  }

  // ---------------------------------------------------------------------------
  // No leaf is visited twice

  lemma DistinctConcat<T>(a: seq<T>, b: seq<T>)
    requires Distinct(a) && Distinct(b)
    requires forall x :: x in a ==> x !in b
    ensures Distinct(a + b)
  {
    forall i, j | 0 <= i < j < |a + b| ensures (a + b)[i] != (a + b)[j] {
      if i < |a| && j >= |a| {
        assert (a + b)[i] in a && (a + b)[j] in b;
      }
    }
  }

  lemma DistinctPrefixed(k: string, paths: seq<seq<string>>)
    requires Distinct(paths)
    ensures Distinct(Prefixed(k, paths))
  {
    var r := Prefixed(k, paths);
    forall i, j | 0 <= i < j < |r| ensures r[i] != r[j] {
      assert r[i][1..] == paths[i] && r[j][1..] == paths[j];
    }
  }

  /** Every path from position `i` on starts with the key of an entry at or after `i`. */
  lemma {:induction false} LeafPathsFromHeads(t: Tree, i: nat, p: seq<string>)
    requires t.Node? && p in LeafPathsFrom(t, i)
    ensures i < |t.entries| && p[0] in Keys(t.entries)[i..]
    decreases |t.entries| - i
  {
    var (k, child) := t.entries[i];
    assert Keys(t.entries)[i..] == [k] + Keys(t.entries)[i + 1..];
    if p in EntryPaths(k, child) {
      if child.Node? {
        PrefixedMember(k, LeafPathsFrom(child, 0), p);
      }
    } else {
      LeafPathsFromHeads(t, i + 1, p);
    }
  }

  lemma {:induction false} LeafPathsFromDistinct(t: Tree, i: nat)
    requires t.Node? && WellFormedTree(t)
    ensures Distinct(LeafPathsFrom(t, i))
    decreases t, |t.entries| - i
  {
    if i < |t.entries| {
      var (k, child) := t.entries[i];
      var here := EntryPaths(k, child);
      var rest := LeafPathsFrom(t, i + 1);
      if child.Node? {
        LeafPathsFromDistinct(child, 0);
        DistinctPrefixed(k, LeafPathsFrom(child, 0));
      }
      LeafPathsFromDistinct(t, i + 1);
      forall p | p in here ensures p !in rest {
        if child.Node? {
          PrefixedMember(k, LeafPathsFrom(child, 0), p);
        }
        if p in rest {
          LeafPathsFromHeads(t, i + 1, p);
        }
      }
      DistinctConcat(here, rest);
    }
  }

  /** Each leaf of a well-formed payload gets exactly one clause. */
  lemma LeafPathsDistinct(data: seq<(string, Tree)>)
    requires WellFormed(data)
    ensures Distinct(LeafPaths(data))
  {
    LeafPathsFromDistinct(Node(data), 0);
  }

  // ---------------------------------------------------------------------------
  // Shape of the expression

  /**
   * The expression always opens with "set ", and it is exactly "set " (the
   * store rejects it) when the payload has no leaf at all.
   */
  lemma UpdateExpressionShape(data: seq<(string, Tree)>)
    ensures "set " <= UpdateExpression(data)
    ensures UpdateExpression(data) == "set " <==> LeafPaths(data) == []
  {
    var clauses := Clauses(LeafPaths(data));
    if LeafPaths(data) != [] {
      var p := LeafPaths(data)[0];
      assert p in LeafPaths(data);
      assert |clauses[0]| > 0;
      ImplodeStartsWithFirst(", ", clauses);
      assert |Implode(", ", clauses)| > 0;
    }
  }

  // ---------------------------------------------------------------------------
  // Empty nested arrays contribute nothing

  lemma {:induction false} LeafPathsFromShift(a: seq<(string, Tree)>, b: seq<(string, Tree)>, j: nat)
    ensures LeafPathsFrom(Node(a + b), |a| + j) == LeafPathsFrom(Node(b), j)
    decreases |b| - j
  {
    if j < |b| {
      assert (a + b)[|a| + j] == b[j];
      LeafPathsFromShift(a, b, j + 1);
    }
  }

  lemma {:induction false} LeafPathsFromAppend(a: seq<(string, Tree)>, b: seq<(string, Tree)>, i: nat)
    requires i <= |a|
    ensures LeafPathsFrom(Node(a + b), i) == LeafPathsFrom(Node(a), i) + LeafPaths(b)
    decreases |a| - i
  {
    if i == |a| {
      LeafPathsFromShift(a, b, 0);
    } else {
      assert (a + b)[i] == a[i];
      LeafPathsFromAppend(a, b, i + 1);
      LeafPathsFromUnfold(Node(a + b), i);
      LeafPathsFromUnfold(Node(a), i);
    }
  }

  /** The leaves of two payloads put side by side are the leaves of each, in order. */
  lemma LeafPathsAppend(a: seq<(string, Tree)>, b: seq<(string, Tree)>)
    ensures LeafPaths(a + b) == LeafPaths(a) + LeafPaths(b)
  {
    LeafPathsFromAppend(a, b, 0);
  }

  /** An entry whose value is an empty array, put among the top-level entries, adds no leaf. */
  lemma EmptyEntryAddsNoLeaf(data: seq<(string, Tree)>, i: nat, k: string)
    requires i <= |data|
    ensures LeafPaths(data[..i] + [(k, Node([]))] + data[i..]) == LeafPaths(data)
  {
    var empty := [(k, Node([]))];
    LeafPathsAppend(data[..i] + empty, data[i..]);
    LeafPathsAppend(data[..i], empty);
    LeafPathsAppend(data[..i], data[i..]);
    assert LeafPathsFrom(Node([]), 0) == [];
    assert EntryPaths(k, Node([])) == [];
    assert LeafPathsFrom(Node(empty), 1) == [];
    assert data[..i] + data[i..] == data;
  }

  /**
   * Replacing the nested array under one entry by another array with the
   * same leaves keeps the leaves of the whole payload.
   */
  lemma LeafPathsReplace(data: seq<(string, Tree)>, j: nat, entries: seq<(string, Tree)>)
    requires j < |data| && data[j].1.Node?
    requires LeafPaths(entries) == LeafPaths(data[j].1.entries)
    ensures LeafPaths(data[j := (data[j].0, Node(entries))]) == LeafPaths(data)
  {
    var k := data[j].0;
    var replaced := data[j := (k, Node(entries))];
    assert data == data[..j] + [data[j]] + data[j + 1..];
    assert replaced == data[..j] + [(k, Node(entries))] + data[j + 1..];
    LeafPathsAppend(data[..j] + [data[j]], data[j + 1..]);
    LeafPathsAppend(data[..j], [data[j]]);
    LeafPathsAppend(data[..j] + [(k, Node(entries))], data[j + 1..]);
    LeafPathsAppend(data[..j], [(k, Node(entries))]);
    LeafPathsFromUnfold(Node([data[j]]), 0);
    LeafPathsFromUnfold(Node([(k, Node(entries))]), 0);
    assert data[j].1 == Node(data[j].1.entries);
  }

  /**
   * The payload `data` with the entry `(k, [])` put at position `i` of the
   * nested array reached along the key path `at` (the top level when `at` is
   * empty). A path that leads to no array, or a position past its end,
   * leaves the payload as it is.
   */
  function InsertEmptyAt(data: seq<(string, Tree)>, at: seq<string>, i: nat, k: string): seq<(string, Tree)>
    decreases |at|
  {
    if at == [] then
      if i <= |data| then data[..i] + [(k, Node([]))] + data[i..] else data
    else if at[0] in Keys(data) && data[IndexOf(Keys(data), at[0])].1.Node? then
      var j := IndexOf(Keys(data), at[0]);
      data[j := (at[0], Node(InsertEmptyAt(data[j].1.entries, at[1..], i, k)))]
    else data
  }

  /**
   * An entry whose value is an empty array adds no clause and no alias,
   * wherever it sits in the payload, at any depth.
   */
  lemma {:induction false} EmptyArrayAddsNoClause(data: seq<(string, Tree)>, at: seq<string>, i: nat, k: string)
    ensures LeafPaths(InsertEmptyAt(data, at, i, k)) == LeafPaths(data)
    ensures UpdateExpression(InsertEmptyAt(data, at, i, k)) == UpdateExpression(data)
    ensures AliasesFor(LeafPaths(InsertEmptyAt(data, at, i, k))) == AliasesFor(LeafPaths(data))
    decreases |at|
  {
    if at == [] {
      if i <= |data| {
        EmptyEntryAddsNoLeaf(data, i, k);
      }
    } else if at[0] in Keys(data) && data[IndexOf(Keys(data), at[0])].1.Node? {
      var j := IndexOf(Keys(data), at[0]);
      EmptyArrayAddsNoClause(data[j].1.entries, at[1..], i, k);
      LeafPathsReplace(data, j, InsertEmptyAt(data[j].1.entries, at[1..], i, k));
    }
  }

  /** The nested case spelled out: `{a: {b: 1}}` and `{a: {b: 1, c: []}}` give the same update. */
  lemma EmptyArrayNestedExample()
    ensures var data := [("a", Node([("b", Leaf(Int(1)))]))];
      && InsertEmptyAt(data, ["a"], 1, "c") == [("a", Node([("b", Leaf(Int(1))), ("c", Node([]))]))]
      && UpdateExpression(InsertEmptyAt(data, ["a"], 1, "c")) == UpdateExpression(data)
  {
    var inner := [("b", Leaf(Int(1)))];
    var data := [("a", Node(inner))];
    assert Keys(data) == ["a"];
    assert IndexOf(Keys(data), "a") == 0;
    assert ["a"][1..] == [];
    assert data[0].1.Node? && data[0].1.entries == inner;
    assert InsertEmptyAt(data, ["a"], 1, "c") == data[0 := ("a", Node(InsertEmptyAt(inner, [], 1, "c")))];
    assert InsertEmptyAt(inner, [], 1, "c") == inner + [("c", Node([]))] by {
      assert inner[..1] == inner && inner[1..] == [];
    }
    var padded := inner + [("c", Node([]))];
    assert padded == [("b", Leaf(Int(1))), ("c", Node([]))];
    assert data[0 := ("a", Node(padded))] == [("a", Node(padded))];
    EmptyArrayAddsNoClause(data, ["a"], 1, "c");
  }

  // ---------------------------------------------------------------------------
  // Aliases

  lemma {:induction false} AliasesForExact(paths: seq<seq<string>>, c: string)
    ensures "#" + c in AliasesFor(paths) <==> IsReservedKeyword(c) && [c] in paths
  {
    if paths != [] {
      var init := paths[..|paths| - 1];
      var p := paths[|paths| - 1];
      AliasesForExact(init, c);
      assert paths == init + [p];
      if |p| == 1 {
        assert ("#" + p[0] == "#" + c) <==> p[0] == c by {
          assert ("#" + p[0])[1..] == p[0] && ("#" + c)[1..] == c;
        }
        assert p == [p[0]];
      }
    }
  }

  /**
   * The update adds `#c -> c` to the alias table exactly for the reserved
   * names `c` that are top-level keys holding a scalar; a reserved name whose
   * value is a nested array is written unaliased.
   */
  lemma UpdateAliasesExact(data: seq<(string, Tree)>, c: string)
    requires WellFormed(data)
    ensures "#" + c in AliasesFor(LeafPaths(data)) <==>
      IsReservedKeyword(c) && Lookup(data, c).Some? && Lookup(data, c).value.Leaf?
    ensures "#" + c in AliasesFor(LeafPaths(data)) ==> AliasesFor(LeafPaths(data))["#" + c] == c
  {
    AliasesForExact(LeafPaths(data), c);
    LeafPathsExact(data, [c]);
    assert Descend(Node(data), [c]) == (if Lookup(data, c).Some? then Descend(Lookup(data, c).value, []) else None);
  }

  // ---------------------------------------------------------------------------
  // Placeholders and value bindings

  lemma {:induction false} FlatLeafPathsFrom(data: seq<(string, Tree)>, i: nat)
    requires Flat(data) && i <= |data|
    ensures LeafPathsFrom(Node(data), i) == seq(|data| - i, j requires 0 <= j < |data| - i => [data[i + j].0])
    decreases |data| - i
  {
    if i < |data| {
      FlatLeafPathsFrom(data, i + 1);
    }
  }

  /**
   * For a flat payload, the placeholders the expression references are,
   * in order, exactly the tokens the values builder binds.
   */
  lemma FlatPlaceholdersBound(data: seq<(string, Tree)>)
    requires Flat(data)
    ensures Placeholders(LeafPaths(data)) == Keys(ValueBindings(data))
  {
    FlatLeafPathsFrom(data, 0);
  }

  /**
   * For a nested payload the values builder binds the top-level name while
   * the clause references the last segment: `{profile: {age: 30}}` yields
   * "set profile.age = :age" with only `:profile` bound.
   */
  lemma NestedPlaceholderUnbound()
    ensures var data := [("profile", Node([("age", Leaf(Int(30)))]))];
      && UpdateExpression(data) == "set profile.age = :age"
      && Placeholders(LeafPaths(data)) == [":age"]
      && Keys(ValueBindings(data)) == [":profile"]
  {
    var data := [("profile", Node([("age", Leaf(Int(30)))]))];
    NestedPaths();
    NestedExpression();
    var tokens := Placeholders(LeafPaths(data));
    assert |tokens| == 1 && tokens[0] == ":" + "age";
    NestedTexts();
    var keys := Keys(ValueBindings(data));
    assert |keys| == 1 && keys[0] == ":" + "profile";
  }

  lemma NestedPaths()
    ensures LeafPaths([("profile", Node([("age", Leaf(Int(30)))]))]) == [["profile", "age"]]
  {
    var data := [("profile", Node([("age", Leaf(Int(30)))]))];
    var inner := Node([("age", Leaf(Int(30)))]);
    assert LeafPathsFrom(inner, 1) == [];
    assert LeafPathsFrom(inner, 0) == [["age"]];
    assert ["profile"] + ["age"] == ["profile", "age"];
    assert Prefixed("profile", [["age"]]) == [["profile", "age"]];
    assert LeafPathsFrom(Node(data), 1) == [];
  }

  lemma NestedExpression()
    ensures UpdateExpression([("profile", Node([("age", Leaf(Int(30)))]))]) == "set profile.age = :age"
  {
    var path := ["profile", "age"];
    NestedPaths();
    assert path[..1] == ["profile"];
    ImplodeSnoc(".", ["profile"], "age");
    assert Clause(path) == "profile" + "." + "age" + " = :" + "age";
    assert Clauses([path]) == [Clause(path)];
    NestedTexts();
  }

  lemma NestedTexts()
    ensures "set " + ("profile" + "." + "age" + " = :" + "age") == "set profile.age = :age"
    ensures ":" + "age" == ":age" && ":" + "profile" == ":profile"
  {
  }

  /** The leaf paths of the payload `{status: 5, test: "value5"}`. */
  lemma StatusAndTestPaths()
    ensures LeafPaths([("status", Leaf(Int(5))), ("test", Leaf(Str("value5")))]) == [["status"], ["test"]]
  {
    var data := [("status", Leaf(Int(5))), ("test", Leaf(Str("value5")))];
    assert LeafPathsFrom(Node(data), 2) == [];
    assert LeafPathsFrom(Node(data), 1) == [["test"]];
  }

  lemma StatusAndTestClauses()
    ensures Clauses([["status"], ["test"]]) == ["#status = :status", "test = :test"]
  {
    assert IsReservedKeyword("status") && !IsReservedKeyword("test");
    StatusAndTestPieces();
    assert Clause(["status"]) == "#status = :status";
    assert Clause(["test"]) == "test = :test";
  }

  lemma StatusAndTestPieces()
    ensures "#" + "status" + " = :" + "status" == "#status = :status"
    ensures "test" + " = :" + "test" == "test = :test"
    ensures ":" + "status" == ":status" && ":" + "test" == ":test"
  {
  }

  lemma StatusAndTestExpression()
    ensures UpdateExpression([("status", Leaf(Int(5))), ("test", Leaf(Str("value5")))])
      == "set #status = :status, test = :test"
  {
    var data := [("status", Leaf(Int(5))), ("test", Leaf(Str("value5")))];
    var first := "#status = :status";
    var second := "test = :test";
    StatusAndTestPaths();
    StatusAndTestClauses();
    assert Clauses(LeafPaths(data)) == [first] + [second];
    ImplodeSnoc(", ", [first], second);
    StatusAndTestText();
  }

  lemma StatusAndTestText()
    ensures "set " + ("#status = :status" + ", " + "test = :test") == "set #status = :status, test = :test"
  {
  }

  lemma StatusAndTestAliases()
    ensures AliasesFor(LeafPaths([("status", Leaf(Int(5))), ("test", Leaf(Str("value5")))]))
      == map["#status" := "status"]
  {
    StatusAndTestPaths();
    var paths := [["status"], ["test"]];
    assert paths[..1] == [["status"]];
    assert paths[..1][..0] == [];
    assert IsReservedKeyword("status") && !IsReservedKeyword("test");
    assert AliasesFor(paths) == AliasesFor(paths[..1]);
    assert "#" + "status" == "#status";
  }

  /**
   * The update issued by the facade's own test: with `status` reserved, the
   * payload `{status: 5, test: "value5"}` gives the expression, alias table
   * and bindings below.
   */
  lemma StatusAndTestExample()
    ensures var data := [("status", Leaf(Int(5))), ("test", Leaf(Str("value5")))];
      && UpdateExpression(data) == "set #status = :status, test = :test"
      && AliasesFor(LeafPaths(data)) == map["#status" := "status"]
      && ValueBindings(data) == [(":status", Leaf(Int(5))), (":test", Leaf(Str("value5")))]
  {
    var data := [("status", Leaf(Int(5))), ("test", Leaf(Str("value5")))];
    StatusAndTestExpression();
    StatusAndTestAliases();
    var values := ValueBindings(data);
    StatusAndTestPieces();
    assert values[0] == (":status", Leaf(Int(5))) && values[1] == (":test", Leaf(Str("value5")));
  }
}
