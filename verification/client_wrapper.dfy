/**
 * The client wrapper: reserved-keyword aliasing, the builders for the
 * store's update expression and attribute-value bindings, and the
 * per-object state (table name, key, accumulated alias table) that the
 * facade's operations read.
 */
module ClientWrapper {

  import opened PhpArray
  import opened Values

  /** The two ways an operation fails: the helper's own `InvalidArgumentException`, or a PHP runtime error. */
  datatype Error = InvalidArgument(message: string) | RuntimeFault(message: string)

  datatype Result<T> = Ok(value: T) | Err(error: Error)

  datatype Outcome = Pass | Fail(error: Error)

  /** The message `throwMeBro` uses when it is given none. */
  const DefaultMessage: string := "Check for missing table name or mismatch of columns/values"

  const TableNameMessage: string := "Please set Table Name using setTableName(tableName) method."

  /**
   * The type error PHP 8 raises when `getKey` would return the unset key;
   * the message names the declaring class with its namespace.
   */
  const KeyUnsetMessage: string := "PDA\\DynamoDbClientWrapper::getKey(): Return value must be of type array, null returned"

  /** Attribute names that collide with the store's expression vocabulary. */
  const ReservedKeywords: seq<string> := ["name", "status"]

  /**
   * Whether a name must be aliased. The source tests membership with PHP's
   * loose `in_array`; the entries are non-numeric strings, so for a string
   * argument the loose test is exact string equality.
   */
  function IsReservedKeyword(keyword: string): (reserved: bool)
    ensures reserved <==> keyword == "name" || keyword == "status"
  {
    keyword in ReservedKeywords
  }

  /**
   * The token `_renameReservedKeywords` returns: `:column` for a value
   * placeholder, `#column` for a reserved attribute name, the name itself
   * otherwise. The source computes an alias that may stay "" and falls back
   * to the column when the alias is PHP-empty.
   */
  function Alias(column: string, isExpressionAttributeValue: bool): (token: string)
    ensures isExpressionAttributeValue ==> token == ":" + column
    ensures !isExpressionAttributeValue && IsReservedKeyword(column) ==> token == "#" + column
    ensures !isExpressionAttributeValue && !IsReservedKeyword(column) ==> token == column
  {
    var alias :=
      if IsReservedKeyword(column) && !isExpressionAttributeValue then "#" + column
      else if isExpressionAttributeValue then ":" + column
      else "";
    assert alias != "" ==> alias[0] == '#' || alias[0] == ':';
    if IsEmpty(alias) then column else alias
  }

  /** An alias table as `_renameReservedKeywords` fills it: `#k -> k` for reserved names `k` only. */
  ghost predicate AliasTable(names: map<string, string>)
  {
    forall token | token in names :: IsReservedKeyword(names[token]) && token == "#" + names[token]
  }

  /** Every path with `k` put in front. */
  function Prefixed(k: string, paths: seq<seq<string>>): (r: seq<seq<string>>)
    ensures |r| == |paths|
    ensures forall j :: 0 <= j < |paths| ==> r[j] == [k] + paths[j]
  {
    seq(|paths|, j requires 0 <= j < |paths| => [k] + paths[j])
  }

  /**
   * The key paths of the leaves below the entries of `t` from position `i`
   * on, in the depth-first pre-order in which PHP's recursive array iterator
   * (leaves only) visits them.
   */
  function LeafPathsFrom(t: Tree, i: nat): (paths: seq<seq<string>>)
    requires t.Node?
    ensures forall p :: p in paths ==> |p| > 0
    decreases t, |t.entries| - i
  {
    if i >= |t.entries| then []
    else EntryPaths(t.entries[i].0, t.entries[i].1) + LeafPathsFrom(t, i + 1)
  }

  /** The key paths of the leaves of one entry: its own key for a scalar, the prefixed paths below a nested array (none for an empty one). */
  function EntryPaths(k: string, child: Tree): (paths: seq<seq<string>>)
    ensures forall p :: p in paths ==> |p| > 0
    decreases child
  {
    match child
    case Leaf(_) => [[k]]
    case Node(_) => Prefixed(k, LeafPathsFrom(child, 0))
  }

  /** The key paths of all leaves of an update payload, in visiting order. */
  function LeafPaths(data: seq<(string, Tree)>): (paths: seq<seq<string>>)
    ensures forall p :: p in paths ==> |p| > 0
  {
    LeafPathsFrom(Node(data), 0)
  }

  /**
   * One `<lhs> = :<placeholder>` clause of the update expression for the leaf
   * at `path`: a nested path is written dotted and never aliased, a top-level
   * name goes through the reserved-keyword aliasing; the placeholder is always
   * the last key.
   */
  function Clause(path: seq<string>): (clause: string)
    requires |path| > 0
    ensures |path| > 1 ==> clause == Implode(".", path) + " = :" + path[|path| - 1]
    ensures |path| == 1 ==> clause == Alias(path[0], false) + " = :" + path[0]
  {
    var keys := Implode(".", path);
    (if |path| > 1 then keys else Alias(keys, false)) + " = :" + path[|path| - 1]
  }

  function Clauses(paths: seq<seq<string>>): (clauses: seq<string>)
    requires forall p :: p in paths ==> |p| > 0
    ensures |clauses| == |paths|
  {
    seq(|paths|, j requires 0 <= j < |paths| => Clause(paths[j]))
  }

  /** The update expression for a payload: `set ` and one clause per leaf, comma-separated. */
  function UpdateExpression(data: seq<(string, Tree)>): string
  {
    "set " + Implode(", ", Clauses(LeafPaths(data)))
  }

  /** One more leaf adds a separator (after the first) and its clause. */
  lemma ExpressionStep(paths: seq<seq<string>>, n: nat)
    requires n < |paths| && forall p :: p in paths ==> |p| > 0
    ensures "set " + Implode(", ", Clauses(paths[..n + 1]))
         == "set " + Implode(", ", Clauses(paths[..n])) + (if n > 0 then ", " else "") + Clause(paths[n])
  {
    assert paths[..n + 1] == paths[..n] + [paths[n]];
    var done := Clauses(paths[..n]);
    assert Clauses(paths[..n + 1]) == done + [Clause(paths[n])];
    if n > 0 {
      ImplodeSnoc(", ", done, Clause(paths[n]));
    }
  }

  /** The entries the update-expression builder adds to the alias table for the given leaf paths. */
  function AliasesFor(paths: seq<seq<string>>): (names: map<string, string>)
    ensures AliasTable(names)
  {
    if paths == [] then map[]
    else
      var p := paths[|paths| - 1];
      var earlier := AliasesFor(paths[..|paths| - 1]);
      if |p| == 1 && IsReservedKeyword(p[0]) then earlier["#" + p[0] := p[0]] else earlier
  }

  /** Distinct payload keys give distinct placeholders. */
  lemma ValueBindingsDistinct(data: seq<(string, Tree)>)
    requires DistinctKeys(data)
    ensures DistinctKeys(ValueBindings(data))
  {
    var values := ValueBindings(data);
    forall i, j | 0 <= i < j < |values| ensures Keys(values)[i] != Keys(values)[j] {
      assert Keys(data)[i] != Keys(data)[j];
      assert (":" + data[i].0)[1..] == data[i].0 && (":" + data[j].0)[1..] == data[j].0;
    }
  }

  /** Binding one more entry of a payload without repeated keys appends it. */
  lemma ValueBindingsStep(data: seq<(string, Tree)>, i: nat)
    requires DistinctKeys(data) && i < |data|
    ensures ValueBindings(data[..i + 1]) == Put(ValueBindings(data[..i]), ":" + data[i].0, data[i].1)
  {
    var values := ValueBindings(data[..i]);
    var token := ":" + data[i].0;
    forall j | 0 <= j < i ensures Keys(values)[j] != token {
      assert Keys(data)[j] != Keys(data)[i];
      assert (":" + data[j].0)[1..] == data[j].0 && token[1..] == data[i].0;
    }
    assert token !in Keys(values);
    assert ValueBindings(data[..i + 1]) == values + [(token, data[i].1)];
  }

  /** One more leaf adds its alias when it is a reserved top-level name. */
  lemma AliasesStep(paths: seq<seq<string>>, n: nat)
    requires n < |paths|
    ensures AliasesFor(paths[..n + 1]) ==
      if |paths[n]| == 1 && IsReservedKeyword(paths[n][0])
      then AliasesFor(paths[..n])["#" + paths[n][0] := paths[n][0]]
      else AliasesFor(paths[..n])
  {
    assert paths[..n + 1][..n] == paths[..n];
  }

  /** Adding an entry to the right operand of a map union adds it to the union. */
  lemma UnionUpdate(a: map<string, string>, b: map<string, string>, k: string, v: string)
    ensures a + b[k := v] == (a + b)[k := v]
  {
  }

  /** The `:key -> value` bindings for a payload's top-level entries, in order. */
  function ValueBindings(data: seq<(string, Tree)>): (values: seq<(string, Tree)>)
    ensures |values| == |data|
    ensures forall i :: 0 <= i < |data| ==> values[i] == (":" + data[i].0, data[i].1)
  {
    seq(|data|, i requires 0 <= i < |data| => (Alias(data[i].0, true), data[i].1))
  }

  /**
   * The wrapper's per-object state. The table name is "" until set (PHP's
   * unset property and "" behave alike under `empty`), the key is absent
   * until set, and the alias table starts empty and is never cleared.
   */
  class Wrapper {
    var tableName: string
    var key: Option<Record>
    var expressionAttributeNames: map<string, string>

    ghost predicate Valid()
      reads this
    {
      AliasTable(expressionAttributeNames)
    }

    constructor ()
      ensures Valid()
      ensures tableName == "" && key == None && expressionAttributeNames == map[]
    {
      tableName := "";
      key := None;
      expressionAttributeNames := map[];
    }

    method SetTableName(name: string)
      modifies this`tableName
      ensures tableName == name
    {
      tableName := name;
    }

    /** The table name last set; fails when it is PHP-empty ("" or "0"). */
    function GetTableName(): (r: Result<string>)
      reads this
      ensures r.Ok? <==> !IsEmpty(tableName)
      ensures r.Ok? ==> r.value == tableName
      ensures r.Err? ==> r.error == InvalidArgument(TableNameMessage)
    {
      if IsEmpty(tableName) then Err(InvalidArgument(TableNameMessage)) else Ok(tableName)
    }

    method SetKey(newKey: Record)
      modifies this`key
      ensures key == Some(newKey)
    {
      key := Some(newKey);
    }

    /** The key last set; reading it before any `setKey` is a PHP type error. */
    function GetKey(): (r: Result<Record>)
      reads this
      ensures r.Ok? <==> key.Some?
      ensures r.Ok? ==> r.value == key.value
      ensures r.Err? ==> r.error == RuntimeFault(KeyUnsetMessage)
    {
      match key
      case Some(k) => Ok(k)
      case None => Err(RuntimeFault(KeyUnsetMessage))
    }

    /**
     * `_renameReservedKeywords`: returns the token for `column` and, for a
     * reserved attribute name, records `#column -> column`.
     */
    method RenameReservedKeywords(column: string, isExpressionAttributeValue: bool) returns (alias: string)
      requires Valid()
      modifies this`expressionAttributeNames
      ensures Valid()
      ensures alias == Alias(column, isExpressionAttributeValue)
      ensures expressionAttributeNames ==
        if IsReservedKeyword(column) && !isExpressionAttributeValue
        then old(expressionAttributeNames)["#" + column := column]
        else old(expressionAttributeNames)
    {
      alias := "";
      if IsReservedKeyword(column) && !isExpressionAttributeValue {
        alias := "#" + column;
        expressionAttributeNames := expressionAttributeNames[alias := column];
      } else if isExpressionAttributeValue {
        alias := ":" + column;
      }
      if IsEmpty(alias) {
        alias := column;
      }
    }

    /**
     * `prepareExpressionAttributeValuesArray`: binds `:key` to each top-level
     * value, nested arrays included, in input order. Value placeholders never
     * touch the alias table, so the token is computed without it.
     */
    method PrepareExpressionAttributeValuesArray(data: seq<(string, Tree)>) returns (values: seq<(string, Tree)>)
      requires DistinctKeys(data)
      ensures values == ValueBindings(data)
      ensures DistinctKeys(values)
    {
      values := [];
      for i := 0 to |data|
        invariant values == ValueBindings(data[..i])
      {
        var (k, v) := data[i];
        ValueBindingsStep(data, i);
        values := Put(values, Alias(k, true), v);
      }
      assert data[..|data|] == data;
      ValueBindingsDistinct(data);
    }

    /**
     * `prepareUpdateExpressionString`: one clause per leaf in visiting order,
     * separated by ", " after the literal "set "; top-level names are aliased
     * through `RenameReservedKeywords`, which records them in the alias table.
     */
    method PrepareUpdateExpressionString(data: seq<(string, Tree)>) returns (expression: string)
      requires Valid()
      modifies this`expressionAttributeNames
      ensures Valid()
      ensures expression == UpdateExpression(data)
      ensures expressionAttributeNames == old(expressionAttributeNames) + AliasesFor(LeafPaths(data))
    {
      expression := "set ";
      var iterationCount := 0;
      var leaves := LeafPaths(data);
      for n := 0 to |leaves|
        invariant Valid()
        invariant iterationCount == n
        invariant expression == "set " + Implode(", ", Clauses(leaves[..n]))
        invariant expressionAttributeNames == old(expressionAttributeNames) + AliasesFor(leaves[..n])
      {
        var keys := leaves[n];
        assert keys in leaves;
        ExpressionStep(leaves, n);
        AliasesStep(leaves, n);
        var separator := if iterationCount > 0 then ", " else "";
        var lhs;
        if |keys| > 1 {
          lhs := Implode(".", keys);
        } else {
          lhs := RenameReservedKeywords(Implode(".", keys), false);
        }
        var clause := lhs + " = :" + keys[|keys| - 1];
        expression := expression + separator + clause;
        iterationCount := iterationCount + 1;
        if |keys| == 1 && IsReservedKeyword(keys[0]) {
          UnionUpdate(old(expressionAttributeNames), AliasesFor(leaves[..n]), "#" + keys[0], keys[0]);
        }
      }
      assert leaves[..|leaves|] == leaves;
    }
  }
}
