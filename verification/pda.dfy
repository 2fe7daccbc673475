/**
 * The facade: `insert` (one put per row), `update` (one update of the item
 * whose key was set), `select` (one scan, then the result ordering). Each
 * operation is specified by a function of the store's answers and the
 * object's state, and the methods are proved to follow it.
 */
module Pda {

  import opened PhpArray
  import opened Values
  import opened PhpSort
  import opened Store
  import opened ClientWrapper
  import opened UpdateFacts
  import opened ResultOrder

  /** PHP 8's type error for `count(null)`, raised when `insert` gets no rows. */
  const CountNullMessage: string := "count(): Argument #1 ($value) must be of type Countable|array, null given"

  /** PHP 8's value error for `array_combine` on a row of the wrong width. */
  const ArrayCombineMessage: string :=
    "array_combine(): Argument #1 ($keys) and argument #2 ($values) must have the same number of elements"

  /** The return-values option `update` always asks for. */
  const UpdatedNew: string := "UPDATED_NEW"

  /** The requests an operation sent and how it ended. */
  datatype Run = Run(sent: seq<Request>, outcome: Outcome)

  /**
   * What `update` sent, the alias table it leaves, and how it ended. A
   * successful update hands none of the store's answer back: the source
   * returns the JSON of the client library's result object, which encodes
   * as an empty object.
   */
  datatype UpdateRun = UpdateRun(sent: seq<Request>, names: map<string, string>, outcome: Outcome)

  /** What `select` sent and what it returns. */
  datatype SelectRun = SelectRun(sent: seq<Request>, result: Result<seq<Record>>)

  // ---------------------------------------------------------------------------
  // insert

  /**
   * `array_combine($columns, $row)`: each column maps to its value; when a
   * column repeats, its last value wins.
   */
  function Combine(columns: seq<string>, row: seq<Scalar>): map<string, Scalar>
    requires |columns| == |row|
    decreases |columns|
  {
    if columns == [] then map[]
    else
      var n := |columns| - 1;
      Combine(columns[..n], row[..n])[columns[n] := row[n]]
  }

  /** The item holds exactly the columns, each with the value of its last occurrence. */
  lemma {:induction false} CombineSpec(columns: seq<string>, row: seq<Scalar>, i: nat)
    requires |columns| == |row| && i < |columns|
    ensures forall c :: c in Combine(columns, row) <==> c in columns
    ensures (forall j :: i < j < |columns| ==> columns[j] != columns[i]) ==> Combine(columns, row)[columns[i]] == row[i]
    decreases |columns|
  {
    var n := |columns| - 1;
    if n > 0 {
      if i < n {
        CombineSpec(columns[..n], row[..n], i);
      } else {
        CombineSpec(columns[..n], row[..n], 0);
      }
      assert columns == columns[..n] + [columns[n]];
    }
  }

  /** The put for one row. */
  function PutFor(tableName: string, columns: seq<string>, row: seq<Scalar>): Request
    requires |columns| == |row|
  {
    PutItem(tableName, Combine(columns, row))
  }

  /**
   * The loop of `insert` over the rows: each row of the right width is put;
   * a row of the wrong width raises `array_combine`'s error, a rejected put
   * turns the store's message into an invalid-argument error, and either
   * stops the loop with the earlier rows already stored.
   */
  function InsertRows(respond: Request -> Response, tableName: string, columns: seq<string>, rows: seq<seq<Scalar>>): Run
    decreases |rows|
  {
    if rows == [] then Run([], Pass)
    else if |rows[0]| != |columns| then Run([], Fail(RuntimeFault(ArrayCombineMessage)))
    else
      var request := PutFor(tableName, columns, rows[0]);
      match respond(request)
      case StoreFailure(message) => Run([request], Fail(InvalidArgument(message)))
      case Answer(_) =>
        var rest := InsertRows(respond, tableName, columns, rows[1..]);
        Run([request] + rest.sent, rest.outcome)
  }

  /** The run `run` preceded by the requests `sent`. */
  function After(sent: seq<Request>, run: Run): (r: Run)
    ensures |r.sent| == |sent| + |run.sent| && r.sent[..|sent|] == sent && r.sent[|sent|..] == run.sent
    ensures r.outcome == run.outcome
  {
    Run(sent + run.sent, run.outcome)
  }

  /** The loop over the rows, from row `i` on, unfolded once. */
  lemma InsertRowsAt(respond: Request -> Response, tableName: string, columns: seq<string>, rows: seq<seq<Scalar>>, i: nat)
    requires i < |rows|
    ensures InsertRows(respond, tableName, columns, rows[i..]) ==
      if |rows[i]| != |columns| then Run([], Fail(RuntimeFault(ArrayCombineMessage)))
      else
        var request := PutFor(tableName, columns, rows[i]);
        match respond(request)
        case StoreFailure(message) => Run([request], Fail(InvalidArgument(message)))
        case Answer(_) => After([request], InsertRows(respond, tableName, columns, rows[i + 1..]))
  {
    assert rows[i..][1..] == rows[i + 1..];
  }

  /**
   * One step of the loop over the rows: after the requests `done`, row `i`
   * either stops the loop or is put and leaves the rows after it.
   */
  lemma InsertRowsNext(respond: Request -> Response, tableName: string, columns: seq<string>, rows: seq<seq<Scalar>>, done: seq<Request>, i: nat)
    requires i < |rows|
    requires InsertRows(respond, tableName, columns, rows) == After(done, InsertRows(respond, tableName, columns, rows[i..]))
    ensures var run := InsertRows(respond, tableName, columns, rows);
      if |rows[i]| != |columns| then run == Run(done, Fail(RuntimeFault(ArrayCombineMessage)))
      else
        var request := PutFor(tableName, columns, rows[i]);
        match respond(request)
        case StoreFailure(message) => run == Run(done + [request], Fail(InvalidArgument(message)))
        case Answer(_) => run == After(done + [request], InsertRows(respond, tableName, columns, rows[i + 1..]))
  {
    InsertRowsAt(respond, tableName, columns, rows, i);
    if |rows[i]| != |columns| {
      assert done + [] == done;
    } else {
      var request := PutFor(tableName, columns, rows[i]);
      if respond(request).Answer? {
        var rest := InsertRows(respond, tableName, columns, rows[i + 1..]);
        assert done + ([request] + rest.sent) == done + [request] + rest.sent;
      }
    }
  }

  /**
   * `insert`: no columns, or a first row whose width differs from the
   * columns', is rejected with the default message; no rows at all is
   * PHP's `count(null)` error; then the table name is required; then the
   * rows are put one by one. Only the first row's width is checked up front.
   */
  function InsertSpec(respond: Request -> Response, tableName: string, columns: seq<string>, rows: seq<seq<Scalar>>): Run
  {
    if |columns| == 0 then Run([], Fail(InvalidArgument(DefaultMessage)))
    else if rows == [] then Run([], Fail(RuntimeFault(CountNullMessage)))
    else if |columns| != |rows[0]| then Run([], Fail(InvalidArgument(DefaultMessage)))
    else if IsEmpty(tableName) then Run([], Fail(InvalidArgument(TableNameMessage)))
    else InsertRows(respond, tableName, columns, rows)
  }

  /** `sent` is the puts of the first `|sent|` rows, in row order. */
  ghost predicate PutsOfRows(sent: seq<Request>, tableName: string, columns: seq<string>, rows: seq<seq<Scalar>>)
  {
    && |sent| <= |rows|
    && forall j :: 0 <= j < |sent| ==> |rows[j]| == |columns| && sent[j] == PutFor(tableName, columns, rows[j])
  }

  /**
   * The loop sends the puts of a prefix of the rows, every one but the last
   * of them accepted. It ends normally exactly when every row was put and
   * accepted; otherwise either the last put was rejected and its message is
   * reported, or the next row has the wrong width.
   */
  lemma {:induction false} InsertRowsShape(respond: Request -> Response, tableName: string, columns: seq<string>, rows: seq<seq<Scalar>>)
    ensures var run := InsertRows(respond, tableName, columns, rows);
      && PutsOfRows(run.sent, tableName, columns, rows)
      && (forall j :: 0 <= j < |run.sent| - 1 ==> respond(run.sent[j]).Answer?)
      && (run.outcome == Pass <==>
            |run.sent| == |rows| && forall j :: 0 <= j < |run.sent| ==> respond(run.sent[j]).Answer?)
      && (run.outcome.Fail? && run.outcome.error.InvalidArgument? ==>
            run.sent != [] && respond(run.sent[|run.sent| - 1]) == StoreFailure(run.outcome.error.message))
      && (run.outcome.Fail? && run.outcome.error.RuntimeFault? ==>
            |run.sent| < |rows| && |rows[|run.sent|]| != |columns| && run.outcome.error.message == ArrayCombineMessage)
    decreases |rows|
  {
    if rows != [] && |rows[0]| == |columns| {
      var request := PutFor(tableName, columns, rows[0]);
      if respond(request).Answer? {
        InsertRowsShape(respond, tableName, columns, rows[1..]);
        var rest := InsertRows(respond, tableName, columns, rows[1..]);
        var run := InsertRows(respond, tableName, columns, rows);
        assert run.sent == [request] + rest.sent;
        forall j | 1 <= j < |run.sent| ensures run.sent[j] == rest.sent[j - 1] && rows[j] == rows[1..][j - 1] {
        }
      }
    }
  }

  /**
   * `insert` sends nothing exactly when the up-front checks fail, and then
   * reports which one: no columns or a first-row width mismatch (default
   * message), no rows (`count(null)`), an unset table name.
   */
  lemma InsertRejectsBeforeSending(respond: Request -> Response, tableName: string, columns: seq<string>, rows: seq<seq<Scalar>>)
    ensures var run := InsertSpec(respond, tableName, columns, rows);
      && (run.sent == [] <==> |columns| == 0 || rows == [] || |columns| != |rows[0]| || IsEmpty(tableName))
      && (|columns| == 0 || (rows != [] && |columns| != |rows[0]|) ==> run.outcome == Fail(InvalidArgument(DefaultMessage)))
      && (|columns| > 0 && rows == [] ==> run.outcome == Fail(RuntimeFault(CountNullMessage)))
      && (|columns| > 0 && rows != [] && |columns| == |rows[0]| && IsEmpty(tableName) ==>
            run.outcome == Fail(InvalidArgument(TableNameMessage)))
  {
    if |columns| > 0 && rows != [] && |columns| == |rows[0]| && !IsEmpty(tableName) {
      var request := PutFor(tableName, columns, rows[0]);
      assert InsertRows(respond, tableName, columns, rows).sent[0] == request;
    }
  }

  /**
   * When every row has the columns' width and the store accepts every put,
   * `insert` puts every row, in order, and returns normally.
   */
  lemma {:induction false} InsertStoresEveryRow(respond: Request -> Response, tableName: string, columns: seq<string>, rows: seq<seq<Scalar>>)
    requires |columns| > 0 && rows != [] && !IsEmpty(tableName)
    requires forall i :: 0 <= i < |rows| ==> |rows[i]| == |columns|
    requires forall i :: 0 <= i < |rows| ==> respond(PutFor(tableName, columns, rows[i])).Answer?
    ensures var run := InsertSpec(respond, tableName, columns, rows);
      && run.outcome == Pass
      && |run.sent| == |rows|
      && forall i :: 0 <= i < |rows| ==> run.sent[i] == PutFor(tableName, columns, rows[i])
  {
    InsertRowsShape(respond, tableName, columns, rows);
  }

  /**
   * Only the first row's width is checked before sending: with a short second
   * row the first row is stored and then `array_combine` fails.
   */
  lemma OnlyFirstRowChecked(respond: Request -> Response)
    requires respond(PutFor("categories", ["id", "name"], [Str("1"), Str("fruits")])).Answer?
    ensures InsertSpec(respond, "categories", ["id", "name"], [[Str("1"), Str("fruits")], [Str("2")]])
      == Run([PutFor("categories", ["id", "name"], [Str("1"), Str("fruits")])], Fail(RuntimeFault(ArrayCombineMessage)))
  {
    var rows := [[Str("1"), Str("fruits")], [Str("2")]];
    assert rows[1..] == [[Str("2")]];
  }

  /** The failing inserts of the facade's own test data. */
  lemma InsertFailingExamples(respond: Request -> Response)
    ensures InsertSpec(respond, "", ["id", "name", "status"], [[Str("u"), Str("fruits"), Int(1)]])
      == Run([], Fail(InvalidArgument(TableNameMessage)))
    ensures InsertSpec(respond, "categories", ["id", "name"], [[Str("u"), Str("fruits"), Int(1)]])
      == Run([], Fail(InvalidArgument(DefaultMessage)))
    ensures InsertSpec(respond, "categories", ["id", "name", "status"], [[Str("u"), Str("fruits")]])
      == Run([], Fail(InvalidArgument(DefaultMessage)))
    ensures var request := PutFor("categories", ["id", "name", "status"], [Str("u"), Int(1), Int(1)]);
      respond(request).StoreFailure? ==>
        InsertSpec(respond, "categories", ["id", "name", "status"], [[Str("u"), Int(1), Int(1)]])
          == Run([request], Fail(InvalidArgument(respond(request).message)))
  {
  }

  // ---------------------------------------------------------------------------
  // update

  /** The update request for a payload, once table name and key are known. */
  function UpdateRequest(tableName: string, key: Record, data: seq<(string, Tree)>, names: map<string, string>): Request
  {
    UpdateItem(tableName, key, UpdateExpression(data), ValueBindings(data), names, UpdatedNew)
  }

  /**
   * `update`: the table name is required, then reading the unset key is a
   * type error; otherwise the alias table gains the payload's aliases and
   * one update is sent with the whole (accumulated) alias table. A store
   * failure becomes an invalid-argument error with the store's message; an
   * accepted update returns no data.
   */
  function UpdateSpec(
    respond: Request -> Response, tableName: string, key: Option<Record>,
    names: map<string, string>, data: seq<(string, Tree)>): UpdateRun
  {
    if IsEmpty(tableName) then UpdateRun([], names, Fail(InvalidArgument(TableNameMessage)))
    else if key.None? then UpdateRun([], names, Fail(RuntimeFault(KeyUnsetMessage)))
    else
      var names' := names + AliasesFor(LeafPaths(data));
      var request := UpdateRequest(tableName, key.value, data, names');
      var outcome := match respond(request)
        case StoreFailure(message) => Fail(InvalidArgument(message))
        case Answer(_) => Pass;
      UpdateRun([request], names', outcome)
  }

  /**
   * `update` sends nothing exactly when the table name or the key is
   * missing; otherwise its single request carries the expression, the value
   * bindings, and an alias table holding every earlier alias and `#c -> c`
   * for each reserved top-level scalar `c` of the payload.
   */
  lemma UpdateRequestShape(
    respond: Request -> Response, tableName: string, key: Option<Record>,
    names: map<string, string>, data: seq<(string, Tree)>, c: string)
    requires WellFormed(data)
    ensures var run := UpdateSpec(respond, tableName, key, names, data);
      && (run.sent == [] <==> IsEmpty(tableName) || key.None?)
      && (run.sent == [] ==> run.names == names)
      && (run.sent != [] ==>
            && |run.sent| == 1
            && run.sent[0].UpdateItem?
            && run.sent[0].tableName == tableName
            && run.sent[0].key == key.value
            && "set " <= run.sent[0].updateExpression
            && Keys(run.sent[0].expressionAttributeValues) == Keys(ValueBindings(data))
            && run.sent[0].expressionAttributeNames == run.names
            && names.Keys <= run.names.Keys
            && (IsReservedKeyword(c) && Lookup(data, c).Some? && Lookup(data, c).value.Leaf? ==>
                  "#" + c in run.names && run.names["#" + c] == c)
            && run.sent[0].returnValues == UpdatedNew)
  {
    UpdateExpressionShape(data);
    UpdateAliasesExact(data, c);
  }

  /**
   * The update of the facade's own test: table `categories`, key set, no
   * earlier aliases, payload `{status: 5, test: "value5"}`. When the store
   * accepts it, the caller gets no data back.
   */
  lemma UpdateTestExample(respond: Request -> Response, key: Record)
    ensures var data := [("status", Leaf(Int(5))), ("test", Leaf(Str("value5")))];
      var run := UpdateSpec(respond, "categories", Some(key), map[], data);
      && run.names == map["#status" := "status"]
      && run.sent == [UpdateItem(
           "categories", key, "set #status = :status, test = :test",
           [(":status", Leaf(Int(5))), (":test", Leaf(Str("value5")))],
           map["#status" := "status"], "UPDATED_NEW")]
      && (respond(run.sent[0]).Answer? ==> run.outcome == Pass)
  {
    StatusAndTestExample();
    assert map[] + map["#status" := "status"] == map["#status" := "status"];
  }

  // ---------------------------------------------------------------------------
  // select

  /**
   * The ordered `$select` array after the given columns: each column's token
   * (`#c` for a reserved name) as key; a repeated token keeps its first place.
   */
  function SelectEntries(columns: seq<string>): (entries: seq<(string, string)>)
    ensures DistinctKeys(entries)
  {
    if columns == [] then []
    else
      var c := columns[|columns| - 1];
      Put(SelectEntries(columns[..|columns| - 1]), Alias(c, false), c)
  }

  /** The `$aliases` array after the given columns: `#c -> c` for each reserved column. */
  function SelectAliases(columns: seq<string>): (aliases: map<string, string>)
  {
    if columns == [] then map[]
    else
      var c := columns[|columns| - 1];
      var earlier := SelectAliases(columns[..|columns| - 1]);
      if IsReservedKeyword(c) then earlier["#" + c := c] else earlier
  }

  /** The projection expression: the distinct tokens, comma-separated, in first-occurrence order. */
  function Projection(columns: seq<string>): string
  {
    Implode(", ", Keys(SelectEntries(columns)))
  }

  function ScanRequest(tableName: string, columns: seq<string>): Request
  {
    Scan(tableName, Projection(columns), SelectAliases(columns))
  }

  /**
   * `select`: the table name is required; then one scan, whose failure
   * becomes an invalid-argument error and whose items are returned in the
   * canonical order.
   */
  function SelectSpec(respond: Request -> Response, tableName: string, columns: seq<string>): SelectRun
  {
    if IsEmpty(tableName) then SelectRun([], Err(InvalidArgument(TableNameMessage)))
    else
      var request := ScanRequest(tableName, columns);
      var result := match respond(request)
        case StoreFailure(message) => Err(InvalidArgument(message))
        case Answer(items) => Ok(Canonical(items));
      SelectRun([request], result)
  }

  /** The token of each column, in column order. */
  function Tokens(columns: seq<string>): (tokens: seq<string>)
    ensures |tokens| == |columns|
    ensures forall i :: 0 <= i < |columns| ==> tokens[i] == Alias(columns[i], false)
  {
    seq(|columns|, i requires 0 <= i < |columns| => Alias(columns[i], false))
  }

  /** No column is itself written with the alias marker `#`. */
  predicate NoMarkedColumns(columns: seq<string>)
  {
    forall i :: 0 <= i < |columns| ==> columns[i] == [] || columns[i][0] != '#'
  }

  lemma TokensSnoc(columns: seq<string>)
    requires columns != []
    ensures Tokens(columns) == Tokens(columns[..|columns| - 1]) + [Alias(columns[|columns| - 1], false)]
  {
  }

  /** The last column adds its token at the end, unless an earlier column already produced it. */
  lemma SelectKeysSnoc(columns: seq<string>)
    requires columns != []
    ensures var earlier := Keys(SelectEntries(columns[..|columns| - 1]));
            var t := Alias(columns[|columns| - 1], false);
            Keys(SelectEntries(columns)) == if t in earlier then earlier else earlier + [t]
  {
  }

  /** A token is projected exactly when some column produces it. */
  lemma {:induction false} SelectTokensExact(columns: seq<string>, t: string)
    ensures t in Keys(SelectEntries(columns)) <==> t in Tokens(columns)
  {
    if columns != [] {
      SelectTokensExact(columns[..|columns| - 1], t);
      TokensSnoc(columns);
      SelectKeysSnoc(columns);
    }
  }

  /** Aliases are recorded exactly for the reserved columns asked for. */
  lemma {:induction false} SelectAliasesExact(columns: seq<string>, c: string)
    ensures "#" + c in SelectAliases(columns) <==> c in columns && IsReservedKeyword(c)
    ensures AliasTable(SelectAliases(columns))
  {
    if columns != [] {
      var init := columns[..|columns| - 1];
      var last := columns[|columns| - 1];
      SelectAliasesExact(init, c);
      assert columns == init + [last];
      assert ("#" + last == "#" + c) <==> last == c by {
        assert ("#" + last)[1..] == last && ("#" + c)[1..] == c;
      }
    }
  }

  /** Two columns without the marker get the same token only if they are the same column. */
  lemma AliasInjective(c: string, d: string)
    requires c == [] || c[0] != '#'
    requires d == [] || d[0] != '#'
    requires Alias(c, false) == Alias(d, false)
    ensures c == d
  {
    if IsReservedKeyword(c) && IsReservedKeyword(d) {
      assert ("#" + c)[1..] == c && ("#" + d)[1..] == d;
    }
  }

  /**
   * Every alias is used in the projection; when no column carries the marker
   * itself, every `#` token of the projection has its alias.
   */
  lemma ProjectionAliasesAgree(columns: seq<string>, c: string)
    ensures "#" + c in SelectAliases(columns) ==> "#" + c in Keys(SelectEntries(columns))
    ensures NoMarkedColumns(columns) && "#" + c in Keys(SelectEntries(columns)) ==> "#" + c in SelectAliases(columns)
  {
    SelectTokensExact(columns, "#" + c);
    SelectAliasesExact(columns, c);
    if "#" + c in SelectAliases(columns) {
      var i :| 0 <= i < |columns| && columns[i] == c;
      assert Tokens(columns)[i] == "#" + c;
    }
    if NoMarkedColumns(columns) && "#" + c in Keys(SelectEntries(columns)) {
      var i :| 0 <= i < |columns| && Tokens(columns)[i] == "#" + c;
      var d := columns[i];
      if IsReservedKeyword(d) {
        assert ("#" + d)[1..] == d && ("#" + c)[1..] == c;
      }
    }
  }

  /**
   * Without repeated or marked columns, every column contributes its own
   * token, in column order.
   */
  lemma {:induction false} SelectEntriesDistinctColumns(columns: seq<string>)
    requires Distinct(columns) && NoMarkedColumns(columns)
    ensures Keys(SelectEntries(columns)) == Tokens(columns)
  {
    if columns != [] {
      var init := columns[..|columns| - 1];
      var c := columns[|columns| - 1];
      assert Distinct(init) && NoMarkedColumns(init);
      SelectEntriesDistinctColumns(init);
      TokensSnoc(columns);
      SelectKeysSnoc(columns);
      if Alias(c, false) in Tokens(init) {
        var i :| 0 <= i < |init| && Tokens(init)[i] == Alias(c, false);
        AliasInjective(init[i], c);
        assert false;
      }
    }
  }

  lemma ProjectionExampleEntries()
    ensures SelectEntries(["id", "name"]) == [("id", "id"), ("#name", "name")]
  {
    var columns := ["id", "name"];
    assert IsReservedKeyword("name") && !IsReservedKeyword("id");
    assert "#" + "name" == "#name";
    assert columns[..1] == ["id"] && columns[..1][..0] == [];
    assert SelectEntries(["id"]) == [("id", "id")];
  }

  lemma ProjectionExampleTokens()
    ensures Keys(SelectEntries(["id", "name", "status"])) == ["id", "#name", "#status"]
  {
    ProjectionExampleEntries();
    var columns := ["id", "name", "status"];
    var earlier := [("id", "id"), ("#name", "name")];
    assert columns[..2] == ["id", "name"];
    assert Alias("status", false) == "#status" by {
      assert IsReservedKeyword("status");
      assert "#" + "status" == "#status";
    }
    assert Keys(earlier) == ["id", "#name"];
    assert "#status" != "id" && "#status" != "#name";
    SelectKeysSnoc(columns);
  }

  lemma ProjectionExampleAliases()
    ensures SelectAliases(["id", "name", "status"]) == map["#name" := "name", "#status" := "status"]
  {
    var columns := ["id", "name", "status"];
    assert IsReservedKeyword("name") && IsReservedKeyword("status") && !IsReservedKeyword("id");
    assert "#" + "name" == "#name" && "#" + "status" == "#status";
    assert columns[..2] == ["id", "name"] && columns[..2][..1] == ["id"] && columns[..1][..0] == [];
    assert SelectAliases(["id"]) == map[];
    assert SelectAliases(["id", "name"]) == map["#name" := "name"];
  }

  lemma ProjectionExampleJoined()
    ensures Implode(", ", ["id", "#name", "#status"]) == "id, #name, #status"
  {
    var tokens := ["id", "#name", "#status"];
    assert tokens[..2] == ["id", "#name"] && tokens[..2][..1] == ["id"];
    assert Implode(", ", ["id", "#name"]) == "id" + ", " + "#name";
    assert "id" + ", " + "#name" + ", " + "#status" == "id, #name, #status";
  }

  /** The projection of the facade's own select test. */
  lemma ProjectionExample()
    ensures Projection(["id", "name", "status"]) == "id, #name, #status"
    ensures SelectAliases(["id", "name", "status"]) == map["#name" := "name", "#status" := "status"]
  {
    ProjectionExampleTokens();
    ProjectionExampleAliases();
    ProjectionExampleJoined();
  }

  /**
   * A successful select returns the scanned items in an order that does not
   * depend on the scan's order; with uniform attributes they come back
   * ascending by `sort`'s comparison, each listing its attributes sorted.
   */
  lemma SelectResultOrder(respond: Request -> Response, tableName: string, columns: seq<string>, names: seq<string>)
    requires !IsEmpty(tableName)
    requires respond(ScanRequest(tableName, columns)).Answer?
    requires Uniform(respond(ScanRequest(tableName, columns)).items, names)
    ensures var run := SelectSpec(respond, tableName, columns);
      var items := respond(ScanRequest(tableName, columns)).items;
      && run.sent == [ScanRequest(tableName, columns)]
      && run.result.Ok?
      && multiset(run.result.value) == multiset(KSortAll(items))
      && Sorted(RecordLe, run.result.value)
      && forall r :: r in run.result.value ==> Keys(r) == Sort(StrLe, names)
  {
    CanonicalOrdered(respond(ScanRequest(tableName, columns)).items, names);
  }

  // ---------------------------------------------------------------------------
  // The facade object

  /**
   * The facade. It extends the client wrapper in the source; here it holds
   * the wrapper object whose state it inherits, and the store client.
   */
  class PDA {
    const wrapper: Wrapper
    const client: Client

    ghost predicate Valid()
      reads this, wrapper
    {
      wrapper.Valid()
    }

    constructor (client: Client)
      ensures Valid() && fresh(wrapper) && this.client == client
      ensures wrapper.tableName == "" && wrapper.key == None && wrapper.expressionAttributeNames == map[]
    {
      wrapper := new Wrapper();
      this.client := client;
    }

    /** `insert($columns, $values)`. */
    method Insert(columns: seq<string>, rows: seq<seq<Scalar>>) returns (outcome: Outcome)
      modifies client`sent
      ensures var run := InsertSpec(client.respond, wrapper.tableName, columns, rows);
        client.sent == old(client.sent) + run.sent && outcome == run.outcome
    {
      if |columns| == 0 {
        return Fail(InvalidArgument(DefaultMessage));
      }
      if rows == [] {
        return Fail(RuntimeFault(CountNullMessage));
      }
      if |columns| != |rows[0]| {
        return Fail(InvalidArgument(DefaultMessage));
      }
      var table := wrapper.GetTableName();
      if table.Err? {
        return Fail(table.error);
      }
      outcome := PutRows(table.value, columns, rows);
    }

    /** The `foreach` of `insert`: puts the rows one by one until one fails. */
    method PutRows(tableName: string, columns: seq<string>, rows: seq<seq<Scalar>>) returns (outcome: Outcome)
      modifies client`sent
      ensures var run := InsertRows(client.respond, tableName, columns, rows);
        client.sent == old(client.sent) + run.sent && outcome == run.outcome
    {
      ghost var start := client.sent;
      ghost var done: seq<Request> := [];
      for i := 0 to |rows|
        invariant client.sent == start + done
        invariant InsertRows(client.respond, tableName, columns, rows)
          == After(done, InsertRows(client.respond, tableName, columns, rows[i..]))
      {
        InsertRowsNext(client.respond, tableName, columns, rows, done, i);
        var row := rows[i];
        if |row| != |columns| {
          return Fail(RuntimeFault(ArrayCombineMessage));
        }
        var request := PutFor(tableName, columns, row);
        var response := client.Send(request);
        if response.StoreFailure? {
          return Fail(InvalidArgument(response.message));
        }
        done := done + [request];
      }
      assert rows[|rows|..] == [];
      outcome := Pass;
    }

    /** `update($data)`; a PHP array never repeats a key, at any depth. */
    method Update(data: seq<(string, Tree)>) returns (outcome: Outcome)
      requires Valid() && WellFormed(data)
      modifies wrapper`expressionAttributeNames, client`sent
      ensures Valid()
      ensures var run := UpdateSpec(
          client.respond, wrapper.tableName, wrapper.key, old(wrapper.expressionAttributeNames), data);
        && client.sent == old(client.sent) + run.sent
        && wrapper.expressionAttributeNames == run.names
        && outcome == run.outcome
    {
      var table := wrapper.GetTableName();
      if table.Err? {
        return Fail(table.error);
      }
      var key := wrapper.GetKey();
      if key.Err? {
        return Fail(key.error);
      }
      var values := wrapper.PrepareExpressionAttributeValuesArray(data);
      var expression := wrapper.PrepareUpdateExpressionString(data);
      var request := UpdateItem(table.value, key.value, expression, values, wrapper.expressionAttributeNames, UpdatedNew);
      var response := client.Send(request);
      match response
      case StoreFailure(message) =>
        outcome := Fail(InvalidArgument(message));
      case Answer(_) =>
        outcome := Pass;
    }

    /**
     * Builds the projection expression and the alias array of `select`:
     * each column's token goes into the ordered `$select` array under
     * itself, reserved columns also into `$aliases`.
     */
    method BuildProjection(columns: seq<string>) returns (projection: string, aliases: map<string, string>)
      ensures projection == Projection(columns)
      ensures aliases == SelectAliases(columns)
    {
      aliases := map[];
      var select: seq<(string, string)> := [];
      for i := 0 to |columns|
        invariant select == SelectEntries(columns[..i])
        invariant aliases == SelectAliases(columns[..i])
      {
        var column := columns[i];
        assert columns[..i + 1][..i] == columns[..i];
        if IsReservedKeyword(column) {
          aliases := aliases["#" + column := column];
          select := Put(select, "#" + column, column);
          continue;
        }
        select := Put(select, column, column);
      }
      assert columns[..|columns|] == columns;
      projection := Implode(", ", Keys(select));
    }

    /** `select($columns)`. */
    method Select(columns: seq<string>) returns (result: Result<seq<Record>>)
      modifies client`sent
      ensures var run := SelectSpec(client.respond, wrapper.tableName, columns);
        client.sent == old(client.sent) + run.sent && result == run.result
    {
      var table := wrapper.GetTableName();
      if table.Err? {
        return Err(table.error);
      }
      var projection, aliases := BuildProjection(columns);
      var response := client.Send(Scan(table.value, projection, aliases));
      match response
      case StoreFailure(message) =>
        result := Err(InvalidArgument(message));
      case Answer(items) =>
        var ordered := Canonicalise(items);
        result := Ok(ordered);
    }

    /**
     * The ordering loop of `select`: `ksort` each item, then `uasort` by
     * name, renumber, and `sort`.
     */
    method Canonicalise(items: seq<Record>) returns (ordered: seq<Record>)
      ensures ordered == Canonical(items)
    {
      var categories: seq<Record> := [];
      for i := 0 to |items|
        invariant categories == KSortAll(items[..i])
      {
        var category := KSort(items[i]);
        KSortAllSnoc(items, i);
        categories := categories + [category];
      }
      assert items[..|items|] == items;
      categories := Sort(NameLe, categories);
      ordered := Sort(RecordLe, categories);
    }
  }

  lemma KSortAllSnoc(items: seq<Record>, i: nat)
    requires i < |items|
    ensures KSortAll(items[..i + 1]) == KSortAll(items[..i]) + [KSort(items[i])]
  {
    ProjectConcat(KSort, items[..i], [items[i]]);
    assert items[..i + 1] == items[..i] + [items[i]];
    assert Project(KSort, [items[i]]) == [KSort(items[i])];
  }
}
