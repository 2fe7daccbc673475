# PDA: a verified model of the DynamoDB helper's request builders

PDA is a small PHP helper over a DynamoDB client. The caller sets a table name
(and, for updates, a key), then calls `insert`, `update` or `select`. This
project models the part of the helper that turns caller data into request
fragments, together with the checks and the post-processing around those
requests:

- **The client wrapper** (`ClientWrapper`, `client_wrapper.dfy`):
  - the reserved-keyword test and `_renameReservedKeywords`, which returns
    `#c`, `:c` or `c` and records `#c -> c` in the object's alias table;
  - the value-binding builder (`:key -> value` for each top-level entry);
  - the update-expression builder. It walks the payload's leaves depth-first
    and writes `set a = :a, b.c = :c, ...`;
  - the object state: table name, key, and an alias table that only grows.
    `Wrapper` is a class with those three fields, and its methods update them.
- **The facade** (`Pda`, `pda.dfy`). The class `PDA` holds the wrapper object
  and a store client, and its methods model the three operations:
  - `insert`: the up-front checks, then one put per row, stopping at the first
    failure;
  - `update`: one update request that combines both builders;
  - `select`: one scan with a `#`-aliased projection, then the result ordering
    (`ksort` each item, `uasort` by name, `sort`).

  Each operation is specified by a function of the object's state and of the
  store's answers (`InsertSpec`, `UpdateSpec`, `SelectSpec`). Each method is
  proved to produce exactly the requests and the outcome that function
  prescribes.
- **Supporting modules**:
  - PHP's ordered arrays, `implode` and `empty` (`php_array.dfy`);
  - a stable insertion sort standing for `ksort`, `uasort` and `sort`, with
    its sortedness, permutation and uniqueness lemmas (`php_sort.dfy`);
  - scalar values, nested payloads and PHP's comparison of strings, scalars
    and arrays (`values.dfy`);
  - the store client, which records every request sent and answers through a
    fixed response function that may report a failure (`store.dfy`).
- **Proved properties**:
  - the builders' behaviour (`update_facts.dfy`);
  - the ordering of `select`'s results (`result_order.dfy`).

Payload keys are strings. PHP list indices appear as their decimal strings.

The model follows PHP 8.0 or later. Several behaviours depend on it:
- `count(null)` throws a `TypeError`;
- `array_combine` on arrays of different lengths throws a `ValueError`;
- a return-type violation in `getKey` is reported with the class-qualified
  message;
- `ksort`, `uasort` and `sort` are stable.

Under PHP 7.4 these differ. `insert` with no rows would throw the helper's
default invalid-argument error, a short later row would make `array_combine`
return `false`, and the sorts would not be stable.

Where the documented behaviour and the code differ, the model follows the code:

- The alias table is a field of the object. It accumulates across `update`
  calls and is never cleared, so each request carries every alias added so
  far.
- `select`'s projection lists each token once, at its first occurrence, because
  `$select` is keyed by token.
- `update` without a key fails with PHP's return-type error from `getKey`, not
  with the helper's invalid-argument exception.
- `insert` checks only the first row's width before sending. A later row of
  the wrong width fails inside `array_combine`, after the earlier rows have been
  stored.
- For a nested payload the expression references the last path segment
  (`:age`), while the values builder binds only top-level names (`:profile`).
- A column whose own name is `#name` gets the same projection token as `name`.
- Nothing in the helper itself refuses an empty `update` payload.
  - The model sends an update whose expression is just `set ` and which has
    no bindings (`UpdateFacts.UpdateExpressionShape`).
  - In the source, a refusal can only come from the marshaler, which is not
    modelled (see "Left out").
  - The same goes for the key: `setKey()` stores `[]` by default, and the
    marshaler rejects it.
- The final `sort` decides the order of `select`'s results.
  - With uniform attributes it compares items attribute by attribute, after
    `ksort`.
  - For the facade's test data (`id`, `name`, `status`), the results are
    therefore ordered by `id`, not by `name`.
  - `ResultOrder.NameSortRedundant` proves that the sort by `name` has no
    effect.

## Model

| member | source | states |
|---|---|---|
| ClientWrapper.IsReservedKeyword | src/DynamoDbClientWrapper.php:24-35 | true exactly for "name" and "status" |
| ClientWrapper.Alias | src/DynamoDbClientWrapper.php:116-128 | with the value flag the token is `:c`, reserved or not; without it, `#c` for a reserved name and the name itself otherwise |
| ClientWrapper.Clause | src/DynamoDbClientWrapper.php:100-108 | a multi-key path gives the dot-joined path, unaliased; a one-key path gives the key's alias; both end in ` = :` and the last key |
| ClientWrapper.ExpressionStep | src/DynamoDbClientWrapper.php:106-108 | each further leaf appends ", " (none before the first clause) and then its clause |
| ClientWrapper.AliasesFor | src/DynamoDbClientWrapper.php:116-128 | every alias the expression builder records maps `#k` to a reserved `k` |
| ClientWrapper.ValueBindings | src/DynamoDbClientWrapper.php:130-139 | one binding per top-level entry, in input order: the key becomes `:k` and the value, nested arrays included, is unchanged |
| ClientWrapper.ValueBindingsDistinct | src/DynamoDbClientWrapper.php:130-139 | distinct payload keys give distinct placeholders, so no binding overwrites another |
| ClientWrapper.Wrapper.constructor | src/DynamoDbClientWrapper.php:21-22 | a new object has no table name, no key and an empty alias table |
| ClientWrapper.Wrapper.SetTableName | src/DynamoDbClientWrapper.php:63-68 | the table name becomes the given one |
| ClientWrapper.Wrapper.GetTableName | src/DynamoDbClientWrapper.php:70-77 | returns the name last set exactly when it is not PHP-empty ("" or "0"); otherwise the invalid-argument error asking for a table name |
| ClientWrapper.Wrapper.SetKey | src/DynamoDbClientWrapper.php:79-84 | the key becomes the given one |
| ClientWrapper.Wrapper.GetKey | src/DynamoDbClientWrapper.php:86-89 | returns the key exactly when one was set; otherwise PHP's return-type error |
| ClientWrapper.Wrapper.RenameReservedKeywords | src/DynamoDbClientWrapper.php:116-128 | returns the token of `Alias`; adds `#c -> c` exactly for a reserved name without the value flag, and leaves the table unchanged otherwise |
| ClientWrapper.Wrapper.PrepareExpressionAttributeValuesArray | src/DynamoDbClientWrapper.php:130-139 | the filled array equals the bindings of `ValueBindings` and repeats no key |
| ClientWrapper.Wrapper.PrepareUpdateExpressionString | src/DynamoDbClientWrapper.php:91-114 | the string is `set ` and the leaf clauses joined by ", "; the alias table gains exactly the aliases of those leaves and keeps its earlier entries |
| UpdateFacts.LeafPathsExact | src/DynamoDbClientWrapper.php:96-104 | a key path gets a clause if and only if it leads from the payload's top to a scalar |
| UpdateFacts.LeafPathsDistinct | src/DynamoDbClientWrapper.php:96-104 | no leaf is visited twice |
| UpdateFacts.UpdateExpressionShape | src/DynamoDbClientWrapper.php:94-113 | the expression starts with "set ", and it is exactly "set " if and only if the payload has no leaf |
| UpdateFacts.EmptyArrayAddsNoClause | src/DynamoDbClientWrapper.php:96-111 | inserting an entry whose value is an empty array at any position of any nested array, reached along a key path, changes neither the leaves, nor the expression, nor the aliases |
| UpdateFacts.EmptyArrayNestedExample | src/DynamoDbClientWrapper.php:96-111 | `{a: {b: 1, c: []}}` gives the same update expression as `{a: {b: 1}}` |
| UpdateFacts.UpdateAliasesExact | src/DynamoDbClientWrapper.php:107-122 | `#c` is recorded, mapped to `c`, if and only if `c` is reserved and is a top-level key holding a scalar |
| UpdateFacts.FlatPlaceholdersBound | src/DynamoDbClientWrapper.php:130-139 | for a payload without nested arrays, the placeholders the clauses reference are exactly the bound keys, in order |
| UpdateFacts.NestedPlaceholderUnbound | src/DynamoDbClientWrapper.php:102-108 | `{profile: {age: 30}}` gives "set profile.age = :age", but only `:profile` is bound |
| UpdateFacts.StatusAndTestExample | tests/PDATest.php:266-274 | `{status: 5, test: "value5"}` gives "set #status = :status, test = :test", the alias table `{#status: status}` and the bindings `:status -> 5`, `:test -> "value5"` |
| ResultOrder.KSortSpec | src/PDA.php:109-113 | `ksort` keeps the item's entries and lists its attribute names in ascending byte order, each once |
| ResultOrder.KSortSameOrder | src/PDA.php:111 | two items with the same attribute names end up listing them in the same order |
| ResultOrder.KSortKeepsSorted | src/PDA.php:111 | an item whose names are already ascending is left unchanged |
| ResultOrder.RecordLeTotalOrder | src/PDA.php:121 | on items with the same attribute names in the same order (as after `ksort`), `sort`'s array comparison is a total order |
| ResultOrder.CanonicalOrdered | src/PDA.php:106-121 | under uniform attributes the result is a permutation of the ksorted scanned items, each listing the sorted names, in ascending `sort` order |
| ResultOrder.NameSortRedundant | src/PDA.php:115-121 | under uniform attributes the `name` sort has no effect on the final order |
| ResultOrder.CanonicalIgnoresScanOrder | src/PDA.php:106-121 | the result does not depend on the order in which the scan returns the items |
| ResultOrder.SelectMatchesRowOrder | tests/PDATest.php:238-254 | the items come back as the test expects, namely the stored rows (attributes listed ascending) sorted by name and then by `sort`. This holds for any scan order and for items that list their attributes in any order, as long as ksorting the items yields the rows |
| Pda.CombineSpec | src/PDA.php:29 | the item holds exactly the columns, and a column's value is its last occurrence's |
| Pda.InsertRowsShape | src/PDA.php:25-42 | the loop puts a prefix of the rows, in order, and every put but the last was accepted; it ends normally exactly when every row was put and accepted; a rejected put reports the store's message; a wrong-width later row reports `array_combine`'s error |
| Pda.InsertRejectsBeforeSending | src/PDA.php:16-20 | nothing is sent exactly when a check fails. No columns or a first-row width mismatch gives the default message; no rows gives `count(null)`'s error; a missing table name gives the table-name error |
| Pda.InsertStoresEveryRow | src/PDA.php:25-42 | with rows of the right width and a store that accepts them, every row is put, in order, and `insert` returns normally |
| Pda.OnlyFirstRowChecked | src/PDA.php:16-18 | a short second row is not caught up front: the first row is stored, then `array_combine` fails |
| Pda.InsertFailingExamples | tests/PDATest.php:169-193 | each failing insert of the facade's test data fails with the error the model predicts |
| Pda.PDA.Insert | src/PDA.php:14-43 | sends exactly the requests `InsertSpec` prescribes for the object's table name and ends with its outcome |
| Pda.PDA.PutRows | src/PDA.php:25-42 | sends the puts of the row loop in order and stops at the first failure, as `InsertRows` prescribes |
| Pda.UpdateRequestShape | src/PDA.php:45-80 | in the model, where the marshaler refuses nothing, nothing is sent exactly when the table name or key is missing. Otherwise one update is sent carrying the table, the key, a "set " expression, one binding per top-level key, the whole alias table and UPDATED_NEW. That table keeps the earlier aliases and gains `#c` for each reserved top-level scalar `c` |
| Pda.UpdateTestExample | src/PDA.php:65-76 | the request for the facade's test payload carries exactly the expected expression, alias table and bindings, and when the store accepts it the update returns no data |
| Pda.PDA.Update | src/PDA.php:45-80 | sends exactly the request `UpdateSpec` prescribes and leaves the alias table it prescribes; fails with the store's message, or succeeds without returning any of the store's answer |
| Pda.SelectTokensExact | src/PDA.php:89-101 | a token is in the projection if and only if some requested column produces it |
| Pda.SelectAliasesExact | src/PDA.php:89-97 | `#c` is in the alias array if and only if `c` was requested and is reserved |
| Pda.ProjectionAliasesAgree | src/PDA.php:89-103 | every alias is used in the projection; when no column is written with a leading `#`, every `#` token in the projection has its alias |
| Pda.SelectEntriesDistinctColumns | src/PDA.php:89-101 | with distinct columns and none written with a leading `#`, the projection lists one token per column, in column order |
| Pda.ProjectionExample | src/PDA.php:99-103 | columns id, name, status give "id, #name, #status" and the aliases `{#name: name, #status: status}` |
| Pda.SelectResultOrder | src/PDA.php:82-127 | a successful select sends one scan and returns the ksorted items in ascending `sort` order, each listing its attributes sorted |
| Pda.PDA.BuildProjection | src/PDA.php:86-103 | the projection and the alias array equal `Projection` and `SelectAliases` of the columns |
| Pda.PDA.Select | src/PDA.php:82-127 | sends exactly the scan `SelectSpec` prescribes and returns its result |
| Pda.PDA.Canonicalise | src/PDA.php:107-121 | the ordered items equal `Canonical` of the scanned items |

## Left out

- Client configuration (`configureDynamoDbClient`, `getDynamoDbClient` and its unconfigured-client error) is not modelled: the facade always has a store client.
- Network calls are not modelled: the store is a response function fixed when the client is created. It can answer with items or fail with a message.
- JSON encoding and the marshaler are left out. They are foreign library code. `select` returns items rather than a JSON string. A successful `update` returns no data: the source returns the JSON of the client library's result object, which encodes as `{}`. A successful `insert` returns nothing, as in the source. A `JsonException` (which the source's `catch` clauses never match) is not modelled.
- The marshaler's refusals in `update` are not modelled. It rejects a JSON root that is not an object. An empty payload or an empty key encodes as `[]`, so the source fails before `updateItem`; the model sends the request.
- Floating-point numbers are not modelled. `Scalar` has no float case, so a number with a fraction that the store returns, and `sort`'s numeric comparison of floats with integers, are not covered.
- Nested attribute values are not modelled in keys, `insert` rows or scanned items. `Record` holds only scalars, so maps and lists that `unmarshalItem` returns as nested arrays, and `sort`'s recursive comparison of them, are not covered. Nested payloads are modelled only for `update`'s data.
- PHP versions before 8.0 are not modelled. The errors for `count(null)` and `array_combine`, the `getKey` type-error message and the stability of the sorts follow PHP 8.
- PHP's loose comparison across value kinds and numeric strings is not modelled. `ScalarCmp` ranks kinds (null < bool < int < string), and `ksort` on numeric-string keys is modelled as a byte-wise string order.
- The order `sort` gives when items have different attribute sets is left out, because PHP's comparison is then not a total order. The ordering lemmas assume uniform attributes.
- An update sent before any alias was recorded carries an empty alias map. The source sends an unset property (null).
- `select`'s second parameter is not modelled; the source never reads it.
- ClientWrapper.Wrapper.PrepareExpressionAttributeValuesArray: requires a payload without repeated keys, which every PHP array satisfies.
- Pda.PDA.Update: requires a well-formed payload (no repeated key at any depth), which every PHP array satisfies.
- Pda.ProjectionAliasesAgree: the direction from projection token to alias assumes no column is written with a leading `#`, because a column named `#name` yields the token `#name` without an alias.
- Pda.SelectEntriesDistinctColumns: assumes distinct columns without a leading `#`; otherwise tokens collapse and the projection is shorter than the column list.
- Pda.SelectResultOrder: states the order only when every scanned item has the same attribute names.
