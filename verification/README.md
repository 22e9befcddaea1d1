# SPELL evaluation core in Dafny

SPELL is a small JSON dataflow interpreter. A program is a JSON object
whose members are nodes. Each node names an operation (`op`), may
declare a return type (`returns`), and takes typed arguments. An
argument is either a reference to another node's output
(`{"ref": id, "type": T}`) or an embedded literal (`{"literal": v, "type": T}`).
The engine evaluates a node on demand:

- it resolves the node's arguments, running referenced nodes first;
- it checks every value against its declared type;
- it runs the operation;
- it checks `out` against the declared return type;
- it memoises the outputs.

A `visiting` set detects cycles.

This project models that core as pure Dafny functions and proves what it promises:

| file | module | what it holds |
|---|---|---|
| `wrappers.dfy` | `Wrappers` | `Option` and `Result` |
| `json.dfy` | `Json` | JSON values (numbers as exact reals) and a nesting depth used only for termination |
| `keys.dfy` | `Keys` | lexicographic order on strings and the sorted key sequence of a set, the fixed iteration order used for hash maps |
| `types.dfy` | `Types` | the type language: `Parse`, `Show`, `Matches`, `TypedValue` and its deserialisation |
| `types_properties.dfy` | `TypeProperties` | parse/print round trip, exactly what `Parse` accepts, the `Matches` laws |
| `errors.dfy` | `Errors` | the error type and its display messages |
| `schema.dfy`, `schema_properties.dfy` | `Schema`, `SchemaProperties` | nodes and graphs, their (de)serialisation, typed argument classification |
| `ops.dfy`, `ops_properties.dfy` | `Ops`, `OpsProperties` | the 14 operations as one `Execute` function and their laws |
| `engine.dfy`, `engine_properties.dfy`, `engine_examples.dfy` | `Engine`, `EngineProperties`, `EngineExamples` | the evaluator as state passing over `(cache, typeCache, visiting)` and its invariants |

## Termination

The evaluator's recursion (`ExecuteNode` → `ResolveArgs` → `ResolveTypedValue`
→ `ExecuteNode`) terminates because the number of graph nodes not on the
current path strictly drops each time a node is entered. Nested operation
application terminates for two reasons:

- Map and Filter pass on parts of their inputs, which are strictly shallower.
- Reduce's inner call has only two inputs. A higher-order operation reads at
  least three inputs before it applies anything, so such a call cannot reach
  another application.

## Behaviour worth noting

- Filter keeps an item exactly when the applied operation's `out` is boolean
  `true`. Any other result, a non-boolean included, drops the item without an
  error.
- A reference argument is checked by testing the referenced node's value
  against the declared type (`Matches`). On a mismatch the reported `actual`
  type is the referenced node's recorded return type, or `Any` when it has none.
- Operation errors are relabelled with the executing node's id only for
  `MissingInput`, `InvalidType` and `OperationError`.
- A node's operation is looked up only after its arguments are resolved, so an
  argument error is reported in preference to an unknown `op`.

## Model

| member | source | states |
|---|---|---|
| Types.TrimSlice | src/core/types.rs:22 | the trimmed string is a slice of the input with only whitespace cut from either end, and starts and ends with non-whitespace |
| Types.TypeName | src/core/types.rs:24-29 | exactly the five simple names are recognised, each printing back as itself |
| Types.ArrayInner | src/core/types.rs:30-31 | the inner text of an `Array<...>` spelling is what lies between `Array<` and the final `>` |
| Types.DecodeTypeField | src/core/types.rs:67-73 | a `type` member is accepted exactly when it is a string that parses, and then yields the parsed type |
| Types.DecodeTypedValue | src/core/types.rs:81-95 | an argument deserialises only from an object with a valid `type`; a reference carries the `ref` string and a literal the `literal` member |
| Types.Trim | src/core/types.rs:22 | `str::trim`: strips Unicode whitespace from both ends; its laws are stated by `Types.TrimSlice`, `TypeProperties.TrimIdempotent`, `TypeProperties.TrimKeeps` and `TypeProperties.TrimSplits` |
| Types.Parse | src/core/types.rs:21-37 | `SpellType::parse`: what it accepts and returns is stated by `TypeProperties.ParseAcceptsExactly`, `TypeProperties.ParseShow`, `TypeProperties.ParseExact` and `TypeProperties.ParseIgnoresPadding` |
| Types.Show | src/core/types.rs:54-65 | `Display` for types: its inverse is `Parse` (`TypeProperties.ParseShow`), it is injective (`TypeProperties.ShowInjective`) and prints no whitespace (`TypeProperties.ShowHasNoWhitespace`) |
| Types.Matches | src/core/types.rs:39-51 | `SpellType::matches`: its laws are `TypeProperties.AnyMatchesEverything`, `UnitMatchesOnlyNull`, `ArrayMatchesElementwise`, `NoCoercion` and `MatchesWidening` |
| Types.TypedValue.GetType | src/core/types.rs:98-103 | every typed value has a type: the result is always `Some`, holding the declared type of either variant |
| Types.TypedValue.GetReference | src/core/types.rs:109-114 | `Some` exactly for a reference, and then its target node name |
| Types.TypedValue.GetLiteral | src/core/types.rs:116-121 | `Some` exactly for a literal, and then its embedded value |
| Types.EncodeTypedValue | src/core/types.rs:81-95 | serialisation of a typed value as a `ref` or `literal` object with a `type` string; `TypeProperties.DecodeEncodeTypedValue` proves that deserialisation inverts it |
| TypeProperties.ParseShow | src/core/types.rs:21-79 | parsing the printed form of any type gives the type back (round trip through `TryFrom`/`From`) |
| TypeProperties.ShowInjective | src/core/types.rs:54-65 | distinct types print differently |
| TypeProperties.ShowHasNoWhitespace | src/core/types.rs:54-65 | printed types contain no whitespace and never end in `<` |
| TypeProperties.ParseAcceptsExactly | src/core/types.rs:21-37 | after trimming, parse succeeds if and only if the text is a simple name or `Array<...>` around an inner text that parses |
| TypeProperties.ParseIgnoresPadding | src/core/types.rs:22 | surrounding whitespace never changes the result |
| TypeProperties.ParseExact | src/core/types.rs:21-37 | whatever parses to `t` is `t`'s printed form with whitespace inserted only (whitespace removed, the two agree) |
| TypeProperties.TrimIdempotent | src/core/types.rs:22 | trimming twice is trimming once |
| TypeProperties.TrimKeeps | src/core/types.rs:22 | a string without whitespace at its ends is left unchanged |
| TypeProperties.TrimSplits | src/core/types.rs:22 | every string is whitespace, then its trimmed form, then whitespace |
| TypeProperties.AnyMatchesEverything | src/core/types.rs:45 | `Any` matches every value |
| TypeProperties.UnitMatchesOnlyNull | src/core/types.rs:44 | `Unit` matches a value if and only if it is `null` |
| TypeProperties.ArrayMatchesElementwise | src/core/types.rs:46-48 | an array type matches an array if and only if every element matches the inner type; the empty array matches every array type |
| TypeProperties.NoCoercion | src/core/types.rs:41-49 | `Number`, `String` and `Boolean` match exactly their own JSON kind, and only `Any` matches an object |
| TypeProperties.MatchesWidening | src/core/types.rs:39-51 | replacing any part of a type by `Any` keeps every value it matched |
| TypeProperties.DecodeEncodeTypedValue | src/core/types.rs:81-95 | serialising a typed argument and deserialising it again gives it back |
| TypeProperties.BadTypeFieldRejected | src/core/schema.rs:37-41 | an argument whose `type` is missing, not a string or not a type fails to deserialise, whatever else it holds |
| Errors.SingleNameMessagesInjective | src/core/error.rs:67-91 | the messages for a missing node, a cycle and an unknown operation each determine the name they embed |
| Errors.SingleNameKindsDiffer | src/core/error.rs:67-91 | those three kinds of message never coincide |
| Errors.MessageExamples | src/core/error.rs:67-71 | `Node not found: 'x'`, `Cycle detected at node: 'a'` and `Unknown operation: 'Foo'` as displayed |
| Errors.TypeMismatchMessageDetermines | src/core/error.rs:76-78 | for a fixed node and port, a type-mismatch message determines both the expected and the actual type |
| Errors.AnnotationMessageNamesPort | src/core/error.rs:93-95 | a missing-annotation message names its node and port verbatim and ends with the explicit-types reminder |
| Errors.Message | src/core/error.rs:64-98 | `Display` for errors: `Errors.MessageExamples` fixes the format strings, and `SingleNameMessagesInjective`, `SingleNameKindsDiffer`, `TypeMismatchMessageDetermines` and `AnnotationMessageNamesPort` state what a message determines |
| Keys.Ordered | src/core/engine.rs:35 | the iteration order fixed for a key set lists every key exactly once, in ascending order |
| Schema.DecodeReturns | src/core/schema.rs:21-22 | an absent `returns` is no declared type; a declared one is a string that parses to it |
| Schema.DecodeNode | src/core/schema.rs:17-26 | a node needs a string `op`; its arguments are all other members, so they never hold `op` or `returns`, and an absent `returns` declares nothing |
| Schema.DecodeGraph | src/core/schema.rs:11-15 | a graph has exactly the object's members as node ids, each deserialised as a node, and fails if any member is not a node |
| Schema.TypedArgs | src/core/schema.rs:29-47 | every argument except `op` and `returns` appears exactly once; it is a typed value when it deserialises as one and a `MissingTypeAnnotation` with blank node and that port otherwise |
| SchemaProperties.DecodeEncodeNode | src/core/schema.rs:17-26 | serialising a well-formed node and deserialising it again gives it back |
| SchemaProperties.DecodeEncodeGraph | src/core/schema.rs:11-15 | the same for a whole graph |
| SchemaProperties.DecodedGraphWellFormed | src/core/schema.rs:24-25 | every deserialised node is well formed |
| SchemaProperties.ReturnsIsOptional | src/core/schema.rs:21-22 | a node object without `returns` deserialises with no declared type |
| Schema.EncodeNode | src/core/schema.rs:17-26 | serialisation of a node with `op`, `returns` and its flattened arguments; `SchemaProperties.DecodeEncodeNode` proves that deserialisation inverts it on well-formed nodes |
| Schema.EncodeGraph | src/core/schema.rs:11-15 | serialisation of a graph as one object of nodes; `SchemaProperties.DecodeEncodeGraph` proves that deserialisation inverts it |
| Ops.Lookup | src/core/ops.rs:30-48 | exactly the 14 registered names resolve, each to the operation of that name |
| Ops.Name | src/core/ops.rs:30-48 | the registered name of each operation; `OpsProperties.LookupName` proves `Lookup` inverts it and `OpsProperties.NameInjective` that it is injective |
| Ops.GetInput | src/core/ops.rs:53-58 | a present input is returned as is; an absent one is `MissingInput` for that port |
| Ops.GetNumber | src/core/ops.rs:60-67 | succeeds exactly on a numeric input; a present non-number is `InvalidType` "number" showing the value |
| Ops.GetBool | src/core/ops.rs:69-76 | succeeds exactly on a boolean input; a present non-boolean is `InvalidType` "boolean" showing the value |
| Ops.GetList | src/core/ops.rs:223-227 | succeeds exactly when `list` is an array, yielding its elements |
| Ops.GetOpName | src/core/ops.rs:229-233 | succeeds exactly when `apply_op` is a string, yielding it |
| Ops.GetArgName | src/core/ops.rs:235 | the argument-name input is required; a non-string falls back to the default name |
| Ops.GetParams | src/core/ops.rs:238-246 | `params` is optional (absent means none) but must be an object when present |
| Ops.Resolve | src/core/ops.rs:248 | the applied operation resolves exactly when registered; otherwise `UnknownOperation` with that name |
| Ops.Execute | src/core/ops.rs:86-407 | every success has an `out` port and only `out`, `true` or `false` ports; every failure is a missing input, a wrong kind, an operation error, or an unknown operation that is indeed unregistered |
| Ops.MapItems | src/core/ops.rs:252-268 | on success one output per item |
| Ops.FilterItems | src/core/ops.rs:380-401 | on success no more items than given |
| Ops.ReduceItems | src/core/ops.rs:306-313 | fails only with an operation error |
| OpsProperties.LookupName | src/core/ops.rs:30-48 | every operation is registered under its own name |
| OpsProperties.NameInjective | src/core/ops.rs:30-48 | no two operations share a name |
| OpsProperties.PassThrough | src/core/ops.rs:86-109 | Const and Print succeed exactly when `value` / `in` is present and put it unchanged on `out`; otherwise `MissingInput` |
| OpsProperties.LenCounts | src/core/ops.rs:325-338 | Len succeeds exactly on an array list and returns its element count; anything else is `InvalidType` "array" |
| OpsProperties.MathOnNumbers | src/core/ops.rs:116-138 | on two numbers, Add/Sub/Mul/Div give the exact result; Div by zero is `OperationError` "Division by zero" with no output |
| OpsProperties.MathRejectsNonNumbers | src/core/ops.rs:117-118 | a missing `a` is `MissingInput`; a non-numeric `a`, then `b`, is `InvalidType` "number" showing it |
| OpsProperties.EqIsStructural | src/core/ops.rs:150-161 | Eq compares any two values by equality (numerically on numbers) |
| OpsProperties.OrderNeedsNumbers | src/core/ops.rs:145-174 | Gt and Lt succeed if and only if both operands are numbers, and then output on `out` the boolean `a > b` (Gt) or `a < b` (Lt); otherwise `InvalidType` "comparable numbers" |
| OpsProperties.GtIsConverseOfLt | src/core/ops.rs:154-158 | Gt on `(a, b)` is Lt on `(b, a)`; on two numbers Gt outputs `a > b` and Lt outputs `a < b` |
| OpsProperties.SwitchSelects | src/core/ops.rs:184-194 | with both branch inputs, `out` is the branch the condition selects |
| OpsProperties.SwitchRoutes | src/core/ops.rs:196-208 | otherwise Switch needs `data` and routes it to the port the condition names and to `out`, leaving the other port empty |
| OpsProperties.SwitchNeedsBoolean | src/core/ops.rs:182 | a non-boolean condition is `InvalidType` "boolean", whatever else is present |
| OpsProperties.MapElementwise | src/core/ops.rs:252-268 | Map succeeds if and only if every application succeeds; element i is the `out` (or `null`) of the operation on `params` with the item bound to `arg`, the item overriding a same-named param |
| OpsProperties.MapRuns | src/core/ops.rs:221-274 | Map whose list, `apply_op`, `arg` and `params` inputs parse and whose operation is registered succeeds exactly when its loop does, and then outputs on `out` a list with one element per item; otherwise it fails with the loop's error |
| OpsProperties.MapStopsAtFirstError | src/core/ops.rs:263 | Map reports the error of the first failing application |
| OpsProperties.FilterSelects | src/core/ops.rs:380-401 | Filter succeeds if and only if every application succeeds, and returns an order-preserving subsequence of the list that holds every occurrence of each item whose application yields `out == true` and no other item |
| OpsProperties.ReduceSnoc | src/core/ops.rs:306-313 | Reduce is a left fold: one more item is one more step on the previous accumulator, and an error ends the fold |
| OpsProperties.ReduceRuns | src/core/ops.rs:286-319 | Reduce whose list, `apply_op`, `initial`, `acc_arg` and `item_arg` inputs parse and whose operation is registered outputs on `out` the left fold of the list from `initial`, or fails with the fold's error |
| OpsProperties.ReduceEmpty | src/core/ops.rs:286-319 | Reduce over an empty list, with a registered `apply_op` and all of `initial`, `acc_arg` and `item_arg` given, outputs `initial` unchanged on `out` |
| OpsProperties.HigherOrderNeedsThreeInputs | src/core/ops.rs:223-304 | Map, Filter and Reduce fail on two inputs or fewer |
| OpsProperties.UnknownAppliedOperation | src/core/ops.rs:248 | Map and Filter with an unregistered `apply_op` fail with `UnknownOperation`, even on an empty list |
| OpsProperties.UnknownReducer | src/core/ops.rs:304 | the same for Reduce |
| OpsProperties.SumExample | src/core/ops.rs:285-318 | Reduce with Add from 0 over 1..5 gives 15 |
| OpsProperties.FilterRuns | src/core/ops.rs:349-407 | Filter whose list, `apply_op`, `arg` and `params` inputs parse and whose operation is registered succeeds exactly when its loop does, outputs on `out` exactly the items the loop keeps, and otherwise fails with the loop's error |
| OpsProperties.FilterExample | src/core/ops.rs:348-406 | Filter with Gt and `b = 2` over 1..5 gives [3, 4, 5] |
| Engine.PortKey | src/core/engine.rs:120 | a secondary port's cache key is the id, a colon, and the port, so it always holds a colon |
| Engine.ActualType | src/core/engine.rs:161-163 | the type a `TypeMismatch` reports for a referenced node: its recorded return type, or `Any`; `EngineProperties.MismatchReportsDeclaredType` states that the recorded type is the node's declared `returns` |
| Engine.Relabel | src/core/engine.rs:83-94 | `MissingInput`, `InvalidType` and `OperationError` get the executing node's id, keeping their details; `UnknownOperation` passes unchanged |
| Engine.ArgList | src/core/engine.rs:65-67 | every typed argument is visited exactly once, with its classification |
| Engine.ExecuteNode | src/core/engine.rs:46-131 | a cached id returns its cached value and changes nothing; on success the value is cached under the id, the path is restored, and a freshly computed value lies within the declared return type |
| Engine.ResolveArgs | src/core/engine.rs:64-77 | on success the evaluation path is unchanged |
| Engine.ResolveTypedValue | src/core/engine.rs:134-191 | a resolved value always matches the argument's declared type; a literal resolves to itself without touching the state |
| Engine.Finish | src/core/engine.rs:96-130 | succeeds exactly when `out` exists and matches the declared type; then caches it under the id and leaves the path; errors name the node; other colon-free entries are untouched |
| Engine.RunFrom | src/core/engine.rs:34-43 | one result per id, in order, carrying on after errors |
| Engine.Run | src/core/engine.rs:34-43 | one result for every node of the graph |
| EngineProperties.ReentryIsCycle | src/core/engine.rs:53-55 | re-entering an uncached id on the path is `CycleDetected` for it |
| EngineProperties.MissingNodeNotFound | src/core/engine.rs:56-61 | an uncached id absent from the graph is `NodeNotFound`, left on the path |
| EngineProperties.LiteralMismatch | src/core/engine.rs:174-183 | a literal outside its declared type is `InvalidValue` on its port |
| EngineProperties.ReturnMismatchNotCached | src/core/engine.rs:97-106 | an `out` outside the declared return type is `InvalidValue` on `out`, and nothing is cached |
| EngineProperties.SuccessCachesOutputs | src/core/engine.rs:107-125 | on success `out` is cached under the id, every other port under `id:port`, the declared type is recorded and the id leaves the path |
| EngineProperties.ExecuteNodeFrame | src/core/engine.rs:46-131 | evaluation only adds cache entries, never changes a colon-free one, only grows the path, and never caches an id already on the path |
| EngineProperties.ResolveArgsFrame | src/core/engine.rs:64-77 | the same for the argument loop |
| EngineProperties.ResolveTypedValueFrame | src/core/engine.rs:134-191 | the same for one argument |
| EngineProperties.ExecuteNodeHonours | src/core/engine.rs:96-116 | evaluation keeps every cached node value within the node's declared return type and every recorded type equal to the declared one |
| EngineProperties.ResolveArgsHonours | src/core/engine.rs:64-77 | the same for the argument loop |
| EngineProperties.ResolveTypedValueHonours | src/core/engine.rs:134-191 | the same for one argument |
| EngineProperties.ExecuteNodeMatchesReturns | src/core/engine.rs:48-50 | a node's value, cached or computed, lies within its declared return type |
| EngineProperties.MismatchReportsDeclaredType | src/core/engine.rs:157-171 | a reference whose value misses its declared type is `TypeMismatch` at that node and port, whose `actual` is the referenced node's declared return type or `Any` |
| EngineProperties.ArgErrorsAreAnnotations | src/core/schema.rs:37-41 | every argument that fails to deserialise is a missing type annotation |
| EngineProperties.ExecuteNodeLocated | src/core/engine.rs:46-131 | every error names where it arose: a missing id is absent, a cycle is at a graph node, a node-level error names a graph node, an unknown operation is unregistered |
| EngineProperties.ResolveArgsLocated | src/core/engine.rs:67-75 | the same for the argument loop, whose annotation errors get the node's id |
| EngineProperties.ResolveTypedValueLocated | src/core/engine.rs:141-183 | the same for one argument |
| EngineProperties.RelabelLocated | src/core/engine.rs:83-94 | a relabelled operation error names the executing node |
| EngineProperties.ResolvedArgsMatchDeclaredTypes | src/core/engine.rs:64-77 | when the argument loop succeeds, every argument deserialised, the operation's inputs are exactly the arguments, and each matches its declared type |
| EngineProperties.ExecuteNodeStuck | src/core/engine.rs:52-55 | if every node of a set refers to the set, evaluation never caches a member and evaluating one always fails |
| EngineProperties.ResolveArgsStuck | src/core/engine.rs:64-77 | the same for the argument loop: an argument referring into the set makes it fail |
| EngineProperties.ResolveTypedValueStuck | src/core/engine.rs:148-157 | the same for one argument |
| EngineProperties.RunFromFacts | src/core/engine.rs:34-43 | across a run, every success of a colon-free id is memoised and within its declared type, and every failure is located |
| EngineProperties.RunTheorem | src/core/engine.rs:34-43 | the same for `run` from a fresh engine |
| EngineProperties.RunFromStuck | src/core/engine.rs:37-42 | across a run, every node of a self-referring set fails and none is cached |
| EngineProperties.RunStuck | src/core/engine.rs:34-43 | the same for `run` from a fresh engine |
| EngineExamples.CycleIsStuck | src/core/engine.rs:52-55 | in the graph where `a` reads `b` and `b` reads `a`, both refer into `{a, b}` |
| EngineExamples.CycleNeverRuns | src/core/engine.rs:34-43 | running that graph fails for both nodes and caches neither |
| EngineExamples.CycleDetectedAtEntry | src/core/engine.rs:53-55 | evaluating `a` there enters `b`, re-enters `a`, and fails with `CycleDetected("a")` |
| EngineExamples.EnterFails | src/core/engine.rs:64-125 | a Print node whose one argument references a node that fails, fails itself with that same error, unchanged |
| EngineExamples.SucceedsVia | src/core/engine.rs:64-125 | an uncached node whose arguments resolve and whose operation succeeds goes on to the return check and caching step with exactly those outputs and the state the arguments left |
| EngineExamples.ConstRuns | src/core/engine.rs:46-131 | in the graph where `c` is the constant 2 (declared `Number`), evaluating `c` from any state that has not seen it yields 2, caches it and restores the path |
| EngineExamples.PipelineAdds | src/core/engine.rs:46-131 | in that graph, where `s` adds the literal 3 to a reference to `c` and declares `Number`, evaluating `s` from a fresh engine runs `c` on demand and yields 5 |

## Left out

- Floating point: numbers are exact reals. Rounding, NaN and infinity are not modelled. `json!` of a non-finite result becomes `null` in the source; that is not modelled. The `as_f64` fallback to 0.0 is not modelled either.
- Integers versus floats: serde_json tells an integer from a float, so structural `Eq` on non-number pairs can tell `1` from `1.0` inside arrays or objects. Here both are one number. `Len` returns its count as an integer; here it is a real.
- serde mechanics are modelled by their outcome: flattening, untagged enums and `try_from`/`into`. serde's alternative sequence form of derived structs is not modelled.
- Value formatting: `format!("{}", v)` and `format!("{:?}", v)` are not modelled. `Errors.Message` takes them as parameters. `InvalidValue` keeps the value itself rather than its rendering.
- Output: the `println!` in Print is modelled as identity. The `eprintln!` in `run` is modelled as the list of per-node results that `Engine.Run` returns.
- Hash-map iteration order is nondeterministic in the source. The model fixes ascending key order (`Keys.Ordered`) for the nodes in `run` and for a node's arguments. Which error a node reports can depend on that order. The error and failure theorems do not depend on it: `EngineProperties.ResolveArgsLocated` and `EngineProperties.ResolveArgsStuck` hold for any argument sequence, and `EngineProperties.RunFromFacts` and `EngineProperties.RunFromStuck` hold for any sequence of node ids.
- Dynamic dispatch through `Box<dyn Operation>` is replaced by a match on the `Ops.OpName` datatype.
- Unreachable branches in `resolve_typed_value` are left out: the `MissingTypeAnnotation` for a value with no type, and the "Invalid reference" error. Every typed value carries a type, and a reference always has a name (the contracts of `Types.TypedValue.GetType` and `GetReference`).
- The CLI (`src/main.rs`) and module declarations (`src/core/mod.rs`) are not part of this model.
- EngineProperties.RunTheorem: memoisation and return-type facts are stated for ids without a colon only. An id containing `:` can be overwritten by another node's `id:port` cache entry.
- EngineProperties.RunFromFacts: stated for colon-free ids only, for the same reason.
- EngineProperties.ExecuteNodeMatchesReturns: stated for colon-free ids only, for the same reason.
- EngineProperties.ExecuteNodeFrame: says nothing about cache entries whose key holds a colon, which secondary ports may overwrite.
- EngineProperties.ExecuteNodeStuck: the set's members must be colon-free ids, for the same reason.
