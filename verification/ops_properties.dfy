/** What the operations promise: the registry round trip, the arithmetic and
    comparison contracts, both Switch modes, and the element-wise behaviour
    of Map, Filter and Reduce. */
module OpsProperties {
  import opened Wrappers
  import opened Json
  import opened Errors
  import opened Ops

  /** Every operation is registered under its own name. */
  lemma LookupName(op: OpName)
    ensures Lookup(Name(op)) == Some(op)
  {
  }

  /** Names are unique: two operations never share a registered name. */
  lemma NameInjective(a: OpName, b: OpName)
    ensures Name(a) == Name(b) ==> a == b
  {
    LookupName(a);
    LookupName(b);
  }

  // ---------------------------------------------------------------------
  // Const, Print, Len
  // ---------------------------------------------------------------------

  /** Const and Print pass their one input through to `out`. */
  lemma PassThrough(inputs: Inputs)
    ensures Execute(Const, inputs).Ok? <==> "value" in inputs
    ensures Execute(Const, inputs).Ok? ==> Execute(Const, inputs).value == map["out" := inputs["value"]]
    ensures Execute(Print, inputs).Ok? <==> "in" in inputs
    ensures Execute(Print, inputs).Ok? ==> Execute(Print, inputs).value == map["out" := inputs["in"]]
    ensures "value" !in inputs ==> Execute(Const, inputs) == Err(MissingInput("unknown", "value"))
    ensures "in" !in inputs ==> Execute(Print, inputs) == Err(MissingInput("unknown", "in"))
  {
  }

  /** Len counts the elements of `list` and fails on anything but an array. */
  lemma LenCounts(inputs: Inputs)
    ensures Execute(Len, inputs).Ok? <==> "list" in inputs && inputs["list"].Arr?
    ensures Execute(Len, inputs).Ok? ==> Execute(Len, inputs).value["out"] == Num(|inputs["list"].items| as real)
    ensures "list" in inputs && !inputs["list"].Arr? ==>
      Execute(Len, inputs) == Err(InvalidType("Len", "array", Text("non-array")))
  {
  }

  // ---------------------------------------------------------------------
  // Arithmetic and comparison
  // ---------------------------------------------------------------------

  /** On two numbers every arithmetic operation succeeds with the exact result,
      except division by zero. */
  lemma MathOnNumbers(m: MathOp, inputs: Inputs, a: real, b: real)
    requires "a" in inputs && inputs["a"] == Num(a)
    requires "b" in inputs && inputs["b"] == Num(b)
    ensures m == Div && b == 0.0 ==> Execute(Math(m), inputs) == Err(OperationError("unknown", "Division by zero"))
    ensures m == Add ==> Execute(Math(m), inputs) == Ok(map["out" := Num(a + b)])
    ensures m == Sub ==> Execute(Math(m), inputs) == Ok(map["out" := Num(a - b)])
    ensures m == Mul ==> Execute(Math(m), inputs) == Ok(map["out" := Num(a * b)])
    ensures m == Div && b != 0.0 ==> Execute(Math(m), inputs) == Ok(map["out" := Num(a / b)])
  {
    assert GetNumber(inputs, "a") == Ok(a);
    assert GetNumber(inputs, "b") == Ok(b);
    if !(m == Div && b == 0.0) {
      assert Execute(Math(m), inputs) == Ok(map["out" := Num(Arith(m, a, b))]);
    }
  }

  /** Arithmetic never coerces: a present non-number is reported as such,
      and `a` is checked before `b`. */
  lemma MathRejectsNonNumbers(m: MathOp, inputs: Inputs)
    ensures "a" in inputs && !inputs["a"].Num? ==>
      Execute(Math(m), inputs) == Err(InvalidType("unknown", "number", Debug(inputs["a"])))
    ensures "a" in inputs && inputs["a"].Num? && "b" in inputs && !inputs["b"].Num? ==>
      Execute(Math(m), inputs) == Err(InvalidType("unknown", "number", Debug(inputs["b"])))
    ensures "a" !in inputs ==> Execute(Math(m), inputs) == Err(MissingInput("unknown", "a"))
  {
  }

  /** Eq is structural equality of any two values; numbers compare by value. */
  lemma EqIsStructural(inputs: Inputs)
    requires "a" in inputs && "b" in inputs
    ensures Execute(Logic(Eq), inputs) == Ok(map["out" := Bool(inputs["a"] == inputs["b"])])
  {
  }

  /** Gt and Lt are defined only on two numbers. */
  lemma OrderNeedsNumbers(l: LogicOp, inputs: Inputs)
    requires l != Eq && "a" in inputs && "b" in inputs
    ensures Execute(Logic(l), inputs).Ok? <==> inputs["a"].Num? && inputs["b"].Num?
    ensures !(inputs["a"].Num? && inputs["b"].Num?) ==>
      Execute(Logic(l), inputs) == Err(InvalidType("unknown", "comparable numbers", Text("mixed/non-numeric types")))
    ensures inputs["a"].Num? && inputs["b"].Num? ==>
      Execute(Logic(l), inputs)
        == Ok(map["out" := Bool(if l == Gt then inputs["a"].n > inputs["b"].n else inputs["a"].n < inputs["b"].n)])
  {
  }

  function Swapped(inputs: Inputs): (r: Inputs)
    requires "a" in inputs && "b" in inputs
    ensures "a" in r && "b" in r && r["a"] == inputs["b"] && r["b"] == inputs["a"]
  {
    inputs["a" := inputs["b"]]["b" := inputs["a"]]
  }

  /** Gt is Lt with its operands exchanged; on two numbers Gt answers `a > b`
      and Lt answers `a < b`. */
  lemma GtIsConverseOfLt(inputs: Inputs)
    requires "a" in inputs && "b" in inputs
    ensures Execute(Logic(Gt), inputs) == Execute(Logic(Lt), Swapped(inputs))
    ensures inputs["a"].Num? && inputs["b"].Num? ==>
      && Execute(Logic(Gt), inputs) == Ok(map["out" := Bool(inputs["a"].n > inputs["b"].n)])
      && Execute(Logic(Lt), inputs) == Ok(map["out" := Bool(inputs["a"].n < inputs["b"].n)])
  {
  }

  // ---------------------------------------------------------------------
  // Switch
  // ---------------------------------------------------------------------

  /** With both branch inputs present, Switch selects one of them. */
  lemma SwitchSelects(inputs: Inputs, c: bool)
    requires "cond" in inputs && inputs["cond"] == Bool(c)
    requires "true" in inputs && "false" in inputs
    ensures Execute(Switch, inputs) == Ok(map["out" := if c then inputs["true"] else inputs["false"]])
  {
  }

  /** Otherwise Switch routes `data` to the port named by the condition, and
      always to `out`; the other port stays empty. */
  lemma SwitchRoutes(inputs: Inputs, c: bool)
    requires "cond" in inputs && inputs["cond"] == Bool(c)
    requires !("true" in inputs && "false" in inputs)
    ensures Execute(Switch, inputs).Ok? <==> "data" in inputs
    ensures Execute(Switch, inputs).Ok? ==>
      var outs := Execute(Switch, inputs).value;
      && outs["out"] == inputs["data"]
      && (if c then "true" else "false") in outs
      && outs[if c then "true" else "false"] == inputs["data"]
      && (if c then "false" else "true") !in outs
  {
  }

  /** The condition is checked first, whatever else is supplied. */
  lemma SwitchNeedsBoolean(inputs: Inputs)
    requires "cond" in inputs && !inputs["cond"].Bool?
    ensures Execute(Switch, inputs) == Err(InvalidType("unknown", "boolean", Debug(inputs["cond"])))
  {
  }

  // ---------------------------------------------------------------------
  // Map, Filter, Reduce
  // ---------------------------------------------------------------------

  /** One application of `op` with the item bound to `arg` over `params`. */
  function Applied(op: OpName, params: map<string, Value>, arg: string, x: Value): Result<Outputs, Error> {
    Execute(op, params[arg := x])
  }

  /** Map succeeds exactly when every application does; the i-th output is the
      i-th application's `out`, or `null` when it has none. */
  lemma {:induction false} MapElementwise(op: OpName, params: map<string, Value>, arg: string, items: seq<Value>, bound: nat)
    requires forall k :: k in params ==> Depth(params[k]) < bound
    requires forall i :: 0 <= i < |items| ==> Depth(items[i]) < bound
    ensures MapItems(op, params, arg, items, bound).Ok? <==>
      forall i :: 0 <= i < |items| ==> Applied(op, params, arg, items[i]).Ok?
    ensures MapItems(op, params, arg, items, bound).Ok? ==>
      forall i :: 0 <= i < |items| ==>
        MapItems(op, params, arg, items, bound).value[i] == OutOrNull(Applied(op, params, arg, items[i]).value)
    decreases |items|
  {
    if items != [] {
      var tail := items[1..];
      MapElementwise(op, params, arg, tail, bound);
      MapCons(op, params, arg, items, bound);
      var r := MapItems(op, params, arg, items, bound);
      if r.Ok? {
        forall i | 0 <= i < |items|
          ensures Applied(op, params, arg, items[i]).Ok?
          ensures r.value[i] == OutOrNull(Applied(op, params, arg, items[i]).value)
        {
          if i > 0 { assert items[i] == tail[i - 1]; assert r.value[i] == r.value[1..][i - 1]; }
        }
      } else if Applied(op, params, arg, items[0]).Ok? {
        var j :| 0 <= j < |tail| && !Applied(op, params, arg, tail[j]).Ok?;
        assert tail[j] == items[j + 1];
      }
    }
  }

  /** One step of Map's loop: the head's application, then the rest. */
  lemma {:induction false} MapCons(op: OpName, params: map<string, Value>, arg: string, items: seq<Value>, bound: nat)
    requires forall k :: k in params ==> Depth(params[k]) < bound
    requires forall i :: 0 <= i < |items| ==> Depth(items[i]) < bound
    requires items != []
    ensures MapItems(op, params, arg, items, bound).Ok? <==>
      Applied(op, params, arg, items[0]).Ok? && MapItems(op, params, arg, items[1..], bound).Ok?
    ensures MapItems(op, params, arg, items, bound).Ok? ==>
      MapItems(op, params, arg, items, bound).value
        == [OutOrNull(Applied(op, params, arg, items[0]).value)] + MapItems(op, params, arg, items[1..], bound).value
  {
  }

  /** The first failing application is the error Map reports: the loop stops there. */
  lemma {:induction false} MapStopsAtFirstError(op: OpName, params: map<string, Value>, arg: string, items: seq<Value>, bound: nat, j: nat)
    requires forall k :: k in params ==> Depth(params[k]) < bound
    requires forall i :: 0 <= i < |items| ==> Depth(items[i]) < bound
    requires j < |items| && Applied(op, params, arg, items[j]).Err?
    requires forall i :: 0 <= i < j ==> Applied(op, params, arg, items[i]).Ok?
    ensures MapItems(op, params, arg, items, bound) == Err(Applied(op, params, arg, items[j]).error)
    decreases j
  {
    if j > 0 {
      forall i | 0 <= i < j - 1 ensures Applied(op, params, arg, items[1..][i]).Ok? {
        assert items[1..][i] == items[i + 1];
      }
      assert items[1..][j - 1] == items[j];
      MapStopsAtFirstError(op, params, arg, items[1..], bound, j - 1);
    }
  }

  /** Map whose inputs parse and whose operation is registered succeeds exactly
      when its loop does; it then outputs on `out` the loop's list, one element
      per item, and otherwise fails with the loop's error. */
  lemma {:induction false} MapRuns(inputs: Inputs, items: seq<Value>, name: string, arg: string,
                                   params: map<string, Value>, inner: OpName)
    requires GetList(inputs, "Map") == Ok(items) && GetOpName(inputs, "Map") == Ok(name)
    requires GetArgName(inputs, "arg", "in") == Ok(arg) && GetParams(inputs, "Map") == Ok(params)
    requires Resolve(name) == Ok(inner)
    ensures (PartsShallower(inputs, items, params);
             var loop := MapItems(inner, params, arg, items, MaxDepth(inputs));
             && (Execute(Map, inputs).Ok? <==> loop.Ok?)
             && (loop.Ok? ==> Execute(Map, inputs) == Ok(map["out" := Arr(loop.value)]) && |loop.value| == |items|)
             && (loop.Err? ==> Execute(Map, inputs) == Err(loop.error)))
  {
    ThreeKeys(inputs, "list", "apply_op", "arg");
  }

  /** `a` is `b` with some elements left out, order kept. */
  ghost predicate IsSubsequence(a: seq<Value>, b: seq<Value>)
    decreases |b|
  {
    |a| == 0 || (|b| > 0 && ((a[0] == b[0] && IsSubsequence(a[1..], b[1..])) || IsSubsequence(a, b[1..])))
  }

  /** Whether Filter keeps an item, given that its application succeeded. */
  predicate KeptBy(op: OpName, params: map<string, Value>, arg: string, x: Value) {
    var res := Applied(op, params, arg, x);
    res.Ok? && Keeps(res.value)
  }

  /** Filter succeeds exactly when every application does, and then returns
      the items, in order, whose application yields `out == true`: an item is
      in the result if and only if it is in the list and is kept, and a kept
      item appears as often as in the list. */
  lemma {:induction false} FilterSelects(op: OpName, params: map<string, Value>, arg: string, items: seq<Value>, bound: nat)
    requires forall k :: k in params ==> Depth(params[k]) < bound
    requires forall i :: 0 <= i < |items| ==> Depth(items[i]) < bound
    ensures FilterItems(op, params, arg, items, bound).Ok? <==>
      forall i :: 0 <= i < |items| ==> Applied(op, params, arg, items[i]).Ok?
    ensures FilterItems(op, params, arg, items, bound).Ok? ==>
      var kept := FilterItems(op, params, arg, items, bound).value;
      && IsSubsequence(kept, items)
      && (forall x :: x in kept <==> x in items && KeptBy(op, params, arg, x))
      && (forall x :: multiset(kept)[x] == if KeptBy(op, params, arg, x) then multiset(items)[x] else 0)
  {
    FilterKeepsOrder(op, params, arg, items, bound);
    FilterCounts(op, params, arg, items, bound);
  }

  /** The order and membership half of `FilterSelects`. */
  lemma {:induction false} FilterKeepsOrder(op: OpName, params: map<string, Value>, arg: string, items: seq<Value>, bound: nat)
    requires forall k :: k in params ==> Depth(params[k]) < bound
    requires forall i :: 0 <= i < |items| ==> Depth(items[i]) < bound
    ensures FilterItems(op, params, arg, items, bound).Ok? <==>
      forall i :: 0 <= i < |items| ==> Applied(op, params, arg, items[i]).Ok?
    ensures FilterItems(op, params, arg, items, bound).Ok? ==>
      var kept := FilterItems(op, params, arg, items, bound).value;
      && IsSubsequence(kept, items)
      && (forall x :: x in kept <==> x in items && KeptBy(op, params, arg, x))
    decreases |items|
  {
    if items != [] {
      var tail := items[1..];
      FilterKeepsOrder(op, params, arg, tail, bound);
      var r := FilterItems(op, params, arg, items, bound);
      var head := Applied(op, params, arg, items[0]);
      if head.Err? {
        assert r.Err?;
      } else {
        FilterCons(op, params, arg, items, bound, Keeps(head.value));
        var rt := FilterItems(op, params, arg, tail, bound);
        if rt.Ok? {
          forall i | 0 <= i < |items| ensures Applied(op, params, arg, items[i]).Ok? {
            if i > 0 { assert items[i] == tail[i - 1]; }
          }
          var rest := rt.value;
          assert items == [items[0]] + tail;
          if KeptBy(op, params, arg, items[0]) {
            assert r.value == [items[0]] + rest;
            assert r.value[1..] == rest;
          } else {
            assert r.value == rest;
            SubsequenceOfTail(rest, items);
          }
        } else {
          var j :| 0 <= j < |tail| && !Applied(op, params, arg, tail[j]).Ok?;
          assert tail[j] == items[j + 1];
        }
      }
    }
  }

  /** Filter keeps every occurrence of a kept item and none of the others. */
  lemma {:induction false} FilterCounts(op: OpName, params: map<string, Value>, arg: string, items: seq<Value>, bound: nat)
    requires forall k :: k in params ==> Depth(params[k]) < bound
    requires forall i :: 0 <= i < |items| ==> Depth(items[i]) < bound
    ensures FilterItems(op, params, arg, items, bound).Ok? ==>
      forall x :: multiset(FilterItems(op, params, arg, items, bound).value)[x]
               == if KeptBy(op, params, arg, x) then multiset(items)[x] else 0
    decreases |items|
  {
    if items != [] {
      var tail := items[1..];
      FilterCounts(op, params, arg, tail, bound);
      var r := FilterItems(op, params, arg, items, bound);
      var head := Applied(op, params, arg, items[0]);
      if head.Ok? {
        FilterCons(op, params, arg, items, bound, Keeps(head.value));
        var rt := FilterItems(op, params, arg, tail, bound);
        if rt.Ok? {
          assert items == [items[0]] + tail;
          assert multiset(items) == multiset([items[0]]) + multiset(tail);
          if KeptBy(op, params, arg, items[0]) {
            assert multiset(r.value) == multiset([items[0]]) + multiset(rt.value);
          } else {
            assert r.value == rt.value;
          }
        }
      }
    }
  }

  lemma {:induction false} SubsequenceOfTail(a: seq<Value>, b: seq<Value>)
    requires |b| > 0 && IsSubsequence(a, b[1..])
    ensures IsSubsequence(a, b)
  {
  }

  /** One step of Reduce: apply `op` to the accumulator and the item. */
  function ReduceStep(op: OpName, accArg: string, itemArg: string, acc: Value, x: Value): Result<Value, Error> {
    var outs :- Execute(op, map[accArg := acc][itemArg := x]);
    Ok(OutOrNull(outs))
  }

  /** Reduce is a left fold: reducing `items + [x]` is one more step after
      reducing `items`, and an error anywhere ends the fold. */
  lemma {:induction false} ReduceSnoc(op: OpName, accArg: string, itemArg: string, acc: Value, items: seq<Value>, x: Value)
    ensures ReduceItems(op, accArg, itemArg, acc, items + [x]) ==
      match ReduceItems(op, accArg, itemArg, acc, items)
      case Ok(v) => ReduceStep(op, accArg, itemArg, v, x)
      case Err(e) => Err(e)
    decreases |items|
  {
    if items == [] {
      assert items + [x] == [x];
      assert [x][1..] == [];
    } else {
      assert (items + [x])[0] == items[0];
      assert (items + [x])[1..] == items[1..] + [x];
      var step := Execute(op, map[accArg := acc][itemArg := items[0]]);
      if step.Ok? {
        ReduceSnoc(op, accArg, itemArg, OutOrNull(step.value), items[1..], x);
      }
    }
  }

  /** Reduce whose inputs parse and whose operation is registered outputs on
      `out` the fold of the list from `initial`, or fails with the fold's error. */
  lemma {:induction false} ReduceRuns(inputs: Inputs, items: seq<Value>, name: string, initial: Value,
                                      accArg: string, itemArg: string, inner: OpName)
    requires GetList(inputs, "Reduce") == Ok(items) && GetOpName(inputs, "Reduce") == Ok(name)
    requires GetInput(inputs, "initial") == Ok(initial)
    requires GetArgName(inputs, "acc_arg", "a") == Ok(accArg) && GetArgName(inputs, "item_arg", "b") == Ok(itemArg)
    requires Resolve(name) == Ok(inner)
    ensures ReduceItems(inner, accArg, itemArg, initial, items).Ok? ==>
      Execute(Reduce, inputs) == Ok(map["out" := ReduceItems(inner, accArg, itemArg, initial, items).value])
    ensures ReduceItems(inner, accArg, itemArg, initial, items).Err? ==>
      Execute(Reduce, inputs) == Err(ReduceItems(inner, accArg, itemArg, initial, items).error)
  {
    ThreeKeys(inputs, "list", "apply_op", "initial");
  }

  /** Reduce over an empty list returns `initial` unchanged, once the applied
      operation is known and both argument names are given. */
  lemma ReduceEmpty(inputs: Inputs, name: string)
    requires "list" in inputs && inputs["list"] == Arr([])
    requires "apply_op" in inputs && inputs["apply_op"] == Str(name) && name in Registered
    requires "initial" in inputs && "acc_arg" in inputs && "item_arg" in inputs
    ensures Execute(Reduce, inputs) == Ok(map["out" := inputs["initial"]])
  {
    var accArg := GetArgName(inputs, "acc_arg", "a").value;
    var itemArg := GetArgName(inputs, "item_arg", "b").value;
    ReduceRuns(inputs, [], name, inputs["initial"], accArg, itemArg, Resolve(name).value);
  }

  /** Every higher-order operation reads at least three inputs before it
      applies anything, so with two inputs or fewer it always fails. */
  lemma HigherOrderNeedsThreeInputs(op: OpName, inputs: Inputs)
    requires op.HigherOrder() && |inputs| <= 2
    ensures Execute(op, inputs).Err?
  {
    if Execute(op, inputs).Ok? {
      ThreeKeys(inputs, "list", "apply_op", if op.Reduce? then "initial" else "arg");
    }
  }

  /** The applied operation is looked up before the list is visited, so an
      unknown name fails even on an empty list. */
  lemma UnknownAppliedOperation(op: OpName, inputs: Inputs, name: string)
    requires op.Map? || op.Filter?
    requires "list" in inputs && inputs["list"].Arr?
    requires "apply_op" in inputs && inputs["apply_op"] == Str(name) && name !in Registered
    requires "arg" in inputs && ("params" !in inputs || inputs["params"].Obj?)
    ensures Execute(op, inputs) == Err(UnknownOperation(name))
  {
  }

  /** The same holds of Reduce once its accumulator inputs are present. */
  lemma UnknownReducer(inputs: Inputs, name: string)
    requires "list" in inputs && inputs["list"].Arr?
    requires "apply_op" in inputs && inputs["apply_op"] == Str(name) && name !in Registered
    requires "initial" in inputs && "acc_arg" in inputs && "item_arg" in inputs
    ensures Execute(Reduce, inputs) == Err(UnknownOperation(name))
  {
  }

  // ---------------------------------------------------------------------
  // Worked examples
  // ---------------------------------------------------------------------

  const OneToFive: seq<Value> := [Num(1.0), Num(2.0), Num(3.0), Num(4.0), Num(5.0)]

  lemma AddStep(acc: real, x: real)
    ensures ReduceStep(Math(Add), "a", "b", Num(acc), Num(x)) == Ok(Num(acc + x))
  {
    MathOnNumbers(Add, map["a" := Num(acc)]["b" := Num(x)], acc, x);
  }

  /** Reducing a nonempty list is one step followed by reducing the rest. */
  lemma ReduceCons(op: OpName, accArg: string, itemArg: string, acc: Value, items: seq<Value>, next: Value)
    requires items != [] && ReduceStep(op, accArg, itemArg, acc, items[0]) == Ok(next)
    ensures ReduceItems(op, accArg, itemArg, acc, items) == ReduceItems(op, accArg, itemArg, next, items[1..])
  {
  }

  lemma SumFold()
    ensures ReduceItems(Math(Add), "a", "b", Num(0.0), OneToFive) == Ok(Num(15.0))
  {
    AddStep(0.0, 1.0);
    ReduceCons(Math(Add), "a", "b", Num(0.0), OneToFive, Num(1.0));
    AddStep(1.0, 2.0);
    ReduceCons(Math(Add), "a", "b", Num(1.0), OneToFive[1..], Num(3.0));
    AddStep(3.0, 3.0);
    ReduceCons(Math(Add), "a", "b", Num(3.0), OneToFive[2..], Num(6.0));
    AddStep(6.0, 4.0);
    ReduceCons(Math(Add), "a", "b", Num(6.0), OneToFive[3..], Num(10.0));
    AddStep(10.0, 5.0);
    ReduceCons(Math(Add), "a", "b", Num(10.0), OneToFive[4..], Num(15.0));
    assert OneToFive[1..][1..] == OneToFive[2..];
    assert OneToFive[2..][1..] == OneToFive[3..];
    assert OneToFive[3..][1..] == OneToFive[4..];
    assert OneToFive[4..][1..] == [];
  }

  /** Summing 1..5 with Reduce/Add from 0 gives 15. */
  lemma SumExample()
    ensures Execute(Reduce, map["list" := Arr(OneToFive), "apply_op" := Str("Add"), "initial" := Num(0.0),
                                "acc_arg" := Str("a"), "item_arg" := Str("b")])
         == Ok(map["out" := Num(15.0)])
  {
    SumFold();
  }

  lemma GtStep(x: real)
    ensures Applied(Logic(Gt), map["b" := Num(2.0)], "a", Num(x)) == Ok(map["out" := Bool(x > 2.0)])
  {
  }

  /** Filtering a nonempty list decides the head and filters the rest. */
  lemma {:induction false} FilterCons(op: OpName, params: map<string, Value>, arg: string, items: seq<Value>, bound: nat, keep: bool)
    requires forall k :: k in params ==> Depth(params[k]) < bound
    requires forall i :: 0 <= i < |items| ==> Depth(items[i]) < bound
    requires items != [] && Applied(op, params, arg, items[0]).Ok?
    requires keep == Keeps(Applied(op, params, arg, items[0]).value)
    ensures var rest := FilterItems(op, params, arg, items[1..], bound);
      FilterItems(op, params, arg, items, bound) ==
        if rest.Err? then rest else Ok(if keep then [items[0]] + rest.value else rest.value)
  {
  }

  lemma FilterFold(bound: nat)
    requires forall k :: k in map["b" := Num(2.0)] ==> Depth(map["b" := Num(2.0)][k]) < bound
    requires forall i :: 0 <= i < |OneToFive| ==> Depth(OneToFive[i]) < bound
    ensures FilterItems(Logic(Gt), map["b" := Num(2.0)], "a", OneToFive, bound) == Ok(OneToFive[2..])
  {
    var params := map["b" := Num(2.0)];
    assert OneToFive[4..][1..] == [];
    assert OneToFive[4..] == [Num(5.0)];
    assert FilterItems(Logic(Gt), params, "a", [], bound) == Ok([]);
    GtStep(5.0);
    FilterCons(Logic(Gt), params, "a", [Num(5.0)], bound, true);
    assert [Num(5.0)][1..] == [];
    assert [Num(5.0)] + [] == [Num(5.0)];
    assert FilterItems(Logic(Gt), params, "a", OneToFive[4..], bound) == Ok([Num(5.0)]);
    assert OneToFive[3..][1..] == OneToFive[4..];
    assert OneToFive[3..][0] == Num(4.0);
    assert [Num(4.0)] + [Num(5.0)] == [Num(4.0), Num(5.0)];
    GtStep(4.0);
    FilterCons(Logic(Gt), params, "a", OneToFive[3..], bound, true);
    assert FilterItems(Logic(Gt), params, "a", OneToFive[3..], bound) == Ok([Num(4.0), Num(5.0)]);
    assert OneToFive[2..][1..] == OneToFive[3..];
    GtStep(3.0);
    FilterCons(Logic(Gt), params, "a", OneToFive[2..], bound, true);
    assert [Num(3.0)] + [Num(4.0), Num(5.0)] == OneToFive[2..];
    assert FilterItems(Logic(Gt), params, "a", OneToFive[2..], bound) == Ok(OneToFive[2..]);
    assert OneToFive[1..][1..] == OneToFive[2..];
    GtStep(2.0);
    FilterCons(Logic(Gt), params, "a", OneToFive[1..], bound, false);
    assert FilterItems(Logic(Gt), params, "a", OneToFive[1..], bound) == Ok(OneToFive[2..]);
    GtStep(1.0);
    FilterCons(Logic(Gt), params, "a", OneToFive, bound, false);
  }

  /** Filter whose inputs parse and whose operation is registered succeeds
      exactly when its loop does; it then outputs on `out` the items the loop
      keeps, and otherwise fails with the loop's error. */
  lemma {:induction false} FilterRuns(inputs: Inputs, items: seq<Value>, name: string, arg: string,
                                      params: map<string, Value>, inner: OpName)
    requires GetList(inputs, "Filter") == Ok(items) && GetOpName(inputs, "Filter") == Ok(name)
    requires GetArgName(inputs, "arg", "a") == Ok(arg) && GetParams(inputs, "Filter") == Ok(params)
    requires Resolve(name) == Ok(inner)
    ensures (PartsShallower(inputs, items, params);
             var loop := FilterItems(inner, params, arg, items, MaxDepth(inputs));
             && (Execute(Filter, inputs).Ok? <==> loop.Ok?)
             && (loop.Ok? ==> Execute(Filter, inputs) == Ok(map["out" := Arr(loop.value)]))
             && (loop.Err? ==> Execute(Filter, inputs) == Err(loop.error)))
  {
    ThreeKeys(inputs, "list", "apply_op", "arg");
  }

  /** Keeping the elements of 1..5 greater than 2 gives [3, 4, 5]. */
  lemma FilterExample()
    ensures Execute(Filter, map["list" := Arr(OneToFive), "apply_op" := Str("Gt"), "arg" := Str("a"),
                                "params" := Obj(map["b" := Num(2.0)])])
         == Ok(map["out" := Arr([Num(3.0), Num(4.0), Num(5.0)])])
  {
    var inputs := map["list" := Arr(OneToFive), "apply_op" := Str("Gt"), "arg" := Str("a"),
                      "params" := Obj(map["b" := Num(2.0)])];
    var params := map["b" := Num(2.0)];
    assert GetList(inputs, "Filter") == Ok(OneToFive);
    assert GetOpName(inputs, "Filter") == Ok("Gt");
    assert GetArgName(inputs, "arg", "a") == Ok("a");
    assert GetParams(inputs, "Filter") == Ok(params);
    assert Resolve("Gt") == Ok(Logic(Gt));
    PartsShallower(inputs, OneToFive, params);
    FilterFold(MaxDepth(inputs));
    FilterRuns(inputs, OneToFive, "Gt", "a", params, Logic(Gt));
    assert OneToFive[2..] == [Num(3.0), Num(4.0), Num(5.0)];
  }
}
