/** The operation registry: a closed set of named operations over JSON
    values, each taking a map of named inputs to a map of named outputs. */
module Ops {
  import opened Wrappers
  import opened Json
  import opened Errors

  datatype MathOp = Add | Sub | Mul | Div

  datatype LogicOp = Eq | Gt | Lt

  datatype OpName =
    | Const
    | Print
    | Math(math: MathOp)
    | Logic(logic: LogicOp)
    | Switch
    | Map
    | Reduce
    | Len
    | Filter
  {
    /** The operations that apply another operation per list element. */
    predicate HigherOrder() {
      Map? || Reduce? || Filter?
    }
  }

  /** The registered name of each operation. */
  function Name(op: OpName): string {
    match op
    case Const => "Const"
    case Print => "Print"
    case Math(Add) => "Add"
    case Math(Sub) => "Sub"
    case Math(Mul) => "Mul"
    case Math(Div) => "Div"
    case Logic(Eq) => "Eq"
    case Logic(Gt) => "Gt"
    case Logic(Lt) => "Lt"
    case Switch => "Switch"
    case Map => "Map"
    case Reduce => "Reduce"
    case Len => "Len"
    case Filter => "Filter"
  }

  const Registered: set<string> :=
    {"Const", "Print", "Add", "Sub", "Mul", "Div", "Eq", "Gt", "Lt",
     "Switch", "Map", "Reduce", "Len", "Filter"}

  /** `Ops::get`: the operation registered under a name, if any. */
  function Lookup(name: string): (r: Option<OpName>)
    ensures r.Some? <==> name in Registered
    ensures r.Some? ==> Name(r.value) == name
  {
    match name
    case "Const" => Some(Const)
    case "Print" => Some(Print)
    case "Add" => Some(Math(Add))
    case "Sub" => Some(Math(Sub))
    case "Mul" => Some(Math(Mul))
    case "Div" => Some(Math(Div))
    case "Eq" => Some(Logic(Eq))
    case "Gt" => Some(Logic(Gt))
    case "Lt" => Some(Logic(Lt))
    case "Switch" => Some(Switch)
    case "Map" => Some(Map)
    case "Reduce" => Some(Reduce)
    case "Len" => Some(Len)
    case "Filter" => Some(Filter)
    case _ => None
  }

  type Inputs = map<string, Value>

  type Outputs = map<string, Value>

  // ---------------------------------------------------------------------
  // Input extraction. Errors name the node "unknown" (or the operation);
  // the engine relabels them with the executing node's id.
  // ---------------------------------------------------------------------

  /** `get_input` */
  function GetInput(inputs: Inputs, name: string): (r: Result<Value, Error>)
    ensures r.Ok? <==> name in inputs
    ensures r.Ok? ==> r.value == inputs[name]
    ensures r.Err? ==> r.error == MissingInput("unknown", name)
  {
    if name in inputs then Ok(inputs[name]) else Err(MissingInput("unknown", name))
  }

  /** `get_f64` */
  function GetNumber(inputs: Inputs, name: string): (r: Result<real, Error>)
    ensures r.Ok? <==> name in inputs && inputs[name].Num?
    ensures r.Ok? ==> inputs[name] == Num(r.value)
    ensures name in inputs && !inputs[name].Num? ==> r == Err(InvalidType("unknown", "number", Debug(inputs[name])))
  {
    var v :- GetInput(inputs, name);
    match AsNum(v)
    case Some(n) => Ok(n)
    case None => Err(InvalidType("unknown", "number", Debug(v)))
  }

  /** `get_bool` */
  function GetBool(inputs: Inputs, name: string): (r: Result<bool, Error>)
    ensures r.Ok? <==> name in inputs && inputs[name].Bool?
    ensures r.Ok? ==> inputs[name] == Bool(r.value)
    ensures name in inputs && !inputs[name].Bool? ==> r == Err(InvalidType("unknown", "boolean", Debug(inputs[name])))
  {
    var v :- GetInput(inputs, name);
    match AsBool(v)
    case Some(b) => Ok(b)
    case None => Err(InvalidType("unknown", "boolean", Debug(v)))
  }

  /** The `list` input of Map, Reduce, Len and Filter. */
  function GetList(inputs: Inputs, node: string): (r: Result<seq<Value>, Error>)
    ensures r.Ok? <==> "list" in inputs && inputs["list"].Arr?
    ensures r.Ok? ==> inputs["list"] == Arr(r.value)
  {
    var v :- GetInput(inputs, "list");
    match AsArray(v)
    case Some(items) => Ok(items)
    case None => Err(InvalidType(node, "array", Text("non-array")))
  }

  /** The `apply_op` input: the name of the operation to apply. */
  function GetOpName(inputs: Inputs, node: string): (r: Result<string, Error>)
    ensures r.Ok? <==> "apply_op" in inputs && inputs["apply_op"].Str?
    ensures r.Ok? ==> inputs["apply_op"] == Str(r.value)
  {
    var v :- GetInput(inputs, "apply_op");
    match AsStr(v)
    case Some(s) => Ok(s)
    case None => Err(InvalidType(node, "string (op name)", Text("non-string")))
  }

  /** A required input that names an argument; a non-string falls back to `default`. */
  function GetArgName(inputs: Inputs, name: string, default: string): (r: Result<string, Error>)
    ensures r.Ok? <==> name in inputs
    ensures r.Ok? ==> r.value == (if inputs[name].Str? then inputs[name].s else default)
  {
    var v :- GetInput(inputs, name);
    Ok(match AsStr(v) case Some(s) => s case None => default)
  }

  /** The optional `params` object of Map and Filter. */
  function GetParams(inputs: Inputs, node: string): (r: Result<map<string, Value>, Error>)
    ensures r.Ok? <==> "params" !in inputs || inputs["params"].Obj?
    ensures r.Ok? && "params" in inputs ==> inputs["params"] == Obj(r.value)
    ensures r.Ok? && "params" !in inputs ==> r.value == map[]
  {
    if "params" in inputs then
      match AsObject(inputs["params"])
      case Some(fields) => Ok(fields)
      case None => Err(InvalidType(node, "object (params)", Text("non-object")))
    else Ok(map[])
  }

  /** The operation named by `apply_op`, looked up before any element is visited. */
  function Resolve(name: string): (r: Result<OpName, Error>)
    ensures r.Ok? <==> Lookup(name).Some?
    ensures r.Ok? ==> Lookup(name) == Some(r.value)
    ensures r.Err? ==> r.error == UnknownOperation(name)
  {
    match Lookup(name)
    case Some(op) => Ok(op)
    case None => Err(UnknownOperation(name))
  }

  /** What a higher-order operation takes from an applied operation's outputs. */
  function OutOrNull(outs: Outputs): Value {
    if "out" in outs then outs["out"] else Null
  }

  /** Filter keeps an item exactly when the applied operation's `out` is `true`. */
  predicate Keeps(outs: Outputs) {
    "out" in outs && outs["out"] == Bool(true)
  }

  /** The errors an operation can raise; an unknown operation is one that is
      indeed not registered. */
  predicate OpError(e: Error) {
    e.MissingInput? || e.InvalidType? || e.OperationError? || (e.UnknownOperation? && e.op !in Registered)
  }

  /** Output ports: `out` always, `true`/`false` only for a routing Switch. */
  predicate PortsOk(outs: Outputs) {
    "out" in outs && forall p :: p in outs ==> p in {"out", "true", "false"}
  }

  // ---------------------------------------------------------------------
  // Termination measure for applying operations to parts of the inputs
  // ---------------------------------------------------------------------

  /** A higher-order operation needs at least three inputs before it applies
      anything, so inputs of at most two entries are measured 0. */
  ghost function Measure(inputs: Inputs): nat {
    if |inputs| <= 2 then 0 else 1 + MaxDepth(inputs)
  }

  lemma ThreeKeys(inputs: Inputs, a: string, b: string, c: string)
    requires a in inputs && b in inputs && c in inputs
    requires a != b && b != c && a != c
    ensures |inputs| >= 3
  {
    var k0 := inputs.Keys;
    var k1 := k0 - {a};
    var k2 := k1 - {b};
    assert |k1| == |k0| - 1;
    assert |k2| == |k1| - 1;
    assert c in k2;
    assert |k0| == |inputs|;
  }

  lemma TwoKeys(m: Inputs, a: string, x: Value, b: string, y: Value)
    ensures |m[a := x][b := y]| <= 2 || |m| > 0
  {
    if |m| == 0 {
      assert m == map[];
      assert m[a := x][b := y].Keys <= {a, b};
    }
  }

  lemma MeasureOfPairIsZero(a: string, x: Value, b: string, y: Value)
    ensures Measure(map[a := x][b := y]) == 0
  {
    assert (map[a := x][b := y]).Keys <= {a, b};
  }

  /** Everything a Map or Filter passes on is shallower than its inputs. */
  lemma PartsShallower(inputs: Inputs, items: seq<Value>, params: map<string, Value>)
    requires "list" in inputs && inputs["list"] == Arr(items)
    requires ("params" in inputs && inputs["params"] == Obj(params)) || params == map[]
    ensures forall i :: 0 <= i < |items| ==> Depth(items[i]) < MaxDepth(inputs)
    ensures forall k :: k in params ==> Depth(params[k]) < MaxDepth(inputs)
  {
    MaxDepthBounds(inputs, "list");
    forall i | 0 <= i < |items| ensures Depth(items[i]) < MaxDepth(inputs) {
      ElementShallower(items, i);
    }
    if params != map[] {
      MaxDepthBounds(inputs, "params");
      forall k | k in params ensures Depth(params[k]) < MaxDepth(inputs) {
        FieldShallower(params, k);
      }
    }
  }

  lemma StepBelow(params: map<string, Value>, arg: string, item: Value, bound: nat)
    requires forall k :: k in params ==> Depth(params[k]) < bound
    requires Depth(item) < bound
    ensures Measure(params[arg := item]) <= bound
  {
    var m := params[arg := item];
    MaxDepthBelow(m, bound);
  }

  // ---------------------------------------------------------------------
  // Execution
  // ---------------------------------------------------------------------

  /** `Operation::execute` for every registered operation. */
  function Execute(op: OpName, inputs: Inputs): (r: Result<Outputs, Error>)
    ensures r.Ok? ==> PortsOk(r.value)
    ensures r.Err? ==> OpError(r.error)
    decreases Measure(inputs), 1, 0
  {
    match op
    case Const =>
      var v :- GetInput(inputs, "value");
      Ok(map["out" := v])
    case Print =>
      var v :- GetInput(inputs, "in");
      Ok(map["out" := v])
    case Math(m) =>
      var a :- GetNumber(inputs, "a");
      var b :- GetNumber(inputs, "b");
      if m == Div && b == 0.0 then Err(OperationError("unknown", "Division by zero"))
      else Ok(map["out" := Num(Arith(m, a, b))])
    case Logic(l) =>
      var a :- GetInput(inputs, "a");
      var b :- GetInput(inputs, "b");
      if a.Num? && b.Num? then Ok(map["out" := Bool(Compare(l, a.n, b.n))])
      else if l == Eq then Ok(map["out" := Bool(a == b)])
      else Err(InvalidType("unknown", "comparable numbers", Text("mixed/non-numeric types")))
    case Switch =>
      var cond :- GetBool(inputs, "cond");
      if "true" in inputs && "false" in inputs then
        Ok(map["out" := if cond then inputs["true"] else inputs["false"]])
      else
        var data :- GetInput(inputs, "data");
        Ok(map[(if cond then "true" else "false") := data, "out" := data])
    case Map =>
      var items :- GetList(inputs, "Map");
      var name :- GetOpName(inputs, "Map");
      var arg :- GetArgName(inputs, "arg", "in");
      var params :- GetParams(inputs, "Map");
      var inner :- Resolve(name);
      ThreeKeys(inputs, "list", "apply_op", "arg");
      PartsShallower(inputs, items, params);
      var outs :- MapItems(inner, params, arg, items, MaxDepth(inputs));
      Ok(map["out" := Arr(outs)])
    case Reduce =>
      var items :- GetList(inputs, "Reduce");
      var name :- GetOpName(inputs, "Reduce");
      var initial :- GetInput(inputs, "initial");
      var accArg :- GetArgName(inputs, "acc_arg", "a");
      var itemArg :- GetArgName(inputs, "item_arg", "b");
      var inner :- Resolve(name);
      ThreeKeys(inputs, "list", "apply_op", "initial");
      var acc :- ReduceItems(inner, accArg, itemArg, initial, items);
      Ok(map["out" := acc])
    case Len =>
      var items :- GetList(inputs, "Len");
      Ok(map["out" := Num(|items| as real)])
    case Filter =>
      var items :- GetList(inputs, "Filter");
      var name :- GetOpName(inputs, "Filter");
      var arg :- GetArgName(inputs, "arg", "a");
      var params :- GetParams(inputs, "Filter");
      var inner :- Resolve(name);
      ThreeKeys(inputs, "list", "apply_op", "arg");
      PartsShallower(inputs, items, params);
      var kept :- FilterItems(inner, params, arg, items, MaxDepth(inputs));
      Ok(map["out" := Arr(kept)])
  }

  function Arith(m: MathOp, a: real, b: real): real
    requires m == Div ==> b != 0.0
  {
    match m
    case Add => a + b
    case Sub => a - b
    case Mul => a * b
    case Div => a / b
  }

  function Compare(l: LogicOp, a: real, b: real): bool {
    match l
    case Eq => a == b
    case Gt => a > b
    case Lt => a < b
  }

  /** Map's loop: apply `op` to `params` with `arg` bound to each item, in
      order, collecting each `out` (`null` if there is none). */
  function MapItems(op: OpName, params: map<string, Value>, arg: string, items: seq<Value>, ghost bound: nat)
    : (r: Result<seq<Value>, Error>)
    requires forall k :: k in params ==> Depth(params[k]) < bound
    requires forall i :: 0 <= i < |items| ==> Depth(items[i]) < bound
    ensures r.Ok? ==> |r.value| == |items|
    ensures r.Err? ==> OpError(r.error)
    decreases bound, 2, |items|
  {
    if items == [] then Ok([])
    else
      StepBelow(params, arg, items[0], bound);
      var outs :- Execute(op, params[arg := items[0]]);
      var rest :- MapItems(op, params, arg, items[1..], bound);
      Ok([OutOrNull(outs)] + rest)
  }

  /** Filter's loop: keep the items for which the applied `out` is `true`. */
  function FilterItems(op: OpName, params: map<string, Value>, arg: string, items: seq<Value>, ghost bound: nat)
    : (r: Result<seq<Value>, Error>)
    requires forall k :: k in params ==> Depth(params[k]) < bound
    requires forall i :: 0 <= i < |items| ==> Depth(items[i]) < bound
    ensures r.Ok? ==> |r.value| <= |items|
    ensures r.Err? ==> OpError(r.error)
    decreases bound, 2, |items|
  {
    if items == [] then Ok([])
    else
      StepBelow(params, arg, items[0], bound);
      var outs :- Execute(op, params[arg := items[0]]);
      var rest :- FilterItems(op, params, arg, items[1..], bound);
      Ok(if Keeps(outs) then [items[0]] + rest else rest)
  }

  /** Reduce's loop: the accumulator bound to `accArg` and the item to `itemArg`. */
  function ReduceItems(op: OpName, accArg: string, itemArg: string, acc: Value, items: seq<Value>)
    : (r: Result<Value, Error>)
    ensures r.Err? ==> OpError(r.error)
    decreases 0, 2, |items|
  {
    if items == [] then Ok(acc)
    else
      MeasureOfPairIsZero(accArg, acc, itemArg, items[0]);
      var outs :- Execute(op, map[accArg := acc][itemArg := items[0]]);
      ReduceItems(op, accArg, itemArg, OutOrNull(outs), items[1..])
  }
}
