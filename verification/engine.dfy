/** The execution engine: demand-driven, memoised evaluation of a graph's
    nodes, with cycle detection, argument type checks and return type checks. */
module Engine {
  import opened Wrappers
  import opened Json
  import opened Types
  import opened Errors
  import opened Schema
  import opened Ops
  import Keys

  /** The engine's mutable state: the value cache (node ids, and `id:port`
      for secondary outputs), the declared output types of nodes already run,
      and the ids on the current evaluation path. */
  datatype State = State(cache: map<string, Value>, typeCache: map<string, SpellType>, visiting: set<string>)

  /** A result together with the state the evaluation left behind. */
  datatype Eval<T> = Eval(result: Result<T, Error>, st: State)

  /** The outcome of `run`: each node's result in the order visited, and the final state. */
  datatype Report = Report(results: seq<(string, Result<Value, Error>)>, final: State)

  predicate ColonFree(k: string) {
    ':' !in k
  }

  /** The cache key of a secondary output port. */
  function PortKey(id: string, port: string): (k: string)
    ensures |k| == |id| + 1 + |port| && k[..|id|] == id && k[|id|] == ':' && k[|id| + 1..] == port
    ensures !ColonFree(k)
  {
    id + ":" + port
  }

  /** How a later state relates to an earlier one: cache entries are only
      added, colon-free entries never change, the path only grows, and an id
      on the path that had no value still has none. */
  ghost predicate Frame(st: State, st': State) {
    && st.cache.Keys <= st'.cache.Keys
    && (forall k :: k in st.cache && ColonFree(k) ==> st'.cache[k] == st.cache[k])
    && st.visiting <= st'.visiting
    && (forall k :: k in st.visiting && k !in st.cache && ColonFree(k) ==> k !in st'.cache)
  }

  /** The caches agree with the graph's declared return types. */
  ghost predicate Honours(g: Graph, st: State) {
    CacheMatches(g, st) && TypesDeclared(g, st)
  }

  /** Every cached node value lies within the node's declared return type. */
  ghost predicate CacheMatches(g: Graph, st: State) {
    forall k :: k in st.cache && ColonFree(k) && k in g.nodes && g.nodes[k].returnType.Some? ==>
      Matches(g.nodes[k].returnType.value, st.cache[k])
  }

  /** Every recorded output type is the node's declared return type. */
  ghost predicate TypesDeclared(g: Graph, st: State) {
    forall k :: k in st.typeCache ==> k in g.nodes && g.nodes[k].returnType == Some(st.typeCache[k])
  }

  /** Every error names where it arose: a missing id really is missing, a
      cycle is at a node of the graph, a node-level error names a node of the
      graph, and an unknown operation is really unregistered. */
  predicate Located(g: Graph, e: Error) {
    match e
    case NodeNotFound(x) => x !in g.nodes
    case CycleDetected(x) => x in g.nodes
    case UnknownOperation(op) => op !in Registered
    case MissingInput(n, _) => n in g.nodes
    case TypeMismatch(n, _, _, _) => n in g.nodes
    case InvalidValue(n, _, _, _) => n in g.nodes
    case InvalidType(n, _, _) => n in g.nodes
    case OperationError(n, _) => n in g.nodes
    case MissingTypeAnnotation(n, _) => n in g.nodes
  }

  /** The number of graph nodes not yet on the evaluation path. */
  ghost function Pending(g: Graph, st: State): nat {
    |g.nodes.Keys - st.visiting|
  }

  lemma PendingDrops(g: Graph, st: State, id: string)
    requires id in g.nodes && id !in st.visiting
    ensures Pending(g, st.(visiting := st.visiting + {id})) < Pending(g, st)
  {
    var before := g.nodes.Keys - st.visiting;
    var after := g.nodes.Keys - (st.visiting + {id});
    assert after == before - {id};
  }

  /** An operation's error, attributed to the node that ran it. */
  function Relabel(e: Error, id: string): (r: Error)
    ensures e.MissingInput? ==> r == MissingInput(id, e.port)
    ensures e.InvalidType? ==> r == InvalidType(id, e.wanted, e.found)
    ensures e.OperationError? ==> r == OperationError(id, e.reason)
    ensures e.UnknownOperation? ==> r == e
  {
    match e
    case MissingInput(_, port) => MissingInput(id, port)
    case InvalidType(_, wanted, found) => InvalidType(id, wanted, found)
    case OperationError(_, reason) => OperationError(id, reason)
    case _ => e
  }

  /** Pairs each typed argument with its name, names in ascending order. */
  function ArgList(typed: map<string, Result<TypedValue, Error>>): (r: seq<(string, Result<TypedValue, Error>)>)
    ensures |r| == |typed|
    ensures forall i :: 0 <= i < |r| ==> r[i].0 in typed && r[i].1 == typed[r[i].0]
    ensures forall k :: k in typed ==> exists i :: 0 <= i < |r| && r[i].0 == k
    ensures DistinctNames(r)
    ensures forall i, j :: 0 <= i < j < |r| ==> Keys.Below(r[i].0, r[j].0)
  {
    var ks := Keys.Ordered(typed.Keys);
    var r := Pairs(ks, typed);
    PairsCover(ks, typed, r);
    r
  }

  lemma PairsCover(ks: seq<string>, typed: map<string, Result<TypedValue, Error>>, r: seq<(string, Result<TypedValue, Error>)>)
    requires |ks| == |typed.Keys|
    requires forall k :: k in typed.Keys <==> k in ks
    requires forall i, j :: 0 <= i < j < |ks| ==> ks[i] != ks[j]
    requires forall i, j :: 0 <= i < j < |ks| ==> Keys.Below(ks[i], ks[j])
    requires forall i :: 0 <= i < |ks| ==> ks[i] in typed
    requires r == Pairs(ks, typed)
    ensures |r| == |typed|
    ensures forall i :: 0 <= i < |r| ==> r[i].0 in typed && r[i].1 == typed[r[i].0]
    ensures forall k :: k in typed ==> exists i :: 0 <= i < |r| && r[i].0 == k
    ensures DistinctNames(r)
    ensures forall i, j :: 0 <= i < j < |r| ==> Keys.Below(r[i].0, r[j].0)
  {
    assert |typed| == |typed.Keys|;
    forall k | k in typed
      ensures exists i :: 0 <= i < |r| && r[i].0 == k
    {
      assert k in ks;
      var i :| 0 <= i < |ks| && ks[i] == k;
      assert r[i].0 == k;
    }
    forall i, j | 0 <= i < j < |r| ensures r[i].0 != r[j].0 && Keys.Below(r[i].0, r[j].0) {
      assert r[i].0 == ks[i] && r[j].0 == ks[j];
    }
  }

  function Pairs(ks: seq<string>, typed: map<string, Result<TypedValue, Error>>): (r: seq<(string, Result<TypedValue, Error>)>)
    requires forall i :: 0 <= i < |ks| ==> ks[i] in typed
    ensures |r| == |ks|
    ensures forall i :: 0 <= i < |r| ==> r[i] == (ks[i], typed[ks[i]])
  {
    if ks == [] then [] else [(ks[0], typed[ks[0]])] + Pairs(ks[1..], typed)
  }

  predicate DistinctNames(args: seq<(string, Result<TypedValue, Error>)>) {
    forall i, j :: 0 <= i < j < |args| ==> args[i].0 != args[j].0
  }

  /** The type a mismatch reports for a referenced node: its declared output
      type if it has run with one, `Any` otherwise. */
  function ActualType(st: State, ref: string): SpellType {
    if ref in st.typeCache then st.typeCache[ref] else Any
  }

  /** Marking a node as visiting and then unmarking it restores the set. */
  lemma EnterLeave(visiting: set<string>, id: string)
    requires id !in visiting
    ensures (visiting + {id}) - {id} == visiting
  {
  }

  /** `Engine::execute_node` */
  function ExecuteNode(g: Graph, id: string, st: State): (r: Eval<Value>)
    ensures r.result.Ok? ==> r.st.visiting == st.visiting
    ensures r.result.Ok? ==> id in r.st.cache && r.st.cache[id] == r.result.value
    ensures id in st.cache ==> r == Eval(Ok(st.cache[id]), st)
    ensures r.result.Ok? && id !in st.cache ==>
      id in g.nodes && (g.nodes[id].returnType.Some? ==> Matches(g.nodes[id].returnType.value, r.result.value))
    decreases Pending(g, st), 0, 0
  {
    if id in st.cache then Eval(Ok(st.cache[id]), st)
    else if id in st.visiting then Eval(Err(CycleDetected(id)), st)
    else
      var st1 := st.(visiting := st.visiting + {id});
      if id !in g.nodes then Eval(Err(NodeNotFound(id)), st1)
      else
        var node := g.nodes[id];
        PendingDrops(g, st, id);
        var args := ResolveArgs(g, id, ArgList(TypedArgs(node)), map[], st1);
        if args.result.Err? then Eval(Err(args.result.error), args.st)
        else
          match Lookup(node.op)
          case None => Eval(Err(UnknownOperation(node.op)), args.st)
          case Some(op) =>
            match Execute(op, args.result.value)
            case Err(e) => Eval(Err(Relabel(e, id)), args.st)
            case Ok(outs) =>
              EnterLeave(st.visiting, id);
              Finish(id, node.returnType, outs, args.st)
  }

  /** The argument loop of `execute_node`: resolve each argument in turn,
      stopping at the first error. */
  function ResolveArgs(g: Graph, id: string, args: seq<(string, Result<TypedValue, Error>)>,
                       acc: map<string, Value>, st: State): (r: Eval<map<string, Value>>)
    ensures r.result.Ok? ==> r.st.visiting == st.visiting
    decreases Pending(g, st), 2, |args|
  {
    if args == [] then Eval(Ok(acc), st)
    else
      var key := args[0].0;
      match args[0].1
      case Err(e) =>
        Eval(Err(if e.MissingTypeAnnotation? then MissingTypeAnnotation(id, e.port) else e), st)
      case Ok(tv) =>
        var v := ResolveTypedValue(g, id, key, tv, st);
        if v.result.Err? then Eval(Err(v.result.error), v.st)
        else
          ResolveArgs(g, id, args[1..], acc[key := v.result.value], v.st)
  }

  /** `Engine::resolve_typed_value`: a reference runs the referenced node, a
      literal is taken as written; either way the value must match the
      declared type. */
  function ResolveTypedValue(g: Graph, id: string, port: string, tv: TypedValue, st: State): (r: Eval<Value>)
    ensures r.result.Ok? ==> r.st.visiting == st.visiting
    ensures r.result.Ok? ==> Matches(tv.valueType, r.result.value)
    ensures r.result.Ok? && tv.Literal? ==> r.result.value == tv.literal && r.st == st
    decreases Pending(g, st), 1, 0
  {
    var declared := tv.GetType().value;
    if tv.IsReference() then
      var ref := tv.GetReference().value;
      var res := ExecuteNode(g, ref, st);
      if res.result.Err? then res
      else if !Matches(declared, res.result.value) then
        Eval(Err(TypeMismatch(id, port, declared, ActualType(res.st, ref))), res.st)
      else res
    else
      var lit := tv.GetLiteral().value;
      if !Matches(declared, lit) then Eval(Err(InvalidValue(id, port, declared, lit)), st)
      else Eval(Ok(lit), st)
  }

  /** The tail of `execute_node`: check `out` against the declared return
      type, record the type, cache every output and leave the path. */
  function Finish(id: string, declared: Option<SpellType>, outs: Outputs, st: State): (r: Eval<Value>)
    ensures r.result.Ok? <==> "out" in outs && (declared.Some? ==> Matches(declared.value, outs["out"]))
    ensures r.result.Ok? ==> r.result.value == outs["out"] && id in r.st.cache && r.st.cache[id] == outs["out"]
    ensures r.result.Ok? ==> r.st.visiting == st.visiting - {id}
    ensures r.result.Err? ==> (r.result.error.InvalidValue? || r.result.error.OperationError?) && r.result.error.node == id
    ensures st.cache.Keys <= r.st.cache.Keys && st.visiting - {id} <= r.st.visiting
    ensures forall k :: ColonFree(k) && k != id ==>
      (k in r.st.cache <==> k in st.cache) && (k in st.cache ==> r.st.cache[k] == st.cache[k])
    ensures id in r.st.cache ==>
      (id in st.cache && r.st.cache[id] == st.cache[id])
      || ("out" in outs && r.st.cache[id] == outs["out"] && (declared.Some? ==> Matches(declared.value, outs["out"])))
    ensures r.st.typeCache == st.typeCache || (declared.Some? && r.st.typeCache == st.typeCache[id := declared.value])
  {
    if declared.Some? && "out" in outs && !Matches(declared.value, outs["out"]) then
      Eval(Err(InvalidValue(id, "out", declared.value, outs["out"])), st)
    else
      var types := if declared.Some? && "out" in outs then st.typeCache[id := declared.value] else st.typeCache;
      var main := if "out" in outs then st.cache[id := outs["out"]] else st.cache;
      var ports := map p | p in outs && p != "out" :: PortKey(id, p) := outs[p];
      var st2 := State(main + ports, types, st.visiting - {id});
      if "out" in outs then Eval(Ok(outs["out"]), st2)
      else Eval(Err(OperationError(id, "Operation produced no 'out' output")), st2)
  }

  /** The loop of `Engine::run`: each node from a fresh path, carrying the
      caches forward, continuing after errors. */
  function RunFrom(g: Graph, ids: seq<string>, st: State): (r: Report)
    ensures |r.results| == |ids|
    ensures forall i :: 0 <= i < |ids| ==> r.results[i].0 == ids[i]
    decreases |ids|
  {
    if ids == [] then Report([], st)
    else
      var e := ExecuteNode(g, ids[0], st.(visiting := {}));
      var rest := RunFrom(g, ids[1..], e.st);
      Report([(ids[0], e.result)] + rest.results, rest.final)
  }

  /** `Engine::run` on a fresh engine, nodes in ascending id order. */
  function Run(g: Graph): (r: Report)
    ensures |r.results| == |g.nodes|
    ensures forall id :: id in g.nodes <==> exists i :: 0 <= i < |r.results| && r.results[i].0 == id
    ensures forall i :: 0 <= i < |r.results| ==> r.results[i].0 in g.nodes
  {
    var ids := Keys.Ordered(g.nodes.Keys);
    var r := RunFrom(g, ids, State(map[], map[], {}));
    ReportCovers(g.nodes.Keys, ids, r.results);
    r
  }

  /** Results listed in the order of a sequence of exactly the keys report
      every key, and only keys. */
  lemma ReportCovers(keys: set<string>, ids: seq<string>, results: seq<(string, Result<Value, Error>)>)
    requires forall k :: k in keys <==> k in ids
    requires |ids| == |keys|
    requires |results| == |ids| && forall i :: 0 <= i < |ids| ==> results[i].0 == ids[i]
    ensures |results| == |keys|
    ensures forall id :: id in keys <==> exists i :: 0 <= i < |results| && results[i].0 == id
    ensures forall i :: 0 <= i < |results| ==> results[i].0 in keys
  {
    forall id | id in keys ensures exists i :: 0 <= i < |results| && results[i].0 == id {
      var i :| 0 <= i < |ids| && ids[i] == id;
      assert results[i].0 == id;
    }
  }
}
