/** Two small graphs evaluated by the engine: a two-node cycle, and a
    pipeline whose declared types hold. */
module EngineExamples {
  import opened Wrappers
  import opened Json
  import opened Types
  import opened TypeProperties
  import opened Errors
  import opened Schema
  import opened Engine
  import opened EngineProperties
  import Keys
  import Ops
  import OpsProperties

  /** An argument referring to node `id`, declared a number. */
  function RefTo(id: string): Value {
    EncodeTypedValue(Reference(id, Number))
  }

  /** `a` prints `b`'s value and `b` prints `a`'s. */
  const CycleGraph: Graph := Graph(map[
    "a" := Node("Print", None, map["in" := RefTo("b")]),
    "b" := Node("Print", None, map["in" := RefTo("a")])])

  lemma PrintOfRef(target: string)
    ensures var typed := TypedArgs(Node("Print", None, map["in" := RefTo(target)]));
      "in" in typed && typed["in"] == Ok(Reference(target, Number))
  {
    DecodeEncodeTypedValue(Reference(target, Number));
  }

  lemma CycleIsStuck()
    ensures Stuck(CycleGraph, {"a", "b"})
  {
    var S := {"a", "b"};
    PrintOfRef("a");
    PrintOfRef("b");
    assert CycleGraph.nodes["a"] == Node("Print", None, map["in" := RefTo("b")]);
    assert CycleGraph.nodes["b"] == Node("Print", None, map["in" := RefTo("a")]);
    assert DependsOn(CycleGraph, "a", S);
    assert DependsOn(CycleGraph, "b", S);
    assert ColonFree("a") && ColonFree("b");
  }

  /** Running the cycle produces no value for either node and caches nothing for them. */
  lemma CycleNeverRuns()
    ensures var r := Run(CycleGraph);
      && |r.results| == 2
      && (forall i :: 0 <= i < 2 ==> r.results[i].1.Err?)
      && "a" !in r.final.cache && "b" !in r.final.cache
  {
    CycleIsStuck();
    CycleSize();
    RunStuck(CycleGraph, {"a", "b"});
    var r := Run(CycleGraph);
    forall i | 0 <= i < 2 ensures r.results[i].1.Err? {
      assert r.results[i].0 in CycleGraph.nodes;
    }
  }

  lemma CycleSize()
    ensures |CycleGraph.nodes| == 2
  {
    assert CycleGraph.nodes.Keys == {"a", "b"};
    PairSize();
  }

  lemma PairSize()
    ensures |{"a", "b"}| == 2
  {
    assert "a" != "b";
    assert {"a", "b"} == {"a"} + {"b"};
  }

  /** A node with one well-typed argument resolves exactly that argument. */
  lemma {:induction false} OneArg(op: string, ret: Option<SpellType>, port: string, tv: TypedValue)
    requires port !in Reserved
    ensures ArgList(TypedArgs(Node(op, ret, map[port := EncodeTypedValue(tv)]))) == [(port, Ok(tv))]
  {
    var typed := TypedArgs(Node(op, ret, map[port := EncodeTypedValue(tv)]));
    DecodeEncodeTypedValue(tv);
    assert typed.Keys == {port};
    var ks := Keys.Ordered(typed.Keys);
    assert |ks| == 1 && port in ks;
    assert ks == [port];
  }

  /** A Print node whose one reference fails fails with the same error. */
  lemma {:induction false} EnterFails(g: Graph, id: string, target: string, st: State, e: Error)
    requires id in g.nodes && g.nodes[id] == Node("Print", None, map["in" := RefTo(target)])
    requires id !in st.cache && id !in st.visiting
    ensures ExecuteNode(g, target, st.(visiting := st.visiting + {id})).result == Err(e) ==>
      ExecuteNode(g, id, st).result == Err(e)
  {
    var st1 := st.(visiting := st.visiting + {id});
    if ExecuteNode(g, target, st1).result == Err(e) {
      var tv := Reference(target, Number);
      OneArg("Print", None, "in", tv);
      RefFails(g, id, "in", target, Number, st1);
      FirstArgFails(g, id, [("in", Ok(tv))], map[], st1);
      var args := ResolveArgs(g, id, ArgList(TypedArgs(g.nodes[id])), map[], st1);
      assert args.result == Err(e);
      ArgsFailVia(g, id, st);
    }
  }

  /** An uncached node whose argument loop fails fails with that error. */
  lemma {:induction false} ArgsFailVia(g: Graph, id: string, st: State)
    requires id in g.nodes && id !in st.cache && id !in st.visiting
    ensures var args := ResolveArgs(g, id, ArgList(TypedArgs(g.nodes[id])), map[], st.(visiting := st.visiting + {id}));
      args.result.Err? ==> ExecuteNode(g, id, st) == Eval(Err(args.result.error), args.st)
  {
  }

  /** A reference whose node fails resolves to that failure. */
  lemma {:induction false} RefFails(g: Graph, id: string, port: string, target: string, t: SpellType, st: State)
    ensures ExecuteNode(g, target, st).result.Err? ==>
      ResolveTypedValue(g, id, port, Reference(target, t), st).result == ExecuteNode(g, target, st).result
  {
  }

  /** The argument loop stops with the first argument's resolution error. */
  lemma {:induction false} FirstArgFails(g: Graph, id: string, args: seq<(string, Result<TypedValue, Error>)>,
                                         acc: map<string, Value>, st: State)
    requires |args| > 0 && args[0].1.Ok?
    ensures ResolveTypedValue(g, id, args[0].0, args[0].1.value, st).result.Err? ==>
      ResolveArgs(g, id, args, acc, st).result == Err(ResolveTypedValue(g, id, args[0].0, args[0].1.value, st).result.error)
  {
  }

  /** Starting at `a`, evaluation enters `b`, re-enters `a` and reports the cycle there. */
  lemma CycleDetectedAtEntry()
    ensures ExecuteNode(CycleGraph, "a", State(map[], map[], {})).result == Err(CycleDetected("a"))
  {
    var g := CycleGraph;
    var s0 := State(map[], map[], {});
    var s1 := s0.(visiting := s0.visiting + {"a"});
    var s2 := s1.(visiting := s1.visiting + {"b"});
    assert g.nodes["a"] == Node("Print", None, map["in" := RefTo("b")]);
    assert g.nodes["b"] == Node("Print", None, map["in" := RefTo("a")]);
    ReentryIsCycle(g, "a", s2);
    EnterFails(g, "b", "a", s1, CycleDetected("a"));
    EnterFails(g, "a", "b", s0, CycleDetected("a"));
  }

  /** A literal argument, declared with type `t`. */
  function LitOf(v: Value, t: SpellType): Value {
    EncodeTypedValue(Literal(v, t))
  }

  /** The constant 2, declared `Number`. */
  const ConstNode: Node := Node("Const", Some(Number), map["value" := LitOf(Num(2.0), Number)])

  /** `c` plus the literal 3, declared `Number`. */
  const AddNode: Node := Node("Add", Some(Number), map["a" := RefTo("c"), "b" := LitOf(Num(3.0), Number)])

  /** `c` is the constant 2; `s` adds 3 to it. */
  const PipeGraph: Graph := Graph(map["c" := ConstNode, "s" := AddNode])

  /** An uncached node whose arguments resolve and whose operation succeeds
      finishes with that operation's outputs. */
  lemma {:induction false} SucceedsVia(g: Graph, id: string, st: State, inputs: map<string, Value>, after: State, outs: Ops.Outputs)
    requires id in g.nodes && id !in st.cache && id !in st.visiting
    ensures && ResolveArgs(g, id, ArgList(TypedArgs(g.nodes[id])), map[], st.(visiting := st.visiting + {id}))
                 == Eval(Ok(inputs), after)
            && Ops.Lookup(g.nodes[id].op).Some?
            && Ops.Execute(Ops.Lookup(g.nodes[id].op).value, inputs) == Ok(outs)
            ==> ExecuteNode(g, id, st) == Finish(id, g.nodes[id].returnType, outs, after)
  {
  }

  /** A literal within its declared type resolves to itself. */
  lemma {:induction false} LitResolves(g: Graph, id: string, port: string, v: Value, t: SpellType, st: State)
    requires Matches(t, v)
    ensures ResolveTypedValue(g, id, port, Literal(v, t), st) == Eval(Ok(v), st)
  {
  }

  /** Evaluating a node `c` holding the constant 2, from any state that has
      not seen it, yields 2 and caches it. */
  lemma {:induction false} ConstRuns(g: Graph, st: State)
    requires "c" in g.nodes && g.nodes["c"] == ConstNode
    requires "c" !in st.cache && "c" !in st.visiting
    ensures var r := ExecuteNode(g, "c", st);
      r.result == Ok(Num(2.0)) && r.st.visiting == st.visiting && r.st.cache["c"] == Num(2.0)
  {
    var lit := Literal(Num(2.0), Number);
    var one: seq<(string, Result<TypedValue, Error>)> := [("value", Ok(lit))];
    OneArg("Const", Some(Number), "value", lit);
    var st1 := st.(visiting := st.visiting + {"c"});
    LitResolves(g, "c", "value", Num(2.0), Number, st1);
    ArgStep(g, "c", "value", lit, [], map[], st1);
    assert one + [] == one;
    assert Ops.Lookup("Const") == Some(Ops.Const);
    OpsProperties.PassThrough(map["value" := Num(2.0)]);
    SucceedsVia(g, "c", st, map["value" := Num(2.0)], st1, map["out" := Num(2.0)]);
    FinishOut("c", Number, Num(2.0), st1);
    assert st1.visiting - {"c"} == st.visiting;
  }

  /** The argument list of `s`: the reference `a` first, then the literal `b`. */
  lemma AddArgs()
    ensures ArgList(TypedArgs(AddNode)) ==
      [("a", Ok(Reference("c", Number))), ("b", Ok(Literal(Num(3.0), Number)))]
  {
    AddTyped();
    ArgsAB(TypedArgs(AddNode), Ok(Reference("c", Number)), Ok(Literal(Num(3.0), Number)));
  }

  /** Arguments named `a` and `b` are resolved in that order. */
  lemma {:induction false} ArgsAB(t: map<string, Result<TypedValue, Error>>, x: Result<TypedValue, Error>, y: Result<TypedValue, Error>)
    requires t == map["a" := x, "b" := y]
    ensures ArgList(t) == [("a", x), ("b", y)]
  {
    assert t.Keys == {"a", "b"} && |t| == 2;
    var r := ArgList(t);
    NamesAB(r[0].0, r[1].0);
  }

  /** Two distinct names from `a` and `b`, in ascending order, are `a` then `b`. */
  lemma NamesAB(p: string, q: string)
    requires p in {"a", "b"} && q in {"a", "b"} && p != q && Keys.Below(p, q)
    ensures p == "a" && q == "b"
  {
    assert !Keys.Below("b", "a");
  }

  lemma AddTyped()
    ensures TypedArgs(AddNode) == map["a" := Ok(Reference("c", Number)), "b" := Ok(Literal(Num(3.0), Number))]
  {
    DecodeEncodeTypedValue(Reference("c", Number));
    DecodeEncodeTypedValue(Literal(Num(3.0), Number));
  }

  /** Evaluating `s` from a fresh engine runs `c` on demand and yields 2 + 3. */
  lemma PipelineAdds()
    ensures ExecuteNode(PipeGraph, "s", State(map[], map[], {})).result == Ok(Num(5.0))
  {
    assert "c" in PipeGraph.nodes && PipeGraph.nodes["c"] == ConstNode;
    assert "s" in PipeGraph.nodes && PipeGraph.nodes["s"] == AddNode;
    AddRuns(PipeGraph);
  }

  /** In any graph holding these two nodes, `s` evaluates to 5. */
  lemma {:induction false} AddRuns(g: Graph)
    requires "c" in g.nodes && g.nodes["c"] == ConstNode
    requires "s" in g.nodes && g.nodes["s"] == AddNode
    ensures ExecuteNode(g, "s", State(map[], map[], {})).result == Ok(Num(5.0))
  {
    var s0 := State(map[], map[], {});
    var s1 := State(map[], map[], {"s"});
    assert s0.(visiting := s0.visiting + {"s"}) == s1;
    AddArgs();
    ConstRuns(g, s1);
    var after := ExecuteNode(g, "c", s1).st;
    var inputs := map["a" := Num(2.0), "b" := Num(3.0)];
    ResolveAddArgs(g, s1);
    AddsToFive(inputs);
    SucceedsVia(g, "s", s0, inputs, after, map["out" := Num(5.0)]);
    FinishOut("s", Number, Num(5.0), after);
  }

  /** A lone `out` within the declared type finishes with that value. */
  lemma FinishOut(id: string, t: SpellType, v: Value, st: State)
    requires Matches(t, v)
    ensures Finish(id, Some(t), map["out" := v], st).result == Ok(v)
  {
    assert "out" in map["out" := v];
  }

  lemma AddsToFive(inputs: map<string, Value>)
    requires inputs == map["a" := Num(2.0), "b" := Num(3.0)]
    ensures Ops.Lookup("Add") == Some(Ops.Math(Ops.Add))
    ensures Ops.Execute(Ops.Math(Ops.Add), inputs) == Ok(map["out" := Num(5.0)])
  {
    OpsProperties.MathOnNumbers(Ops.Add, inputs, 2.0, 3.0);
    assert 2.0 + 3.0 == 5.0;
  }

  /** One step of the argument loop on a resolvable argument. */
  lemma {:induction false} ArgStep(g: Graph, id: string, key: string, tv: TypedValue,
                rest: seq<(string, Result<TypedValue, Error>)>, acc: map<string, Value>, st: State)
    requires ResolveTypedValue(g, id, key, tv, st).result.Ok?
    ensures var v := ResolveTypedValue(g, id, key, tv, st);
      ResolveArgs(g, id, [(key, Ok(tv))] + rest, acc, st) == ResolveArgs(g, id, rest, acc[key := v.result.value], v.st)
  {
    assert ([(key, Ok(tv))] + rest)[1..] == rest;
  }

  /** A reference whose node yields a value of the declared type resolves to that evaluation. */
  lemma {:induction false} RefResolves(g: Graph, id: string, port: string, target: string, t: SpellType, st: State)
    requires ExecuteNode(g, target, st).result.Ok? && Matches(t, ExecuteNode(g, target, st).result.value)
    ensures ResolveTypedValue(g, id, port, Reference(target, t), st) == ExecuteNode(g, target, st)
  {
  }

  /** Resolving the arguments of `s` runs `c` and then takes the literal. */
  lemma {:induction false} ResolveAddArgs(g: Graph, s1: State)
    requires ExecuteNode(g, "c", s1).result == Ok(Num(2.0))
    ensures ResolveArgs(g, "s", [("a", Ok(Reference("c", Number))), ("b", Ok(Literal(Num(3.0), Number)))], map[], s1)
      == Eval(Ok(map["a" := Num(2.0), "b" := Num(3.0)]), ExecuteNode(g, "c", s1).st)
  {
    var after := ExecuteNode(g, "c", s1).st;
    var ref := Reference("c", Number);
    var lit := Literal(Num(3.0), Number);
    var first: seq<(string, Result<TypedValue, Error>)> := [("a", Ok(ref))];
    var second: seq<(string, Result<TypedValue, Error>)> := [("b", Ok(lit))];
    assert [("a", Ok(ref)), ("b", Ok(lit))] == first + second;
    assert second == second + [];
    RefResolves(g, "s", "a", "c", Number, s1);
    ArgStep(g, "s", "a", ref, second, map[], s1);
    LitResolves(g, "s", "b", Num(3.0), Number, after);
    ArgStep(g, "s", "b", lit, [], map["a" := Num(2.0)], after);
  }
}
