/** What evaluation promises about the engine state and about its results:
    memoised values never change, nodes on the current path stay unevaluated,
    the caches agree with declared return types, every error is located, and
    nodes that can only be reached through a cycle never produce a value. */
module EngineProperties {
  import opened Wrappers
  import opened Json
  import opened Types
  import opened Errors
  import opened Schema
  import opened Ops
  import opened Engine
  import Keys

  // ---------------------------------------------------------------------
  // Single steps of execute_node and resolve_typed_value
  // ---------------------------------------------------------------------

  /** Re-entering an id on the current path is a cycle. */
  lemma ReentryIsCycle(g: Graph, id: string, st: State)
    requires id !in st.cache && id in st.visiting
    ensures ExecuteNode(g, id, st) == Eval(Err(CycleDetected(id)), st)
  {
  }

  /** An uncached id that is not in the graph is not found; it stays on the path. */
  lemma MissingNodeNotFound(g: Graph, id: string, st: State)
    requires id !in st.cache && id !in st.visiting && id !in g.nodes
    ensures ExecuteNode(g, id, st) == Eval(Err(NodeNotFound(id)), st.(visiting := st.visiting + {id}))
  {
  }

  /** A literal that does not match its declared type is an invalid value on
      that port, and nothing else happens. */
  lemma LiteralMismatch(g: Graph, id: string, port: string, lit: Value, t: SpellType, st: State)
    requires !Matches(t, lit)
    ensures ResolveTypedValue(g, id, port, Literal(lit, t), st) == Eval(Err(InvalidValue(id, port, t, lit)), st)
  {
  }

  /** An `out` outside the declared return type is an invalid value on port
      `out`, and the state is left as it was: nothing is cached. */
  lemma ReturnMismatchNotCached(id: string, t: SpellType, outs: Outputs, st: State)
    requires "out" in outs && !Matches(t, outs["out"])
    ensures Finish(id, Some(t), outs, st) == Eval(Err(InvalidValue(id, "out", t, outs["out"])), st)
  {
  }

  /** On success `out` is cached under the id and every other port under
      `id:port`, the declared type is recorded, and the id leaves the path. */
  lemma SuccessCachesOutputs(id: string, declared: Option<SpellType>, outs: Outputs, st: State)
    requires Finish(id, declared, outs, st).result.Ok?
    ensures var fin := Finish(id, declared, outs, st).st;
      && id in fin.cache && fin.cache[id] == outs["out"]
      && (forall p :: p in outs && p != "out" ==> PortKey(id, p) in fin.cache && fin.cache[PortKey(id, p)] == outs[p])
      && fin.typeCache == (if declared.Some? then st.typeCache[id := declared.value] else st.typeCache)
      && fin.visiting == st.visiting - {id}
  {
    var fin := Finish(id, declared, outs, st).st;
    forall p | p in outs && p != "out" ensures PortKey(id, p) in fin.cache && fin.cache[PortKey(id, p)] == outs[p] {
      assert PortKey(id, p) != id;
    }
  }

  lemma FrameTransitive(a: State, b: State, c: State)
    requires Frame(a, b) && Frame(b, c)
    ensures Frame(a, c)
  {
  }

  /** Entering a node keeps the frame: the cache is untouched. */
  lemma FrameEnter(st: State, id: string)
    ensures Frame(st, st.(visiting := st.visiting + {id}))
  {
  }

  /** The step from the state before a fresh node ran to the state after its
      outputs were cached. */
  lemma FinishFrame(st: State, mid: State, id: string, declared: Option<SpellType>, outs: Outputs)
    requires id !in st.cache && id !in st.visiting
    requires Frame(st.(visiting := st.visiting + {id}), mid)
    ensures Frame(st, Finish(id, declared, outs, mid).st)
  {
    var fin := Finish(id, declared, outs, mid);
    var st1 := st.(visiting := st.visiting + {id});
    assert ColonFree(id) ==> id !in mid.cache by {
      if ColonFree(id) { assert id in st1.visiting && id !in st1.cache; }
    }
    forall k | k in st.cache && ColonFree(k) ensures fin.st.cache[k] == st.cache[k] {
      assert k != id;
    }
    forall k | k in st.visiting && k !in st.cache && ColonFree(k) ensures k !in fin.st.cache {
      assert k != id && k in st1.visiting;
    }
    if fin.result.Ok? {
      assert st.visiting <= fin.st.visiting;
    } else {
      assert st.visiting <= mid.visiting - {id};
    }
  }

  /** Evaluating a node only adds cache entries, never changes a colon-free
      one, only grows the path, and never caches an id already on the path. */
  lemma {:induction false} ExecuteNodeFrame(g: Graph, id: string, st: State)
    ensures Frame(st, ExecuteNode(g, id, st).st)
    decreases Pending(g, st), 0, 0
  {
    if id !in st.cache && id !in st.visiting {
      var st1 := st.(visiting := st.visiting + {id});
      FrameEnter(st, id);
      if id in g.nodes {
        var node := g.nodes[id];
        PendingDrops(g, st, id);
        var args := ResolveArgs(g, id, ArgList(TypedArgs(node)), map[], st1);
        ResolveArgsFrame(g, id, ArgList(TypedArgs(node)), map[], st1);
        FrameTransitive(st, st1, args.st);
        var e := ExecuteNode(g, id, st);
        if args.result.Ok? && Lookup(node.op).Some? && Execute(Lookup(node.op).value, args.result.value).Ok? {
          var outs := Execute(Lookup(node.op).value, args.result.value).value;
          FinishFrame(st, args.st, id, node.returnType, outs);
          assert e.st == Finish(id, node.returnType, outs, args.st).st;
        } else {
          assert e.st == args.st;
        }
      }
    }
  }

  lemma {:induction false} ResolveArgsFrame(g: Graph, id: string, args: seq<(string, Result<TypedValue, Error>)>,
                                            acc: map<string, Value>, st: State)
    ensures Frame(st, ResolveArgs(g, id, args, acc, st).st)
    decreases Pending(g, st), 2, |args|
  {
    if args != [] && args[0].1.Ok? {
      var v := ResolveTypedValue(g, id, args[0].0, args[0].1.value, st);
      ResolveTypedValueFrame(g, id, args[0].0, args[0].1.value, st);
      if v.result.Ok? {
        ResolveArgsFrame(g, id, args[1..], acc[args[0].0 := v.result.value], v.st);
        FrameTransitive(st, v.st, ResolveArgs(g, id, args[1..], acc[args[0].0 := v.result.value], v.st).st);
      }
    }
  }

  lemma {:induction false} ResolveTypedValueFrame(g: Graph, id: string, port: string, tv: TypedValue, st: State)
    ensures Frame(st, ResolveTypedValue(g, id, port, tv, st).st)
    decreases Pending(g, st), 1, 0
  {
    if tv.Reference? {
      ExecuteNodeFrame(g, tv.reference, st);
    }
  }

  // ---------------------------------------------------------------------
  // The caches agree with the declared return types
  // ---------------------------------------------------------------------

  lemma FinishHonours(g: Graph, id: string, outs: Outputs, st: State)
    requires id in g.nodes && Honours(g, st)
    ensures Honours(g, Finish(id, g.nodes[id].returnType, outs, st).st)
  {
  }

  /** Evaluation keeps every cached colon-free node value within the node's
      declared return type, and every recorded type equal to the declared one. */
  lemma {:induction false} ExecuteNodeHonours(g: Graph, id: string, st: State)
    requires Honours(g, st)
    ensures Honours(g, ExecuteNode(g, id, st).st)
    decreases Pending(g, st), 0, 0
  {
    if id !in st.cache && id !in st.visiting && id in g.nodes {
      var st1 := st.(visiting := st.visiting + {id});
      var node := g.nodes[id];
      PendingDrops(g, st, id);
      var args := ResolveArgs(g, id, ArgList(TypedArgs(node)), map[], st1);
      ResolveArgsHonours(g, id, ArgList(TypedArgs(node)), map[], st1);
      var e := ExecuteNode(g, id, st);
      if args.result.Ok? && Lookup(node.op).Some? && Execute(Lookup(node.op).value, args.result.value).Ok? {
        var outs := Execute(Lookup(node.op).value, args.result.value).value;
        FinishHonours(g, id, outs, args.st);
        assert e.st == Finish(id, node.returnType, outs, args.st).st;
      } else {
        assert e.st == args.st;
      }
    }
  }

  lemma {:induction false} ResolveArgsHonours(g: Graph, id: string, args: seq<(string, Result<TypedValue, Error>)>,
                                              acc: map<string, Value>, st: State)
    requires Honours(g, st)
    ensures Honours(g, ResolveArgs(g, id, args, acc, st).st)
    decreases Pending(g, st), 2, |args|
  {
    if args != [] && args[0].1.Ok? {
      var v := ResolveTypedValue(g, id, args[0].0, args[0].1.value, st);
      ResolveTypedValueHonours(g, id, args[0].0, args[0].1.value, st);
      if v.result.Ok? {
        ResolveArgsHonours(g, id, args[1..], acc[args[0].0 := v.result.value], v.st);
      }
    }
  }

  lemma {:induction false} ResolveTypedValueHonours(g: Graph, id: string, port: string, tv: TypedValue, st: State)
    requires Honours(g, st)
    ensures Honours(g, ResolveTypedValue(g, id, port, tv, st).st)
    decreases Pending(g, st), 1, 0
  {
    if tv.Reference? {
      ExecuteNodeHonours(g, tv.reference, st);
    }
  }

  /** A node's value, computed or cached, lies within its declared return type. */
  lemma ExecuteNodeMatchesReturns(g: Graph, id: string, st: State)
    requires CacheMatches(g, st) && ColonFree(id)
    ensures var r := ExecuteNode(g, id, st);
      r.result.Ok? && id in g.nodes && g.nodes[id].returnType.Some? ==>
        Matches(g.nodes[id].returnType.value, r.result.value)
  {
  }

  lemma ActualTypeDeclared(g: Graph, st: State, ref: string)
    requires TypesDeclared(g, st)
    ensures ActualType(st, ref) == Any || (ref in g.nodes && g.nodes[ref].returnType == Some(ActualType(st, ref)))
  {
  }

  /** A reference whose value does not match its declared type fails with a
      mismatch at this node and port, reporting the referenced node's declared
      return type, or `Any` when it has not run with one. */
  lemma MismatchReportsDeclaredType(g: Graph, id: string, port: string, tv: TypedValue, st: State)
    requires Honours(g, st) && tv.Reference?
    ensures var res := ExecuteNode(g, tv.reference, st);
      res.result.Ok? && !Matches(tv.valueType, res.result.value) ==>
        var actual := ActualType(res.st, tv.reference);
        && ResolveTypedValue(g, id, port, tv, st).result == Err(TypeMismatch(id, port, tv.valueType, actual))
        && (actual == Any || (tv.reference in g.nodes && g.nodes[tv.reference].returnType == Some(actual)))
  {
    var res := ExecuteNode(g, tv.reference, st);
    ExecuteNodeHonours(g, tv.reference, st);
    ActualTypeDeclared(g, res.st, tv.reference);
  }

  // ---------------------------------------------------------------------
  // Errors are located
  // ---------------------------------------------------------------------

  /** The arguments of a node: every one that fails to deserialise is a
      missing type annotation. */
  lemma ArgErrorsAreAnnotations(node: Node)
    ensures var args := ArgList(TypedArgs(node));
      forall i :: 0 <= i < |args| && args[i].1.Err? ==> args[i].1.error.MissingTypeAnnotation?
  {
  }

  /** Every error of an evaluation names where it arose (see `Located`),
      provided the path so far lies inside the graph. */
  lemma {:induction false} ExecuteNodeLocated(g: Graph, id: string, st: State)
    requires st.visiting <= g.nodes.Keys
    ensures ExecuteNode(g, id, st).result.Err? ==> Located(g, ExecuteNode(g, id, st).result.error)
    decreases Pending(g, st), 0, 0
  {
    if id !in st.cache && id !in st.visiting && id in g.nodes {
      var st1 := st.(visiting := st.visiting + {id});
      var node := g.nodes[id];
      PendingDrops(g, st, id);
      ArgErrorsAreAnnotations(node);
      var args := ResolveArgs(g, id, ArgList(TypedArgs(node)), map[], st1);
      ResolveArgsLocated(g, id, ArgList(TypedArgs(node)), map[], st1);
      if args.result.Ok? && Lookup(node.op).Some? {
        var res := Execute(Lookup(node.op).value, args.result.value);
        if res.Err? {
          RelabelLocated(g, res.error, id);
          assert ExecuteNode(g, id, st).result == Err(Relabel(res.error, id));
        } else {
          assert ExecuteNode(g, id, st) == Finish(id, node.returnType, res.value, args.st);
        }
      }
    }
  }

  lemma RelabelLocated(g: Graph, e: Error, id: string)
    requires OpError(e) && id in g.nodes
    ensures Located(g, Relabel(e, id))
  {
  }

  lemma {:induction false} ResolveArgsLocated(g: Graph, id: string, args: seq<(string, Result<TypedValue, Error>)>,
                                              acc: map<string, Value>, st: State)
    requires st.visiting <= g.nodes.Keys && id in g.nodes
    requires forall i :: 0 <= i < |args| && args[i].1.Err? ==> args[i].1.error.MissingTypeAnnotation?
    ensures ResolveArgs(g, id, args, acc, st).result.Err? ==> Located(g, ResolveArgs(g, id, args, acc, st).result.error)
    decreases Pending(g, st), 2, |args|
  {
    if args != [] && args[0].1.Ok? {
      var v := ResolveTypedValue(g, id, args[0].0, args[0].1.value, st);
      ResolveTypedValueLocated(g, id, args[0].0, args[0].1.value, st);
      if v.result.Ok? {
        assert forall i :: 0 <= i < |args| - 1 ==> args[1..][i] == args[i + 1];
        ResolveArgsLocated(g, id, args[1..], acc[args[0].0 := v.result.value], v.st);
      }
    }
  }

  lemma {:induction false} ResolveTypedValueLocated(g: Graph, id: string, port: string, tv: TypedValue, st: State)
    requires st.visiting <= g.nodes.Keys && id in g.nodes
    ensures ResolveTypedValue(g, id, port, tv, st).result.Err? ==> Located(g, ResolveTypedValue(g, id, port, tv, st).result.error)
    decreases Pending(g, st), 1, 0
  {
    if tv.Reference? {
      ExecuteNodeLocated(g, tv.reference, st);
    }
  }

  // ---------------------------------------------------------------------
  // Arguments reach the operation with their declared types
  // ---------------------------------------------------------------------

  function Names(args: seq<(string, Result<TypedValue, Error>)>): set<string> {
    set i | 0 <= i < |args| :: args[i].0
  }

  /** When the argument loop succeeds, every argument deserialised, the
      operation's inputs are exactly the arguments, and (names being distinct,
      as they are for a node) each input matches its declared type. */
  lemma {:induction false} ResolvedArgsMatchDeclaredTypes(g: Graph, id: string, args: seq<(string, Result<TypedValue, Error>)>,
                                                          acc: map<string, Value>, st: State)
    ensures var r := ResolveArgs(g, id, args, acc, st);
      r.result.Ok? ==>
        && (forall i :: 0 <= i < |args| ==> args[i].1.Ok?)
        && r.result.value.Keys == acc.Keys + Names(args)
        && (forall k :: k in acc && k !in Names(args) ==> r.result.value[k] == acc[k])
        && (DistinctNames(args) ==>
              forall i :: 0 <= i < |args| ==> Matches(args[i].1.value.valueType, r.result.value[args[i].0]))
    decreases |args|
  {
    if args != [] && args[0].1.Ok? {
      var key := args[0].0;
      var v := ResolveTypedValue(g, id, key, args[0].1.value, st);
      if v.result.Ok? {
        var tail := args[1..];
        var acc' := acc[key := v.result.value];
        ResolvedArgsMatchDeclaredTypes(g, id, tail, acc', v.st);
        var r := ResolveArgs(g, id, args, acc, st);
        assert r == ResolveArgs(g, id, tail, acc', v.st);
        assert forall i :: 1 <= i < |args| ==> args[i] == tail[i - 1];
        assert Names(args) == {key} + Names(tail) by {
          forall k | k in Names(args) ensures k in {key} + Names(tail) {
            var i :| 0 <= i < |args| && args[i].0 == k;
            if i > 0 { assert tail[i - 1].0 == k; }
          }
          forall k | k in Names(tail) ensures k in Names(args) {
            var i :| 0 <= i < |tail| && tail[i].0 == k;
            assert args[i + 1].0 == k;
          }
        }
        if r.result.Ok? && DistinctNames(args) {
          assert DistinctNames(tail) by {
            forall i, j | 0 <= i < j < |tail| ensures tail[i].0 != tail[j].0 {
              assert tail[i] == args[i + 1] && tail[j] == args[j + 1];
            }
          }
          assert key !in Names(tail) by {
            forall i | 0 <= i < |tail| ensures tail[i].0 != key {
              assert tail[i] == args[i + 1];
            }
          }
          assert r.result.value[key] == v.result.value;
        }
      }
    }
  }

  // ---------------------------------------------------------------------
  // Cycles: nodes that can only be reached through one never produce a value
  // ---------------------------------------------------------------------

  /** Node `s` has a well-formed reference argument to a node of `S`. */
  ghost predicate DependsOn(g: Graph, s: string, S: set<string>)
    requires s in g.nodes
  {
    var typed := TypedArgs(g.nodes[s]);
    exists k :: k in typed && typed[k].Ok? && typed[k].value.Reference? && typed[k].value.reference in S
  }

  /** Every node of `S` in the graph refers to a node of `S`: evaluating any
      of them must re-enter `S`, and so eventually a node on the path. */
  ghost predicate Stuck(g: Graph, S: set<string>) {
    forall s :: s in S ==> ColonFree(s) && (s in g.nodes ==> DependsOn(g, s, S))
  }

  /** No evaluation caches a node of a stuck set, and evaluating one fails. */
  lemma {:induction false} ExecuteNodeStuck(g: Graph, S: set<string>, id: string, st: State)
    requires Stuck(g, S) && S !! st.cache.Keys
    ensures S !! ExecuteNode(g, id, st).st.cache.Keys
    ensures id in S ==> ExecuteNode(g, id, st).result.Err?
    decreases Pending(g, st), 0, 0
  {
    if id !in st.cache && id !in st.visiting && id in g.nodes {
      var st1 := st.(visiting := st.visiting + {id});
      var node := g.nodes[id];
      PendingDrops(g, st, id);
      var list := ArgList(TypedArgs(node));
      var args := ResolveArgs(g, id, list, map[], st1);
      ResolveArgsStuck(g, S, id, list, map[], st1);
      if id in S {
        var typed := TypedArgs(node);
        var k :| k in typed && typed[k].Ok? && typed[k].value.Reference? && typed[k].value.reference in S;
        var j :| 0 <= j < |list| && list[j].0 == k;
      }
      if args.result.Ok? && Lookup(node.op).Some? {
        var res := Execute(Lookup(node.op).value, args.result.value);
        if res.Ok? {
          var fin := Finish(id, node.returnType, res.value, args.st);
          assert ExecuteNode(g, id, st) == fin;
          forall s | s in S ensures s !in fin.st.cache {
            assert ColonFree(s) && s != id;
          }
        }
      }
    }
  }

  lemma {:induction false} ResolveArgsStuck(g: Graph, S: set<string>, id: string, args: seq<(string, Result<TypedValue, Error>)>,
                                            acc: map<string, Value>, st: State)
    requires Stuck(g, S) && S !! st.cache.Keys
    ensures S !! ResolveArgs(g, id, args, acc, st).st.cache.Keys
    ensures (exists j :: 0 <= j < |args| && args[j].1.Ok? && args[j].1.value.Reference? && args[j].1.value.reference in S)
      ==> ResolveArgs(g, id, args, acc, st).result.Err?
    decreases Pending(g, st), 2, |args|
  {
    if args != [] {
      var r := ResolveArgs(g, id, args, acc, st);
      if args[0].1.Ok? {
        var v := ResolveTypedValue(g, id, args[0].0, args[0].1.value, st);
        ResolveTypedValueStuck(g, S, id, args[0].0, args[0].1.value, st);
        if v.result.Ok? {
          var tail := args[1..];
          ResolveArgsStuck(g, S, id, tail, acc[args[0].0 := v.result.value], v.st);
          assert r == ResolveArgs(g, id, tail, acc[args[0].0 := v.result.value], v.st);
          if exists j :: 0 <= j < |args| && args[j].1.Ok? && args[j].1.value.Reference? && args[j].1.value.reference in S {
            var j :| 0 <= j < |args| && args[j].1.Ok? && args[j].1.value.Reference? && args[j].1.value.reference in S;
            assert j != 0;
            assert tail[j - 1] == args[j];
          }
        } else {
          assert r == Eval(Err(v.result.error), v.st);
        }
      } else {
        assert r.st == st && r.result.Err?;
      }
    }
  }

  lemma {:induction false} ResolveTypedValueStuck(g: Graph, S: set<string>, id: string, port: string, tv: TypedValue, st: State)
    requires Stuck(g, S) && S !! st.cache.Keys
    ensures S !! ResolveTypedValue(g, id, port, tv, st).st.cache.Keys
    ensures tv.Reference? && tv.reference in S ==> ResolveTypedValue(g, id, port, tv, st).result.Err?
    decreases Pending(g, st), 1, 0
  {
    if tv.Reference? {
      ExecuteNodeStuck(g, S, tv.reference, st);
    }
  }

  // ---------------------------------------------------------------------
  // Running the whole graph
  // ---------------------------------------------------------------------

  /** The cache part of `Frame`, which survives the fresh path of each run step. */
  ghost predicate CacheKept(st: State, st': State) {
    && st.cache.Keys <= st'.cache.Keys
    && (forall k :: k in st.cache && ColonFree(k) ==> st'.cache[k] == st.cache[k])
  }

  /** Every result of a run: a success of a colon-free id is memoised in the
      final cache and lies within the node's declared return type, and every
      failure names where it arose. */
  lemma {:induction false} RunFromFacts(g: Graph, ids: seq<string>, st: State)
    requires Honours(g, st)
    ensures var r := RunFrom(g, ids, st);
      && Honours(g, r.final)
      && CacheKept(st, r.final)
      && (forall i :: 0 <= i < |ids| && r.results[i].1.Ok? && ColonFree(ids[i]) ==>
            ids[i] in r.final.cache && r.final.cache[ids[i]] == r.results[i].1.value)
      && (forall i :: 0 <= i < |ids| && r.results[i].1.Ok? && ColonFree(ids[i]) &&
                      ids[i] in g.nodes && g.nodes[ids[i]].returnType.Some? ==>
            Matches(g.nodes[ids[i]].returnType.value, r.results[i].1.value))
      && (forall i :: 0 <= i < |ids| && r.results[i].1.Err? ==> Located(g, r.results[i].1.error))
    decreases |ids|
  {
    if ids != [] {
      var st0 := st.(visiting := {});
      var e := ExecuteNode(g, ids[0], st0);
      ExecuteNodeFrame(g, ids[0], st0);
      ExecuteNodeHonours(g, ids[0], st0);
      ExecuteNodeLocated(g, ids[0], st0);
      RunFromFacts(g, ids[1..], e.st);
      var rest := RunFrom(g, ids[1..], e.st);
      var r := RunFrom(g, ids, st);
      assert r.results == [(ids[0], e.result)] + rest.results && r.final == rest.final;
      assert forall i :: 1 <= i < |ids| ==> r.results[i] == rest.results[i - 1] && ids[i] == ids[1..][i - 1];
    }
  }

  /** `run` reports every node once; each success of a colon-free id is
      memoised and lies within the node's declared return type; each failure
      names where it arose. */
  lemma RunTheorem(g: Graph)
    ensures var r := Run(g);
      && Honours(g, r.final)
      && (forall i :: 0 <= i < |r.results| && r.results[i].1.Ok? && ColonFree(r.results[i].0) ==>
            r.results[i].0 in r.final.cache && r.final.cache[r.results[i].0] == r.results[i].1.value)
      && (forall i :: 0 <= i < |r.results| && r.results[i].1.Ok? && ColonFree(r.results[i].0) &&
                      r.results[i].0 in g.nodes && g.nodes[r.results[i].0].returnType.Some? ==>
            Matches(g.nodes[r.results[i].0].returnType.value, r.results[i].1.value))
      && (forall i :: 0 <= i < |r.results| && r.results[i].1.Err? ==> Located(g, r.results[i].1.error))
  {
    var ids := Keys.Ordered(g.nodes.Keys);
    RunFromFacts(g, ids, State(map[], map[], {}));
  }

  /** In a run, every node of a stuck set fails and none is ever cached. */
  lemma {:induction false} RunFromStuck(g: Graph, S: set<string>, ids: seq<string>, st: State)
    requires Stuck(g, S) && S !! st.cache.Keys
    ensures var r := RunFrom(g, ids, st);
      && S !! r.final.cache.Keys
      && (forall i :: 0 <= i < |ids| && ids[i] in S ==> r.results[i].1.Err?)
    decreases |ids|
  {
    if ids != [] {
      var st0 := st.(visiting := {});
      var e := ExecuteNode(g, ids[0], st0);
      ExecuteNodeStuck(g, S, ids[0], st0);
      RunFromStuck(g, S, ids[1..], e.st);
      var rest := RunFrom(g, ids[1..], e.st);
      var r := RunFrom(g, ids, st);
      assert r.results == [(ids[0], e.result)] + rest.results && r.final == rest.final;
      assert forall i :: 1 <= i < |ids| ==> r.results[i] == rest.results[i - 1] && ids[i] == ids[1..][i - 1];
    }
  }

  lemma RunStuck(g: Graph, S: set<string>)
    requires Stuck(g, S)
    ensures var r := Run(g);
      && S !! r.final.cache.Keys
      && (forall i :: 0 <= i < |r.results| && r.results[i].0 in S ==> r.results[i].1.Err?)
  {
    var ids := Keys.Ordered(g.nodes.Keys);
    RunFromStuck(g, S, ids, State(map[], map[], {}));
  }
}
