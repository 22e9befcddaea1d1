/** Program shape: a graph of named nodes, each with an operation name, an
    optional declared return type, and its remaining members as arguments. */
module Schema {
  import opened Wrappers
  import opened Json
  import opened Types
  import opened Errors

  datatype Node = Node(op: string, returnType: Option<SpellType>, args: map<string, Value>)

  datatype Graph = Graph(nodes: map<string, Node>)

  /** The members a node's own fields take; all others are arguments. */
  const Reserved: set<string> := {"op", "returns"}

  /** A node as deserialisation builds it: its arguments never hold the
      members the named fields consumed. */
  predicate WellFormedNode(n: Node) {
    n.args.Keys !! Reserved
  }

  /** The optional `returns` member: absent or `null` is `None`, a string that
      parses is `Some`; anything else makes the node fail to deserialise
      (outer `None`). */
  function DecodeReturns(fields: map<string, Value>): (r: Option<Option<SpellType>>)
    ensures "returns" !in fields ==> r == Some(None)
    ensures r.Some? && r.value.Some? ==>
      "returns" in fields && fields["returns"].Str? && Parse(fields["returns"].s) == Ok(r.value.value)
  {
    if "returns" !in fields || fields["returns"] == Null then Some(None)
    else if fields["returns"].Str? && Parse(fields["returns"].s).Ok? then
      Some(Some(Parse(fields["returns"].s).value))
    else None
  }

  /** Deserialisation of a `Node` from a JSON object (`op` required and a
      string, `returns` optional, everything else flattened into `args`). */
  function DecodeNode(v: Value): (r: Option<Node>)
    ensures r.Some? ==> v.Obj? && "op" in v.fields && v.fields["op"] == Str(r.value.op)
    ensures r.Some? ==> r.value.args == v.fields - Reserved && WellFormedNode(r.value)
    ensures r.Some? && "returns" !in v.fields ==> r.value.returnType == None
  {
    if v.Obj? && "op" in v.fields && v.fields["op"].Str? then
      match DecodeReturns(v.fields)
      case None => None
      case Some(declared) => Some(Node(v.fields["op"].s, declared, v.fields - Reserved))
    else None
  }

  /** Serialisation of a `Node`: `returns` is written as `null` when absent. */
  function EncodeNode(n: Node): Value {
    var declared := match n.returnType case None => Null case Some(t) => Str(Show(t));
    Obj(n.args + map["op" := Str(n.op), "returns" := declared])
  }

  /** Deserialisation of a `Graph`: every member of the top-level object is a node. */
  function DecodeGraph(v: Value): (r: Option<Graph>)
    ensures r.Some? ==> v.Obj? && r.value.nodes.Keys == v.fields.Keys
    ensures r.Some? ==> forall id :: id in r.value.nodes ==> DecodeNode(v.fields[id]) == Some(r.value.nodes[id])
    ensures v.Obj? && (exists id :: id in v.fields && DecodeNode(v.fields[id]).None?) ==> r.None?
  {
    if v.Obj? && forall id :: id in v.fields ==> DecodeNode(v.fields[id]).Some? then
      Some(Graph(map id | id in v.fields :: DecodeNode(v.fields[id]).value))
    else None
  }

  function EncodeGraph(g: Graph): Value {
    Obj(map id | id in g.nodes :: EncodeNode(g.nodes[id]))
  }

  /** `Node::get_all_typed_args`: every argument except `op` and `returns`,
      deserialised as a `TypedValue`; one that does not deserialise becomes a
      `MissingTypeAnnotation` whose node is left blank for the engine to fill. */
  function TypedArgs(n: Node): (r: map<string, Result<TypedValue, Error>>)
    ensures r.Keys == n.args.Keys - Reserved
    ensures forall k :: k in r ==> (r[k].Ok? <==> DecodeTypedValue(n.args[k]).Some?)
    ensures forall k :: k in r && r[k].Ok? ==> DecodeTypedValue(n.args[k]) == Some(r[k].value)
    ensures forall k :: k in r && r[k].Err? ==> r[k].error == MissingTypeAnnotation("", k)
  {
    map k | k in n.args && k !in Reserved ::
      match DecodeTypedValue(n.args[k])
      case Some(tv) => Ok(tv)
      case None => Err(MissingTypeAnnotation("", k))
  }
}
