/** Round trips of the program shape through its JSON form. */
module SchemaProperties {
  import opened Wrappers
  import opened Json
  import opened Types
  import opened TypeProperties
  import opened Schema

  /** A node serialised and deserialised again is the same node. */
  lemma DecodeEncodeNode(n: Node)
    requires WellFormedNode(n)
    ensures DecodeNode(EncodeNode(n)) == Some(n)
  {
    var fields := EncodeNode(n).fields;
    assert fields["op"] == Str(n.op);
    match n.returnType {
      case None =>
      case Some(t) => ParseShow(t);
    }
    assert fields - Reserved == n.args;
  }

  /** A graph of well-formed nodes survives serialisation unchanged. */
  lemma DecodeEncodeGraph(g: Graph)
    requires forall id :: id in g.nodes ==> WellFormedNode(g.nodes[id])
    ensures DecodeGraph(EncodeGraph(g)) == Some(g)
  {
    var v := EncodeGraph(g);
    EncodedNodesDecode(g);
    var d := DecodeGraph(v);
    assert d.Some?;
    assert d.value.nodes.Keys == g.nodes.Keys;
    assert d.value.nodes == g.nodes;
  }

  /** Each encoded node of a well-formed graph deserialises back to itself. */
  lemma EncodedNodesDecode(g: Graph)
    requires forall id :: id in g.nodes ==> WellFormedNode(g.nodes[id])
    ensures EncodeGraph(g).fields.Keys == g.nodes.Keys
    ensures forall id :: id in g.nodes ==> DecodeNode(EncodeGraph(g).fields[id]) == Some(g.nodes[id])
  {
    forall id | id in g.nodes ensures DecodeNode(EncodeGraph(g).fields[id]) == Some(g.nodes[id]) {
      DecodeEncodeNode(g.nodes[id]);
    }
  }

  /** Every node of a deserialised graph is well formed. */
  lemma DecodedGraphWellFormed(v: Value)
    requires DecodeGraph(v).Some?
    ensures forall id :: id in DecodeGraph(v).value.nodes ==> WellFormedNode(DecodeGraph(v).value.nodes[id])
  {
  }

  /** A node that omits `returns` declares no return type. */
  lemma ReturnsIsOptional(fields: map<string, Value>, op: string)
    requires "op" in fields && fields["op"] == Str(op) && "returns" !in fields
    ensures DecodeNode(Obj(fields)) == Some(Node(op, None, fields - Reserved))
  {
  }
}
