/** The engine's error type and the text each error displays as. */
module Errors {
  import opened Json
  import opened Types
  import TypeProperties

  /** How an `InvalidType` error reports what it found: a fixed phrase, or the
      offending value in Rust's debug format (`format!("{:?}", value)`). */
  datatype Shown = Text(text: string) | Debug(value: Value)

  datatype Error =
    | NodeNotFound(id: string)
    | CycleDetected(id: string)
    | MissingInput(node: string, port: string)
    | TypeMismatch(node: string, port: string, expected: SpellType, actual: SpellType)
    | InvalidValue(node: string, port: string, expectedType: SpellType, actualValue: Value)
    | InvalidType(node: string, wanted: string, found: Shown)
    | OperationError(node: string, reason: string)
    | UnknownOperation(op: string)
    | MissingTypeAnnotation(node: string, port: string)

  function Quoted(s: string): string {
    "'" + s + "'"
  }

  /** `Display for Error`. serde_json's value formatting is not part of the
      model: `display` stands for `format!("{}", v)` and `debug` for
      `format!("{:?}", v)`. */
  function Message(e: Error, display: Value -> string, debug: Value -> string): string {
    match e
    case NodeNotFound(id) =>
      "Node not found: " + Quoted(id)
    case CycleDetected(id) =>
      "Cycle detected at node: " + Quoted(id)
    case MissingInput(node, port) =>
      "Node " + Quoted(node) + " missing required input: " + Quoted(port)
    case TypeMismatch(node, port, expected, actual) =>
      "Type mismatch in node " + Quoted(node) + " port " + Quoted(port)
        + ": expected " + Show(expected) + ", got " + Show(actual)
    case InvalidValue(node, port, expectedType, actualValue) =>
      "Invalid value in node " + Quoted(node) + " port " + Quoted(port)
        + ": expected type " + Show(expectedType) + ", got value " + Quoted(display(actualValue))
    case InvalidType(node, wanted, found) =>
      "Node " + Quoted(node) + " expected type " + Quoted(wanted) + ", got "
        + Quoted(match found case Text(t) => t case Debug(v) => debug(v))
    case OperationError(node, reason) =>
      "Operation failed in node " + Quoted(node) + ": " + reason
    case UnknownOperation(op) =>
      "Unknown operation: " + Quoted(op)
    case MissingTypeAnnotation(node, port) =>
      "Missing type annotation in node " + Quoted(node) + " port " + Quoted(port)
        + " - SPELL requires explicit types"
  }

  lemma QuotedTailDetermines(p: string, a: string, b: string)
    requires p + Quoted(a) == p + Quoted(b)
    ensures a == b
  {
    var m := p + Quoted(a);
    assert m[|p| + 1..|m| - 1] == a;
    assert (p + Quoted(b))[|p| + 1..|m| - 1] == b;
  }

  /** The names carried by `NodeNotFound`, `CycleDetected` and
      `UnknownOperation` are embedded verbatim, so each message identifies
      its name ... */
  lemma SingleNameMessagesInjective(a: string, b: string, display: Value -> string, debug: Value -> string)
    ensures Message(NodeNotFound(a), display, debug) == Message(NodeNotFound(b), display, debug) ==> a == b
    ensures Message(CycleDetected(a), display, debug) == Message(CycleDetected(b), display, debug) ==> a == b
    ensures Message(UnknownOperation(a), display, debug) == Message(UnknownOperation(b), display, debug) ==> a == b
  {
    if Message(NodeNotFound(a), display, debug) == Message(NodeNotFound(b), display, debug) {
      QuotedTailDetermines("Node not found: ", a, b);
    }
    if Message(CycleDetected(a), display, debug) == Message(CycleDetected(b), display, debug) {
      QuotedTailDetermines("Cycle detected at node: ", a, b);
    }
    if Message(UnknownOperation(a), display, debug) == Message(UnknownOperation(b), display, debug) {
      QuotedTailDetermines("Unknown operation: ", a, b);
    }
  }

  /** ... and the three kinds never display alike. */
  lemma SingleNameKindsDiffer(a: string, b: string, display: Value -> string, debug: Value -> string)
    ensures Message(NodeNotFound(a), display, debug) != Message(CycleDetected(b), display, debug)
    ensures Message(NodeNotFound(a), display, debug) != Message(UnknownOperation(b), display, debug)
    ensures Message(CycleDetected(a), display, debug) != Message(UnknownOperation(b), display, debug)
  {
    assert Message(NodeNotFound(a), display, debug)[0] == 'N';
    assert Message(CycleDetected(a), display, debug)[0] == 'C';
    assert Message(CycleDetected(b), display, debug)[0] == 'C';
    assert Message(UnknownOperation(b), display, debug)[0] == 'U';
  }

  /** Worked messages for a missing node, a cycle and an unknown operation. */
  lemma MessageExamples(display: Value -> string, debug: Value -> string)
    ensures Message(NodeNotFound("x"), display, debug) == "Node not found: 'x'"
    ensures Message(CycleDetected("a"), display, debug) == "Cycle detected at node: 'a'"
    ensures Message(UnknownOperation("Foo"), display, debug) == "Unknown operation: 'Foo'"
  {
  }

  /** The first position of `c` in `z`, or `|z|` when there is none. */
  function IndexOf(z: string, c: char): (r: nat)
    ensures r <= |z|
  {
    if z == [] then 0 else if z[0] == c then 0 else 1 + IndexOf(z[1..], c)
  }

  lemma {:induction false} IndexAfterFree(x: string, s: string, c: char)
    requires c !in x && |s| > 0 && s[0] == c
    ensures IndexOf(x + s, c) == |x|
  {
    if x != [] {
      assert (x + s)[0] == x[0];
      assert (x + s)[1..] == x[1..] + s;
      IndexAfterFree(x[1..], s, c);
    } else {
      assert x + s == s;
    }
  }

  lemma ShowHasNoComma(t: SpellType)
    ensures ',' !in Show(t)
  {
  }

  lemma PrefixCancels(h: string, t1: string, t2: string)
    requires h + t1 == h + t2
    ensures t1 == t2
  {
    assert t1 == (h + t1)[|h|..];
    assert t2 == (h + t2)[|h|..];
  }

  /** Two strings split at their first comma: the parts before are equal and so are those after. */
  lemma SplitAtComma(x: string, y: string, x2: string, y2: string)
    requires ',' !in x && ',' !in x2
    requires x + (", got " + y) == x2 + (", got " + y2)
    ensures x == x2 && y == y2
  {
    var z := x + (", got " + y);
    IndexAfterFree(x, ", got " + y, ',');
    IndexAfterFree(x2, ", got " + y2, ',');
    assert x == z[..|x|];
    assert x2 == z[..|x2|];
    assert y == z[|x| + 6..];
    assert y2 == (x2 + (", got " + y2))[|x2| + 6..];
  }

  lemma MismatchMessageShape(n: string, p: string, e: SpellType, a: SpellType, display: Value -> string, debug: Value -> string)
    ensures Message(TypeMismatch(n, p, e, a), display, debug)
      == ("Type mismatch in node " + Quoted(n) + " port " + Quoted(p) + ": expected ") + (Show(e) + (", got " + Show(a)))
  {
  }

  /** Type names contain no comma, so a mismatch message at a given node and
      port determines both the expected and the actual type. */
  lemma TypeMismatchMessageDetermines(n: string, p: string, e: SpellType, a: SpellType, e2: SpellType, a2: SpellType,
                                      display: Value -> string, debug: Value -> string)
    requires Message(TypeMismatch(n, p, e, a), display, debug) == Message(TypeMismatch(n, p, e2, a2), display, debug)
    ensures e == e2 && a == a2
  {
    var head := "Type mismatch in node " + Quoted(n) + " port " + Quoted(p) + ": expected ";
    MismatchMessageShape(n, p, e, a, display, debug);
    MismatchMessageShape(n, p, e2, a2, display, debug);
    PrefixCancels(head, Show(e) + (", got " + Show(a)), Show(e2) + (", got " + Show(a2)));
    ShowHasNoComma(e);
    ShowHasNoComma(e2);
    SplitAtComma(Show(e), Show(a), Show(e2), Show(a2));
    TypeProperties.ShowInjective(e, e2);
    TypeProperties.ShowInjective(a, a2);
  }

  /** A missing-annotation message names the node and the port verbatim and
      ends with the explicit-types reminder. */
  lemma AnnotationMessageNamesPort(n: string, p: string, display: Value -> string, debug: Value -> string)
    ensures var m := Message(MissingTypeAnnotation(n, p), display, debug);
      var head := "Missing type annotation in node '" + n + "' port '" + p + "'";
      var tail := " - SPELL requires explicit types";
      |head| + |tail| == |m| && m[..|head|] == head && m[|head|..] == tail
  {
    var head := "Missing type annotation in node '" + n + "' port '" + p + "'";
    var tail := " - SPELL requires explicit types";
    assert Message(MissingTypeAnnotation(n, p), display, debug) == head + tail;
  }
}
