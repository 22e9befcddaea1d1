/** JSON values as serde_json represents them, with numbers as exact reals. */
module Json {
  import opened Wrappers

  datatype Value =
    | Null
    | Bool(b: bool)
    | Num(n: real)
    | Str(s: string)
    | Arr(items: seq<Value>)
    | Obj(fields: map<string, Value>)

  /** `Value::as_f64` */
  function AsNum(v: Value): Option<real> {
    if v.Num? then Some(v.n) else None
  }

  /** `Value::as_bool` */
  function AsBool(v: Value): Option<bool> {
    if v.Bool? then Some(v.b) else None
  }

  /** `Value::as_str` */
  function AsStr(v: Value): Option<string> {
    if v.Str? then Some(v.s) else None
  }

  /** `Value::as_array` */
  function AsArray(v: Value): Option<seq<Value>> {
    if v.Arr? then Some(v.items) else None
  }

  /** `Value::as_object` */
  function AsObject(v: Value): Option<map<string, Value>> {
    if v.Obj? then Some(v.fields) else None
  }

  // ---------------------------------------------------------------------
  // Nesting depth, used only as a termination measure for operations that
  // apply other operations to the parts of their inputs.
  // ---------------------------------------------------------------------

  ghost function SetMax(s: set<nat>): (r: nat)
    ensures forall x :: x in s ==> x <= r
    ensures s != {} ==> r in s
    decreases |s|
  {
    if s == {} then 0
    else
      var x :| x in s;
      var y := SetMax(s - {x});
      assert forall z :: z in s ==> z == x || z in s - {x};
      if x < y then y else x
  }

  ghost function Depth(v: Value): nat
    decreases v, 1
  {
    match v
    case Arr(items) => 1 + SetMax(ItemDepths(items))
    case Obj(fields) => 1 + SetMax(FieldDepths(v))
    case _ => 0
  }

  ghost function FieldDepths(v: Value): set<nat>
    requires v.Obj?
    decreases v, 0
  {
    set k | k in v.fields :: Depth(v.fields[k])
  }

  ghost function ItemDepths(items: seq<Value>): set<nat>
    decreases items, 0
  {
    set i | 0 <= i < |items| :: Depth(items[i])
  }

  /** The deepest value stored in a map of inputs (0 for the empty map). */
  ghost function MaxDepth(m: map<string, Value>): nat {
    SetMax(FieldDepths(Obj(m)))
  }

  lemma ElementShallower(items: seq<Value>, i: int)
    requires 0 <= i < |items|
    ensures Depth(items[i]) < Depth(Arr(items))
  {
    assert Depth(items[i]) in ItemDepths(items);
  }

  lemma FieldShallower(fields: map<string, Value>, k: string)
    requires k in fields
    ensures Depth(fields[k]) < Depth(Obj(fields))
  {
    MaxDepthBounds(fields, k);
  }

  lemma MaxDepthBounds(m: map<string, Value>, k: string)
    requires k in m
    ensures Depth(m[k]) <= MaxDepth(m)
  {
    assert Depth(m[k]) in FieldDepths(Obj(m));
  }

  lemma MaxDepthBelow(m: map<string, Value>, b: nat)
    requires m != map[]
    requires forall k :: k in m ==> Depth(m[k]) < b
    ensures MaxDepth(m) < b
  {
    var k :| k in m;
    assert Depth(m[k]) in FieldDepths(Obj(m));
  }
}
