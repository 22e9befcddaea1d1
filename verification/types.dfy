/** The SPELL type language: type names, their parser and printer, the
    run-time check of a JSON value against a type, and typed arguments. */
module Types {
  import opened Wrappers
  import opened Json

  // ---------------------------------------------------------------------
  // Whitespace trimming (Rust's `str::trim`)
  // ---------------------------------------------------------------------

  /** Rust's `char::is_whitespace`: the Unicode White_Space characters. */
  predicate IsWhitespace(c: char) {
    || ('\t' <= c <= '\r')
    || c == ' '
    || c == '\U{0085}'
    || c == '\U{00A0}'
    || c == '\U{1680}'
    || ('\U{2000}' <= c <= '\U{200A}')
    || c == '\U{2028}'
    || c == '\U{2029}'
    || c == '\U{202F}'
    || c == '\U{205F}'
    || c == '\U{3000}'
  }

  predicate AllWhitespace(s: string) {
    forall i :: 0 <= i < |s| ==> IsWhitespace(s[i])
  }

  /** Drops the longest whitespace prefix. */
  function TrimStart(s: string): string {
    if |s| > 0 && IsWhitespace(s[0]) then TrimStart(s[1..]) else s
  }

  /** Drops the longest whitespace suffix. */
  function TrimEnd(s: string): string {
    if |s| > 0 && IsWhitespace(s[|s| - 1]) then TrimEnd(s[..|s| - 1]) else s
  }

  function Trim(s: string): string {
    TrimEnd(TrimStart(s))
  }

  lemma {:induction false} TrimStartSuffix(s: string)
    ensures var r := TrimStart(s);
      && |r| <= |s| && r == s[|s| - |r|..]
      && AllWhitespace(s[..|s| - |r|])
      && (|r| > 0 ==> !IsWhitespace(r[0]))
  {
    if |s| > 0 && IsWhitespace(s[0]) {
      TrimStartSuffix(s[1..]);
    }
  }

  lemma {:induction false} TrimEndPrefix(s: string)
    ensures var r := TrimEnd(s);
      && |r| <= |s| && r == s[..|r|]
      && AllWhitespace(s[|r|..])
      && (|r| > 0 ==> !IsWhitespace(r[|r| - 1]))
  {
    if |s| > 0 && IsWhitespace(s[|s| - 1]) {
      TrimEndPrefix(s[..|s| - 1]);
      assert s[..|s| - 1][..|TrimEnd(s)|] == s[..|TrimEnd(s)|];
    }
  }

  /** `Trim(s)` is a slice of `s` with only whitespace cut from either end,
      and it neither starts nor ends with whitespace. */
  lemma TrimSlice(s: string) returns (lo: nat, hi: nat)
    ensures lo <= hi <= |s| && Trim(s) == s[lo..hi]
    ensures AllWhitespace(s[..lo]) && AllWhitespace(s[hi..])
    ensures |Trim(s)| > 0 ==> !IsWhitespace(Trim(s)[0]) && !IsWhitespace(Trim(s)[|Trim(s)| - 1])
  {
    var u := TrimStart(s);
    TrimStartSuffix(s);
    TrimEndPrefix(u);
    lo := |s| - |u|;
    hi := lo + |Trim(s)|;
    assert Trim(s) == u[..|Trim(s)|];
    assert u[|Trim(s)|..] == s[hi..];
    if |Trim(s)| > 0 {
      assert Trim(s)[0] == u[0];
    }
  }

  lemma TrimShorter(s: string)
    ensures |Trim(s)| <= |s|
  {
    var lo, hi := TrimSlice(s);
  }

  // ---------------------------------------------------------------------
  // Types
  // ---------------------------------------------------------------------

  datatype SpellType = Number | String | Boolean | Array(inner: SpellType) | Any | Unit

  const ArrayOpen: string := "Array<"

  /** `s.starts_with("Array<") && s.ends_with('>')` */
  predicate IsArraySpelling(t: string) {
    |t| >= 6 && t[..6] == ArrayOpen && t[|t| - 1] == '>'
  }

  /** What lies between `Array<` and the closing `>`. */
  function ArrayInner(t: string): (r: string)
    requires IsArraySpelling(t)
    ensures t == ArrayOpen + r + ">"
  {
    assert t[5] == '<';
    t[6..|t| - 1]
  }

  /** The five type names that are not `Array<...>`. */
  function TypeName(t: string): (r: Option<SpellType>)
    ensures r.Some? ==> !r.value.Array? && Show(r.value) == t
    ensures r.None? <==> t !in {"Number", "String", "Boolean", "Any", "Unit"}
  {
    if t == "Number" then Some(Number)
    else if t == "String" then Some(String)
    else if t == "Boolean" then Some(Boolean)
    else if t == "Any" then Some(Any)
    else if t == "Unit" then Some(Unit)
    else None
  }

  /** `SpellType::parse`: trims, then reads a type name or `Array<...>`. */
  function Parse(s: string): (r: Result<SpellType, string>)
    decreases |s|
  {
    var t := Trim(s);
    TrimShorter(s);
    var named := TypeName(t);
    if named.Some? then Ok(named.value)
    else if IsArraySpelling(t) then
      var inner := Parse(ArrayInner(t));
      if inner.Ok? then Ok(Array(inner.value)) else inner
    else
      Err("Unknown type: '" + t + "'")
  }

  /** `Display for SpellType`, which is also the serialised form. */
  function Show(t: SpellType): string {
    match t
    case Number => "Number"
    case String => "String"
    case Boolean => "Boolean"
    case Any => "Any"
    case Unit => "Unit"
    case Array(inner) => ArrayOpen + Show(inner) + ">"
  }

  /** `SpellType::matches`: does a JSON value conform to a type? */
  predicate Matches(t: SpellType, v: Value) {
    match (t, v)
    case (Number, Num(_)) => true
    case (String, Str(_)) => true
    case (Boolean, Bool(_)) => true
    case (Unit, Null) => true
    case (Any, _) => true
    case (Array(inner), Arr(items)) => forall i :: 0 <= i < |items| ==> Matches(inner, items[i])
    case _ => false
  }

  // ---------------------------------------------------------------------
  // Typed arguments
  // ---------------------------------------------------------------------

  /** A node argument: a reference to another node or an embedded literal,
      each with its declared type. */
  datatype TypedValue =
    | Reference(reference: string, valueType: SpellType)
    | Literal(literal: Value, valueType: SpellType)
  {
    function GetType(): (r: Option<SpellType>)
      ensures r.Some? && r.value == valueType
    {
      match this
      case Reference(_, t) => Some(t)
      case Literal(_, t) => Some(t)
    }

    predicate IsReference() {
      Reference?
    }

    function GetReference(): (r: Option<string>)
      ensures r.Some? <==> IsReference()
      ensures r.Some? ==> r.value == reference
    {
      match this
      case Reference(name, _) => Some(name)
      case _ => None
    }

    function GetLiteral(): (r: Option<Value>)
      ensures r.Some? <==> Literal?
      ensures r.Some? ==> r.value == literal
    {
      match this
      case Literal(v, _) => Some(v)
      case _ => None
    }
  }

  /** The `type` member of an argument object: a string that parses. */
  function DecodeTypeField(fields: map<string, Value>): (r: Option<SpellType>)
    ensures r.Some? <==> "type" in fields && fields["type"].Str? && Parse(fields["type"].s).Ok?
    ensures r.Some? ==> Parse(fields["type"].s) == Ok(r.value)
  {
    if "type" in fields && fields["type"].Str? then
      match Parse(fields["type"].s)
      case Ok(t) => Some(t)
      case Err(_) => None
    else None
  }

  /** Untagged deserialisation of a `TypedValue`: the `{ref, type}` form is
      tried first, then the `{literal, type}` form; other members are ignored. */
  function DecodeTypedValue(v: Value): (r: Option<TypedValue>)
    ensures r.Some? ==> v.Obj? && DecodeTypeField(v.fields) == Some(r.value.valueType)
    ensures r.Some? && r.value.Reference? ==> "ref" in v.fields && v.fields["ref"] == Str(r.value.reference)
    ensures r.Some? && r.value.Literal? ==> "literal" in v.fields && v.fields["literal"] == r.value.literal
  {
    if !v.Obj? then None
    else
      var fields := v.fields;
      match DecodeTypeField(fields)
      case None => None
      case Some(t) =>
        if "ref" in fields && fields["ref"].Str? then Some(Reference(fields["ref"].s, t))
        else if "literal" in fields then Some(Literal(fields["literal"], t))
        else None
  }

  /** Serialisation of a `TypedValue` (the type as its display string). */
  function EncodeTypedValue(tv: TypedValue): Value {
    match tv
    case Reference(name, t) => Obj(map["ref" := Str(name), "type" := Str(Show(t))])
    case Literal(v, t) => Obj(map["literal" := v, "type" := Str(Show(t))])
  }
}
