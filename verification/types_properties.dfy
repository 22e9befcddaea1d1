/** Properties of the type language: the parse/print round trip, what the
    parser accepts, and what `Matches` admits. */
module TypeProperties {
  import opened Wrappers
  import opened Json
  import opened Types

  // ---------------------------------------------------------------------
  // Trimming
  // ---------------------------------------------------------------------

  predicate NoWhitespace(s: string) {
    forall i :: 0 <= i < |s| ==> !IsWhitespace(s[i])
  }

  lemma TrimKeeps(s: string)
    requires |s| == 0 || (!IsWhitespace(s[0]) && !IsWhitespace(s[|s| - 1]))
    ensures Trim(s) == s
  {
  }

  lemma TrimIdempotent(s: string)
    ensures Trim(Trim(s)) == Trim(s)
  {
    var lo, hi := TrimSlice(s);
    TrimKeeps(Trim(s));
  }

  /** The string is its trimmed core padded with whitespace on both sides. */
  lemma TrimSplits(s: string) returns (pre: string, post: string)
    ensures s == pre + Trim(s) + post
    ensures AllWhitespace(pre) && AllWhitespace(post)
  {
    var lo, hi := TrimSlice(s);
    pre := s[..lo];
    post := s[hi..];
    assert s == s[..lo] + s[lo..hi] + s[hi..];
  }

  lemma ShowHasNoWhitespace(t: SpellType)
    ensures NoWhitespace(Show(t))
    ensures |Show(t)| > 0 && Show(t)[|Show(t)| - 1] != '<'
  {
  }

  // ---------------------------------------------------------------------
  // Parse / Show
  // ---------------------------------------------------------------------

  lemma {:induction false} ParseNameForm(s: string)
    requires TypeName(Trim(s)).Some?
    ensures Parse(s) == Ok(TypeName(Trim(s)).value)
  {
  }

  lemma {:induction false} ParseArrayForm(s: string)
    requires TypeName(Trim(s)).None? && IsArraySpelling(Trim(s))
    ensures Parse(s) == (var inner := Parse(ArrayInner(Trim(s)));
                         if inner.Ok? then Ok(Array(inner.value)) else inner)
  {
  }

  lemma ShowArray(inner: SpellType)
    ensures IsArraySpelling(Show(Array(inner)))
    ensures ArrayInner(Show(Array(inner))) == Show(inner)
    ensures TypeName(Show(Array(inner))) == None
  {
    var s := Show(Array(inner));
    assert s[..6] == ArrayOpen;
    assert s[0] == 'A' && |s| >= 7;
  }

  /** Printing a type and parsing it back gives the same type, the
      `From<SpellType> for String` / `TryFrom<String>` pairing serde uses. */
  lemma {:induction false} ParseShow(t: SpellType)
    ensures Parse(Show(t)) == Ok(t)
  {
    var s := Show(t);
    ShowHasNoWhitespace(t);
    TrimKeeps(s);
    if t.Array? {
      ShowArray(t.inner);
      ParseShow(t.inner);
      ParseArrayForm(s);
    } else {
      ParseNameForm(s);
    }
  }

  lemma ShowInjective(t: SpellType, u: SpellType)
    requires Show(t) == Show(u)
    ensures t == u
  {
    ParseShow(t);
    ParseShow(u);
  }

  /** The accepted spellings: after trimming, one of the five type names or
      `Array<...>` around an accepted spelling; everything else is an error. */
  lemma {:induction false} ParseAcceptsExactly(s: string)
    ensures Parse(s).Ok? <==>
      (|| Trim(s) in {"Number", "String", "Boolean", "Any", "Unit"}
       || (IsArraySpelling(Trim(s)) && Parse(ArrayInner(Trim(s))).Ok?))
  {
    if TypeName(Trim(s)).Some? {
      ParseNameForm(s);
    } else if IsArraySpelling(Trim(s)) {
      ParseArrayForm(s);
    }
  }

  lemma ParseIgnoresPadding(s: string)
    ensures Parse(Trim(s)) == Parse(s)
  {
    TrimIdempotent(s);
  }

  // ---------------------------------------------------------------------
  // Parsing is exact up to whitespace
  // ---------------------------------------------------------------------

  function StripWhitespace(s: string): (r: string)
    ensures NoWhitespace(r)
  {
    if |s| == 0 then []
    else if IsWhitespace(s[0]) then StripWhitespace(s[1..])
    else [s[0]] + StripWhitespace(s[1..])
  }

  lemma {:induction false} StripConcat(a: string, b: string)
    ensures StripWhitespace(a + b) == StripWhitespace(a) + StripWhitespace(b)
    decreases |a|
  {
    if |a| > 0 {
      assert (a + b)[1..] == a[1..] + b;
      StripConcat(a[1..], b);
    } else {
      assert a + b == b;
    }
  }

  lemma {:induction false} StripAllWhitespace(s: string)
    requires AllWhitespace(s)
    ensures StripWhitespace(s) == []
    decreases |s|
  {
    if |s| > 0 {
      StripAllWhitespace(s[1..]);
    }
  }

  lemma {:induction false} StripNoWhitespace(s: string)
    requires NoWhitespace(s)
    ensures StripWhitespace(s) == s
    decreases |s|
  {
    if |s| > 0 {
      StripNoWhitespace(s[1..]);
      assert s == [s[0]] + s[1..];
    }
  }

  lemma StripTrim(s: string)
    ensures StripWhitespace(s) == StripWhitespace(Trim(s))
  {
    var pre, post := TrimSplits(s);
    StripConcat(pre + Trim(s), post);
    StripConcat(pre, Trim(s));
    StripAllWhitespace(pre);
    StripAllWhitespace(post);
  }

  /** A string parses to `t` only if it is `Show(t)` with whitespace added:
      together with `ParseShow`, the parser accepts exactly the printed forms
      of types, padded with whitespace at the ends of each `Array<...>` level. */
  lemma {:induction false} ParseExact(s: string, t: SpellType)
    requires Parse(s) == Ok(t)
    ensures StripWhitespace(s) == Show(t)
    decreases |s|
  {
    var u := Trim(s);
    TrimShorter(s);
    StripTrim(s);
    if TypeName(u).Some? {
      ParseNameForm(s);
      ShowHasNoWhitespace(t);
      StripNoWhitespace(u);
    } else {
      assert IsArraySpelling(u);
      ParseArrayForm(s);
      var inner := ArrayInner(u);
      assert Parse(inner) == Ok(t.inner);
      ParseExact(inner, t.inner);
      StripArray(inner, Show(t.inner));
      assert Show(t) == ArrayOpen + Show(t.inner) + ">";
    }
  }

  /** Removing whitespace from `Array<inner>` keeps the brackets and strips `inner`. */
  lemma {:induction false} StripArray(inner: string, stripped: string)
    requires StripWhitespace(inner) == stripped
    ensures StripWhitespace(ArrayOpen + inner + ">") == ArrayOpen + stripped + ">"
  {
    StripConcat(ArrayOpen, inner);
    StripNoWhitespace(ArrayOpen);
    var head := ArrayOpen + inner;
    assert StripWhitespace(head) == ArrayOpen + stripped;
    StripConcat(head, ">");
    StripNoWhitespace(">");
  }

  // ---------------------------------------------------------------------
  // Matches
  // ---------------------------------------------------------------------

  lemma AnyMatchesEverything(v: Value)
    ensures Matches(Any, v)
  {
  }

  lemma UnitMatchesOnlyNull(v: Value)
    ensures Matches(Unit, v) <==> v == Null
  {
  }

  lemma ArrayMatchesElementwise(inner: SpellType, items: seq<Value>)
    ensures Matches(Array(inner), Arr(items)) <==> forall i :: 0 <= i < |items| ==> Matches(inner, items[i])
    ensures Matches(Array(inner), Arr([]))
  {
  }

  /** No coercion between JSON kinds, and only `Any` admits an object. */
  lemma NoCoercion(v: Value)
    ensures Matches(Number, v) <==> v.Num?
    ensures Matches(String, v) <==> v.Str?
    ensures Matches(Boolean, v) <==> v.Bool?
    ensures forall t :: Matches(t, v) && v.Obj? ==> t == Any
    ensures forall inner :: Matches(Array(inner), v) ==> v.Arr?
  {
  }

  /** `u` is `t` with some parts widened to `Any`. */
  predicate Widens(t: SpellType, u: SpellType) {
    u == Any || t == u || (t.Array? && u.Array? && Widens(t.inner, u.inner))
  }

  /** Declaring a wider type never rejects a value a narrower one accepts. */
  lemma {:induction false} MatchesWidening(t: SpellType, u: SpellType, v: Value)
    requires Widens(t, u) && Matches(t, v)
    ensures Matches(u, v)
  {
    if u != Any && t != u {
      var items := v.items;
      forall i | 0 <= i < |items| ensures Matches(u.inner, items[i]) {
        MatchesWidening(t.inner, u.inner, items[i]);
      }
    }
  }

  // ---------------------------------------------------------------------
  // Typed values
  // ---------------------------------------------------------------------

  /** Serialising a typed value and deserialising it again gives it back. */
  lemma {:induction false} DecodeEncodeTypedValue(tv: TypedValue)
    ensures DecodeTypedValue(EncodeTypedValue(tv)) == Some(tv)
  {
    ParseShow(tv.valueType);
  }

  /** Arguments whose `type` is missing, not a string, or not a type name are
      rejected, whatever else the object holds. */
  lemma BadTypeFieldRejected(fields: map<string, Value>)
    requires "type" !in fields || !fields["type"].Str? || Parse(fields["type"].s).Err?
    ensures DecodeTypedValue(Obj(fields)) == None
  {
  }
}
