/** The declarative schemas the validation library checks values against, and
    the validation itself. A model class is a list of fields; each field has a
    key, a type and whether it must be present (declared without a default).
    Validating a parsed JSON value against a type either rejects it or yields
    the validated value in canonical form: integers as integers, enum members
    as their string values, and objects reduced to the keys the model declares. */
module Schema {
  import opened Wrappers
  import opened Json

  datatype Type =
    | TInt(min: Option<int>, max: Option<int>)   // `int`, with `ge`/`le` bounds when present
    | TStrictInt                                 // `StrictInt`
    | TStr                                       // `str`
    | TPattern(alternatives: seq<string>)        // `str` with an unanchored `a|b|...` pattern of literals
    | TBool                                      // `bool`
    | TFloat                                     // `PositiveFloat`, `NonNegativeFloat` (sign not modelled)
    | THttpUrl                                   // `HttpUrl`
    | TEnum(values: seq<string>)                 // a `str`-valued `Enum`
    | TOptional(inner: Type)                     // `Optional[T]`
    | TList(elem: Type)                          // `List[T]`
    | TModel(fields: seq<Field>)                 // a `BaseModel` subclass

  /** `required` is true for a field declared without a default. */
  datatype Field = Field(key: string, ty: Type, required: bool)

  const Int: Type := TInt(None, None)
  const NonNegativeInt: Type := TInt(Some(0), None)
  const PositiveInt: Type := TInt(Some(1), None)

  function IntBetween(lo: int, hi: int): Type {
    TInt(Some(lo), Some(hi))
  }

  /** A field declared without a default (`x: T`, or `(T, ...)` in `create_model`). */
  function Required(key: string, ty: Type): Field {
    Field(key, ty, true)
  }

  /** A field declared with the default `None` (`(T, None)` in `create_model`). */
  function DefaultsToNone(key: string, ty: Type): Field {
    Field(key, ty, false)
  }

  predicate InBounds(n: int, min: Option<int>, max: Option<int>) {
    (min.Some? ==> min.value <= n) && (max.Some? ==> n <= max.value)
  }

  function KeysOf(fs: seq<Field>): set<string> {
    set i | 0 <= i < |fs| :: fs[i].key
  }

  predicate DistinctKeys(fs: seq<Field>) {
    forall a, b :: 0 <= a < b < |fs| ==> fs[a].key != fs[b].key
  }

  /** Every model inside `t` declares each key once, as a Python class does. */
  predicate WellFormed(t: Type)
    decreases t
  {
    match t
    case TOptional(inner) => WellFormed(inner)
    case TList(elem) => WellFormed(elem)
    case TModel(fs) => DistinctKeys(fs) && forall i :: 0 <= i < |fs| ==> WellFormed(fs[i].ty)
    case _ => true
  }

  // ---------------------------------------------------------------------------
  // Unanchored pattern search
  // ---------------------------------------------------------------------------

  /** `p` occurs in `s` at position `i`. */
  ghost predicate OccursAt(s: string, p: string, i: int) {
    0 <= i && i + |p| <= |s| && s[i..i + |p|] == p
  }

  /** `p` occurs somewhere in `s`, searched from the left. */
  predicate Contains(s: string, p: string)
    decreases |s|
  {
    |p| <= |s| && (s[..|p|] == p || Contains(s[1..], p))
  }

  lemma {:induction false} ContainsIff(s: string, p: string)
    ensures Contains(s, p) <==> exists i :: OccursAt(s, p, i)
    decreases |s|
  {
    if |p| <= |s| {
      if s[..|p|] == p {
        assert OccursAt(s, p, 0);
      } else {
        ContainsIff(s[1..], p);
        forall i | OccursAt(s[1..], p, i)
          ensures OccursAt(s, p, i + 1)
        {
          assert s[1..][i..i + |p|] == s[i + 1..i + 1 + |p|];
        }
        forall i | OccursAt(s, p, i)
          ensures OccursAt(s[1..], p, i - 1)
        {
          assert s[1..][i - 1..i - 1 + |p|] == s[i..i + |p|];
        }
      }
    }
  }

  /** The search a pattern `a|b|...` of literal alternatives performs. */
  predicate MatchesSomewhere(s: string, alternatives: seq<string>) {
    exists a | a in alternatives :: Contains(s, a)
  }

  /** The search succeeds exactly when some alternative occurs at some position. */
  lemma MatchesSomewhereIff(s: string, alternatives: seq<string>)
    ensures MatchesSomewhere(s, alternatives) <==> exists a, i :: a in alternatives && OccursAt(s, a, i)
  {
    forall a | a in alternatives {
      ContainsIff(s, a);
    }
  }

  // ---------------------------------------------------------------------------
  // Canonical values: what a validated value of each type looks like
  // ---------------------------------------------------------------------------

  ghost predicate Canonical(lib: Lib, t: Type, v: Json)
    decreases t
  {
    match t
    case TInt(min, max) => v.JInt? && InBounds(v.i, min, max)
    case TStrictInt => v.JInt?
    case TStr => v.JStr?
    case TPattern(alts) => v.JStr? && exists a, i :: a in alts && OccursAt(v.s, a, i)
    case TBool => v.JBool?
    case TFloat => v.JFloat?
    case THttpUrl => v.JStr? && lib.isHttpUrl(v.s)
    case TEnum(values) => v.JStr? && v.s in values
    case TOptional(inner) => v.JNull? || Canonical(lib, inner, v)
    case TList(elem) => v.JArr? && forall k :: 0 <= k < |v.items| ==> Canonical(lib, elem, v.items[k])
    case TModel(fs) =>
      && v.JObj?
      && v.fields.Keys <= KeysOf(fs)
      && forall i :: 0 <= i < |fs| ==>
           if fs[i].key in v.fields then Canonical(lib, fs[i].ty, v.fields[fs[i].key])
           else !fs[i].required
  }

  // ---------------------------------------------------------------------------
  // Validation
  // ---------------------------------------------------------------------------

  /** Validates `j` against `t`: `None` when the library would raise a
      validation error, otherwise the validated value. */
  function Decode(lib: Lib, t: Type, j: Json): (r: Option<Json>)
    ensures r.Some? && WellFormed(t) ==> Canonical(lib, t, r.value)
    decreases t, 1
  {
    match t
    case TInt(min, max) =>
      var n :- IntValue(lib, j);
      if InBounds(n, min, max) then Some(JInt(n)) else None
    case TStrictInt =>
      if j.JInt? then Some(j) else None
    case TStr =>
      var s :- StrValue(lib, j);
      Some(JStr(s))
    case TPattern(alts) =>
      var s :- StrValue(lib, j);
      MatchesSomewhereIff(s, alts);
      if MatchesSomewhere(s, alts) then Some(JStr(s)) else None
    case TBool =>
      var b :- BoolValue(lib, j);
      Some(JBool(b))
    case TFloat =>
      var f :- FloatValue(lib, j);
      Some(JFloat(f))
    case THttpUrl =>
      var s :- StrValue(lib, j);
      if lib.isHttpUrl(s) then Some(JStr(s)) else None
    case TEnum(values) =>
      if j.JStr? && j.s in values then Some(j) else None
    case TOptional(inner) =>
      if j.JNull? then Some(JNull) else Decode(lib, inner, j)
    case TList(elem) =>
      if j.JArr? then
        var items :- DecodeItems(lib, t, j.items);
        Some(JArr(items))
      else None
    case TModel(fs) =>
      if j.JObj? then
        var m :- DecodeFields(lib, t, j.fields, 0);
        Some(JObj(m))
      else None
  }

  /** The elements of a `List[...]` value, one by one. */
  function DecodeItems(lib: Lib, t: Type, items: seq<Json>): (r: Option<seq<Json>>)
    requires t.TList?
    ensures r.Some? ==> |r.value| == |items|
    ensures r.Some? ==> forall k :: 0 <= k < |items| ==> Decode(lib, t.elem, items[k]) == Some(r.value[k])
    ensures r.None? ==> exists k :: 0 <= k < |items| && Decode(lib, t.elem, items[k]).None?
    decreases t, 0, |items|
  {
    if |items| == 0 then Some([])
    else
      var head :- Decode(lib, t.elem, items[0]);
      var tail :- DecodeItems(lib, t, items[1..]);
      assert forall k :: 1 <= k < |items| ==> items[k] == items[1..][k - 1];
      Some([head] + tail)
  }

  /** The fields `t.fields[i..]` of a model, read from the object `m`: a field
      whose key is missing is an error if it is required and left out of the
      result otherwise; keys no field declares are ignored. */
  function DecodeFields(lib: Lib, t: Type, m: map<string, Json>, i: nat): (r: Option<map<string, Json>>)
    requires t.TModel? && i <= |t.fields|
    ensures r.Some? <==> forall k :: i <= k < |t.fields| ==>
      if t.fields[k].key in m then Decode(lib, t.fields[k].ty, m[t.fields[k].key]).Some?
      else !t.fields[k].required
    ensures r.Some? ==> r.value.Keys == set k | i <= k < |t.fields| && t.fields[k].key in m :: t.fields[k].key
    ensures r.Some? && DistinctKeys(t.fields) ==> forall k :: i <= k < |t.fields| && t.fields[k].key in m ==>
      Decode(lib, t.fields[k].ty, m[t.fields[k].key]) == Some(r.value[t.fields[k].key])
    decreases t, 0, |t.fields| - i
  {
    if i == |t.fields| then Some(map[])
    else
      var f := t.fields[i];
      var rest :- DecodeFields(lib, t, m, i + 1);
      if f.key in m then
        var v :- Decode(lib, f.ty, m[f.key]);
        Some(rest[f.key := v])
      else if f.required then None
      else Some(rest)
  }

  // ---------------------------------------------------------------------------
  // Properties of validation
  // ---------------------------------------------------------------------------

  /** Field `f` of a model accepts the object `m`: its value validates, or it
      is missing and has a default. */
  predicate FieldAccepts(lib: Lib, f: Field, m: map<string, Json>) {
    if f.key in m then Decode(lib, f.ty, m[f.key]).Some? else !f.required
  }

  /** A model accepts an object exactly when each of its fields does; keys it
      does not declare play no part. The validated object keeps exactly the
      declared keys that were present, each with its field's validated value. */
  lemma ModelAccepts(lib: Lib, t: Type, m: map<string, Json>)
    requires t.TModel?
    ensures Decode(lib, t, JObj(m)).Some? <==> forall f | f in t.fields :: FieldAccepts(lib, f, m)
    ensures Decode(lib, t, JObj(m)).Some? ==>
      Decode(lib, t, JObj(m)).value.fields.Keys == KeysOf(t.fields) * m.Keys
    ensures Decode(lib, t, JObj(m)).Some? && DistinctKeys(t.fields) ==>
      forall i :: 0 <= i < |t.fields| && t.fields[i].key in m ==>
        Decode(lib, t.fields[i].ty, m[t.fields[i].key]) == Some(Decode(lib, t, JObj(m)).value.fields[t.fields[i].key])
  {
    var r := DecodeFields(lib, t, m, 0);
    if forall f | f in t.fields :: FieldAccepts(lib, f, m) {
      assert forall i :: 0 <= i < |t.fields| ==> FieldAccepts(lib, t.fields[i], m);
    }
    if r.Some? {
      var ks := set k | 0 <= k < |t.fields| && t.fields[k].key in m :: t.fields[k].key;
      assert ks == KeysOf(t.fields) * m.Keys by {
        forall key | key in KeysOf(t.fields) * m.Keys ensures key in ks {
          var k :| 0 <= k < |t.fields| && t.fields[k].key == key;
        }
      }
    }
  }

  /** A model accepts an object only if each of its fields does. */
  lemma FieldOfModel(lib: Lib, t: Type, m: map<string, Json>, f: Field)
    requires t.TModel? && f in t.fields
    ensures Decode(lib, t, JObj(m)).Some? ==> FieldAccepts(lib, f, m)
  {
    ModelAccepts(lib, t, m);
  }

  /** A model accepts an object whose every field is accepted. */
  lemma ModelOfFields(lib: Lib, t: Type, m: map<string, Json>)
    requires t.TModel?
    requires forall f | f in t.fields :: FieldAccepts(lib, f, m)
    ensures Decode(lib, t, JObj(m)).Some?
  {
    ModelAccepts(lib, t, m);
  }

  /** `j` reads as an `int` that is at least `lo`. */
  predicate IntAtLeast(lib: Lib, j: Json, lo: int) {
    IntValue(lib, j).Some? && lo <= IntValue(lib, j).value
  }

  // What a required field of each kind accepts.

  lemma ModelField(lib: Lib, key: string, t: Type, m: map<string, Json>)
    ensures FieldAccepts(lib, Required(key, t), m) <==> key in m && Decode(lib, t, m[key]).Some?
  {
  }

  lemma IntField(lib: Lib, key: string, m: map<string, Json>)
    ensures FieldAccepts(lib, Required(key, Int), m) <==> key in m && IntValue(lib, m[key]).Some?
  {
  }

  lemma AtLeastField(lib: Lib, key: string, lo: int, m: map<string, Json>)
    ensures FieldAccepts(lib, Required(key, TInt(Some(lo), None)), m) <==>
      key in m && IntAtLeast(lib, m[key], lo)
  {
  }

  lemma OptionalAtLeastField(lib: Lib, key: string, lo: int, m: map<string, Json>)
    ensures FieldAccepts(lib, Required(key, TOptional(TInt(Some(lo), None))), m) <==>
      key in m && (m[key] == JNull || IntAtLeast(lib, m[key], lo))
  {
    if key in m && !m[key].JNull? {
      assert Decode(lib, TOptional(TInt(Some(lo), None)), m[key]) == Decode(lib, TInt(Some(lo), None), m[key]);
    }
  }

  lemma FloatField(lib: Lib, key: string, m: map<string, Json>)
    ensures FieldAccepts(lib, Required(key, TFloat), m) <==> key in m && FloatValue(lib, m[key]).Some?
  {
  }

  lemma ListField(lib: Lib, key: string, elem: Type, m: map<string, Json>)
    ensures FieldAccepts(lib, Required(key, TList(elem)), m) <==>
      key in m && m[key].JArr? && forall k :: 0 <= k < |m[key].items| ==> Decode(lib, elem, m[key].items[k]).Some?
  {
    if key in m {
      ListAccepts(lib, elem, m[key]);
    }
  }

  /** A list accepts exactly the arrays whose every element validates. */
  lemma ListAccepts(lib: Lib, elem: Type, j: Json)
    ensures Decode(lib, TList(elem), j).Some? <==>
      j.JArr? && forall k :: 0 <= k < |j.items| ==> Decode(lib, elem, j.items[k]).Some?
  {
    if j.JArr? {
      var r := DecodeItems(lib, TList(elem), j.items);
      if r.Some? {
        forall k | 0 <= k < |j.items| ensures Decode(lib, elem, j.items[k]).Some? {
          assert Decode(lib, elem, j.items[k]) == Some(r.value[k]);
        }
      }
    }
  }

  /** `null` validates exactly against the `Optional[...]` types, whatever the
      library's lax coercions. */
  lemma NullOnlyForOptional(lib: Lib, t: Type)
    ensures Decode(lib, t, JNull).Some? <==> t.TOptional?
    ensures t.TOptional? ==> Decode(lib, t, JNull) == Some(JNull)
  {
  }

  /** A value already in canonical form validates to itself. */
  lemma {:induction false} CanonicalIsFixpoint(lib: Lib, t: Type, v: Json)
    requires WellFormed(t) && Canonical(lib, t, v)
    ensures Decode(lib, t, v) == Some(v)
    decreases t
  {
    match t
    case TPattern(alts) =>
      MatchesSomewhereIff(v.s, alts);
    case TOptional(inner) =>
      if !v.JNull? {
        CanonicalIsFixpoint(lib, inner, v);
      }
    case TList(elem) =>
      forall k | 0 <= k < |v.items| ensures Decode(lib, elem, v.items[k]) == Some(v.items[k]) {
        CanonicalIsFixpoint(lib, elem, v.items[k]);
      }
      var r := DecodeItems(lib, t, v.items);
      assert r.Some?;
      assert forall k :: 0 <= k < |v.items| ==> r.value[k] == v.items[k];
      assert r.value == v.items;
    case TModel(fs) =>
      var m := v.fields;
      forall i | 0 <= i < |fs| && fs[i].key in m ensures Decode(lib, fs[i].ty, m[fs[i].key]) == Some(m[fs[i].key]) {
        CanonicalIsFixpoint(lib, fs[i].ty, m[fs[i].key]);
      }
      var r := DecodeFields(lib, t, m, 0);
      assert r.Some?;
      forall key | key in m ensures key in r.value && r.value[key] == m[key] {
        assert key in KeysOf(fs);
        var i :| 0 <= i < |fs| && fs[i].key == key;
      }
      assert r.value == m;
    case _ =>
  }

  /** Validating an already validated value changes nothing. */
  lemma DecodeIdempotent(lib: Lib, t: Type, j: Json)
    requires WellFormed(t)
    ensures Decode(lib, t, j).Some? ==> Decode(lib, t, Decode(lib, t, j).value) == Decode(lib, t, j)
  {
    if Decode(lib, t, j).Some? {
      CanonicalIsFixpoint(lib, t, Decode(lib, t, j).value);
    }
  }
}
