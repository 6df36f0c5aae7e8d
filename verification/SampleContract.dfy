/** Sample payloads generated from a JSON schema, against a validator for the keywords the generator reads. */
module SampleContract {
  import opened Options
  import opened Jsons

  /** `type_` is the raw `type` keyword, null when absent; an empty `enum_` is an absent one. */
  datatype Schema = Schema(type_: Json, required: seq<string>, properties: map<string, Schema>, items: Option<Schema>,
                           enum_: seq<Json>)

  // ---- The generator -------------------------------------------------------------------------------

  function FirstType(t: Json): string {
    match t
    case Str(s) => s
    case Arr(xs) => if |xs| > 0 && xs[0].Str? then xs[0].str else ""
    case _ => ""
  }

  function Emit(s: Schema): Json {
    if |s.enum_| > 0 then s.enum_[0]
    else
      var t := FirstType(s.type_);
      if t == "object" then
        Obj(map name | name in s.required :: if name in s.properties then Emit(s.properties[name]) else Null)
      else if t == "array" then Arr(if s.items == None then [] else [Emit(s.items.value)])
      else if t == "string" then Str("")
      else if t == "integer" || t == "number" then Num(0.0)
      else if t == "boolean" then Bool(false)
      else Null
  }

  /** Required members are filled in one by one, a repeated name simply once more. */
  method EmitFromJSONSchema(s: Schema) returns (v: Json)
    ensures v == Emit(s)
    decreases s
  {
    if |s.enum_| > 0 {
      return s.enum_[0];
    }
    var t := FirstType(s.type_);
    if t == "object" {
      var out: map<string, Json> := map[];
      for i := 0 to |s.required|
        invariant out == map name | name in s.required[..i] ::
                  if name in s.properties then Emit(s.properties[name]) else Null
      {
        var name := s.required[i];
        assert forall x :: x in s.required[..i + 1] <==> x in s.required[..i] || x == name;
        if name in s.properties {
          var child := EmitFromJSONSchema(s.properties[name]);
          out := out[name := child];
        } else {
          out := out[name := Null];
        }
      }
      assert s.required[..|s.required|] == s.required;
      return Obj(out);
    }
    if t == "array" {
      if s.items == None {
        return Arr([]);
      }
      var item := EmitFromJSONSchema(s.items.value);
      return Arr([item]);
    }
    v :=
      if t == "string" then Str("")
      else if t == "integer" || t == "number" then Num(0.0)
      else if t == "boolean" then Bool(false)
      else Null;
  }

  // ---- The validator -------------------------------------------------------------------------------

  /** Section 6.1.1 of JSON Schema Validation 2020-12; an integer is any number without a fractional part. */
  predicate HasType(v: Json, t: string) {
    match v
    case Null => t == "null"
    case Bool(_) => t == "boolean"
    case Num(n) => t == "number" || (t == "integer" && n == n.Floor as real)
    case Str(_) => t == "string"
    case Arr(_) => t == "array"
    case Obj(_) => t == "object"
  }

  predicate TypeAllows(t: Json, v: Json) {
    match t
    case Null => true
    case Str(s) => HasType(v, s)
    case Arr(xs) => exists i :: 0 <= i < |xs| && xs[i].Str? && HasType(v, xs[i].str)
    case _ => false
  }

  /** The keywords type, enum, required, properties and items; the last three bind only values of their own kind. */
  predicate Validates(v: Json, s: Schema) {
    && TypeAllows(s.type_, v)
    && (|s.enum_| > 0 ==> v in s.enum_)
    && (v.Obj? ==>
         && (forall i :: 0 <= i < |s.required| ==> s.required[i] in v.fields)
         && (forall k :: k in s.properties ==> k in v.fields ==> Validates(v.fields[k], s.properties[k])))
    && (v.Arr? && s.items.Some? ==> forall i :: 0 <= i < |v.items| ==> Validates(v.items[i], s.items.value))
  }

  // ---- When a sample validates ---------------------------------------------------------------------

  const SCALARS: set<string> := {"string", "integer", "number", "boolean", "null"}

  /**
   * A schema that can be sampled: a first enum value fits its own schema, an unknown or missing type name leaves
   * null possible, and so on down the parts of the sample.
   */
  predicate Samplable(s: Schema) {
    if |s.enum_| > 0 then Validates(s.enum_[0], s)
    else
      var t := FirstType(s.type_);
      if t == "object" then forall k :: k in s.properties ==> k in s.required ==> Samplable(s.properties[k])
      else if t == "array" then s.items.Some? ==> Samplable(s.items.value)
      else t in SCALARS || TypeAllows(s.type_, Null)
  }

  lemma FirstTypeAllows(s: Schema, v: Json)
    requires FirstType(s.type_) != "" && HasType(v, FirstType(s.type_))
    ensures TypeAllows(s.type_, v)
  {}

  lemma ZeroIsInteger()
    ensures HasType(Num(0.0), "integer") && HasType(Num(0.0), "number")
  {}

  /** The sample of a schema validates against it exactly when the schema is samplable. */
  lemma {:induction false} SampleValidatesIff(s: Schema)
    ensures Validates(Emit(s), s) <==> Samplable(s)
    decreases s
  {
    if |s.enum_| == 0 {
      var t := FirstType(s.type_);
      if t == "object" {
        forall k | k in s.properties ensures Validates(Emit(s.properties[k]), s.properties[k]) <==>
            Samplable(s.properties[k]) {
          SampleValidatesIff(s.properties[k]);
        }
        ObjectSample(s);
      } else if t == "array" {
        if s.items.Some? { SampleValidatesIff(s.items.value); }
        ArraySample(s);
      } else {
        ZeroIsInteger();
        ScalarSample(s);
      }
    }
  }

  lemma ObjectSample(s: Schema)
    requires |s.enum_| == 0 && FirstType(s.type_) == "object"
    requires forall k :: k in s.properties ==>
             (Validates(Emit(s.properties[k]), s.properties[k]) <==> Samplable(s.properties[k]))
    ensures Validates(Emit(s), s) <==> Samplable(s)
  {
    FirstTypeAllows(s, Emit(s));
    hide TypeAllows;
    var fields := Emit(s).fields;
    assert forall k :: k in s.properties && k in fields ==> fields[k] == Emit(s.properties[k]);
  }

  lemma ArraySample(s: Schema)
    requires |s.enum_| == 0 && FirstType(s.type_) == "array"
    requires s.items.Some? ==> (Validates(Emit(s.items.value), s.items.value) <==> Samplable(s.items.value))
    ensures Validates(Emit(s), s) <==> Samplable(s)
  {
    FirstTypeAllows(s, Emit(s));
    hide TypeAllows;
  }

  lemma ScalarSample(s: Schema)
    requires |s.enum_| == 0 && FirstType(s.type_) !in {"object", "array"}
    requires HasType(Num(0.0), "integer") && HasType(Num(0.0), "number")
    ensures Validates(Emit(s), s) <==> Samplable(s)
  {
    if FirstType(s.type_) in SCALARS {
      FirstTypeAllows(s, Emit(s));
    }
    hide TypeAllows;
  }

  /** The schema's type, which is a name or a list that begins with one. */
  ghost predicate IsOfType(s: Schema, t: string) {
    s.type_ == Str(t) || (s.type_.Arr? && |s.type_.items| > 0 && s.type_.items[0] == Str(t))
  }

  /**
   * What a sample consists of: the first enum value; the required keys, each with the sample of its property or null;
   * at most one item; and otherwise the zero value of the type.
   */
  lemma SampleSays(s: Schema)
    ensures s.enum_ != [] ==> Emit(s) == s.enum_[0]
    ensures s.enum_ == [] && IsOfType(s, "object") ==>
              && Emit(s).Obj? && Emit(s).fields.Keys == (set k | k in s.required)
              && forall k :: k in s.required ==>
                   Emit(s).fields[k] == if k in s.properties then Emit(s.properties[k]) else Null
    ensures s.enum_ == [] && IsOfType(s, "array") ==>
              && Emit(s).Arr? && (s.items.None? ==> Emit(s).items == [])
              && (s.items.Some? ==> Emit(s).items == [Emit(s.items.value)])
    ensures forall t :: s.enum_ == [] && IsOfType(s, t) && t !in {"object", "array"} ==>
              Emit(s) == match t
                         case "string" => Str("")
                         case "integer" => Num(0.0)
                         case "number" => Num(0.0)
                         case "boolean" => Bool(false)
                         case _ => Null
    ensures s.enum_ == [] && (forall t :: !IsOfType(s, t)) ==> Emit(s) == Null
  {
    assert forall t :: IsOfType(s, t) ==> FirstType(s.type_) == t;
    assert FirstType(s.type_) == "" || IsOfType(s, FirstType(s.type_));
  }
}
