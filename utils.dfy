/**
 * `_checkConfigProps`: a configuration object is checked against a schema
 * that lists, for each field, the names of the runtime types the field may
 * have. The first field whose `typeof` is none of them stops the run with an
 * error naming the field, where it was looked for and the types allowed.
 */
module Utils {
  import opened Strings
  import opened Outcomes

  /** The JavaScript values, as far as `typeof` tells them apart. */
  datatype JsValue =
    | Undefined
    | Null
    | Bool(b: bool)
    | Number(n: real)
    | BigInt(i: int)
    | Str(s: string)
    | Symbol(description: string)
    | Object(properties: map<string, JsValue>)
    | Function(name: string)

  /** The `typeof` operator; `null` reports "object". */
  function TypeOf(v: JsValue): string {
    match v
    case Undefined => "undefined"
    case Null => "object"
    case Bool(_) => "boolean"
    case Number(_) => "number"
    case BigInt(_) => "bigint"
    case Str(_) => "string"
    case Symbol(_) => "symbol"
    case Object(_) => "object"
    case Function(_) => "function"
  }

  /** `typeof` names one of eight types; "undefined" only for `undefined` and
      "object" only for `null` and objects. */
  lemma TypeOfNames(v: JsValue)
    ensures TypeOf(v) in {"undefined", "object", "boolean", "number", "bigint", "string", "symbol", "function"}
    ensures TypeOf(v) == "undefined" <==> v.Undefined?
    ensures TypeOf(v) == "object" <==> v.Null? || v.Object?
  {
  }

  /** `obj[prop]` on an object's own properties: `undefined` when there is none. */
  function Get(obj: map<string, JsValue>, prop: string): JsValue {
    if prop in obj then obj[prop] else Undefined
  }

  /** One entry of a schema: a field and the type names it may have. */
  datatype Field = Field(name: string, types: seq<string>)

  /** A schema, its entries in the order `for ... in` visits them. */
  type Schema = seq<Field>

  /** The field holds a value whose `typeof` is one of those listed. */
  predicate FieldOk(obj: map<string, JsValue>, field: Field) {
    TypeOf(Get(obj, field.name)) in field.types
  }

  /** The text passed to `err` for a field that fails. */
  function ErrorMessage(prop: string, whereIsIt: string, types: seq<string>): string {
    "Field \"" + prop + "\" (in " + whereIsIt + ") should be " + Join(types, ", or ")
  }

  /** The outcome of the check: the first failing field, in schema order, stops it. */
  function Validate(obj: map<string, JsValue>, schema: Schema, whereIsIt: string): Outcome {
    if schema == [] then Pass
    else if !FieldOk(obj, schema[0]) then Fail(ErrorMessage(schema[0].name, whereIsIt, schema[0].types))
    else Validate(obj, schema[1..], whereIsIt)
  }

  /** `_checkConfigProps(obj, schema, whereIsIt)`: for each field, scan its type
      names until one matches `typeof obj[prop]`; a field with no match ends
      the run with an error. */
  method CheckConfigProps(obj: map<string, JsValue>, schema: Schema, whereIsIt: string)
    returns (outcome: Outcome)
    ensures outcome == Validate(obj, schema, whereIsIt)
  {
    for i := 0 to |schema|
      invariant Validate(obj, schema, whereIsIt) == Validate(obj, schema[i..], whereIsIt)
    {
      var prop := schema[i].name;
      var isValid := false;
      for j := 0 to |schema[i].types|
        invariant !isValid && TypeOf(Get(obj, prop)) !in schema[i].types[..j]
      {
        if TypeOf(Get(obj, prop)) == schema[i].types[j] {
          isValid := true;
          break;
        }
      }
      if !isValid {
        return Fail(ErrorMessage(prop, whereIsIt, schema[i].types));
      }
      assert schema[i..][1..] == schema[i + 1..];
    }
    return Pass;
  }

  /** The check passes exactly when every field of the schema is satisfied. */
  lemma {:induction false} ValidatePassIff(obj: map<string, JsValue>, schema: Schema, whereIsIt: string)
    ensures Validate(obj, schema, whereIsIt) == Pass <==> forall k :: 0 <= k < |schema| ==> FieldOk(obj, schema[k])
  {
    if schema != [] {
      ValidatePassIff(obj, schema[1..], whereIsIt);
      assert forall k :: 1 <= k < |schema| ==> schema[k] == schema[1..][k - 1];
    }
  }

  /** A failing check reports the first unsatisfied field, with the place and
      every type it allows. */
  lemma {:induction false} ValidateFailsAtFirst(obj: map<string, JsValue>, schema: Schema, whereIsIt: string, k: nat)
    requires k < |schema| && !FieldOk(obj, schema[k])
    requires forall j :: 0 <= j < k ==> FieldOk(obj, schema[j])
    ensures Validate(obj, schema, whereIsIt) == Fail(ErrorMessage(schema[k].name, whereIsIt, schema[k].types))
  {
    if k > 0 {
      assert forall j :: 0 <= j < k - 1 ==> schema[1..][j] == schema[j + 1];
      ValidateFailsAtFirst(obj, schema[1..], whereIsIt, k - 1);
    }
  }

  /** A field that lists no type can never be satisfied. */
  lemma EmptyTypeListFails(obj: map<string, JsValue>, schema: Schema, whereIsIt: string, k: nat)
    requires k < |schema| && schema[k].types == []
    ensures Validate(obj, schema, whereIsIt).Fail?
  {
    ValidatePassIff(obj, schema, whereIsIt);
  }

  /** When none of the schema's fields is present, the check passes exactly
      when every field lists "undefined". */
  lemma AbsentFieldsPassIff(obj: map<string, JsValue>, schema: Schema, whereIsIt: string)
    requires forall k :: 0 <= k < |schema| ==> schema[k].name !in obj
    ensures Validate(obj, schema, whereIsIt) == Pass <==>
      forall k :: 0 <= k < |schema| ==> "undefined" in schema[k].types
  {
    ValidatePassIff(obj, schema, whereIsIt);
  }

  /** Only the schema's fields are read: objects that agree on them get the same outcome. */
  lemma {:induction false} OnlySchemaFieldsRead(a: map<string, JsValue>, b: map<string, JsValue>, schema: Schema, whereIsIt: string)
    requires forall k :: 0 <= k < |schema| ==> Get(a, schema[k].name) == Get(b, schema[k].name)
    ensures Validate(a, schema, whereIsIt) == Validate(b, schema, whereIsIt)
  {
    if schema != [] {
      assert forall k :: 0 <= k < |schema| - 1 ==> schema[1..][k] == schema[k + 1];
      OnlySchemaFieldsRead(a, b, schema[1..], whereIsIt);
    }
  }
}
