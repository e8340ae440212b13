/** Dict-style access on the schema objects (`SubscriptableBaseModel` in
    alloyai_client/types.py), over an abstract record: the class's declared fields with their
    defaults, the set of fields given explicitly (pydantic's `model_fields_set`), and the
    object's attribute values. */
module Schema {
  import opened Wrappers
  import opened Json

  /** A declared field's default. pydantic reports a required field, and one built by a
      `default_factory`, with the sentinel `PydanticUndefined`, which is not `None`. */
  datatype FieldDefault = Required | Factory(produced: Json) | Default(value: Json)

  predicate DefaultIsNone(d: FieldDefault) {
    d == Default(JNull)
  }

  datatype SchemaObject = SchemaObject(
    fields: map<string, FieldDefault>,
    fieldsSet: set<string>,
    attrs: map<string, Json>)

  /** Only declared fields are ever recorded as set, and every declared field has a value. */
  predicate Valid(o: SchemaObject) {
    o.fieldsSet <= o.fields.Keys && o.fields.Keys <= o.attrs.Keys
  }

  datatype SchemaError = KeyError(key: string) | NoSuchField(field: string) | MissingFields(names: set<string>)

  /** `key in obj`. */
  function Contains(o: SchemaObject, key: string): (r: bool)
    requires Valid(o)
    ensures key in o.fieldsSet ==> r
    ensures key !in o.fieldsSet && key in o.fields ==> (r <==> !DefaultIsNone(o.fields[key]))
    ensures key !in o.fields ==> !r
    ensures r ==> key in o.attrs
  {
    if key in o.fieldsSet then true
    else if key in o.fields then !DefaultIsNone(o.fields[key])
    else false
  }

  /** `obj[key]`: the attribute when `key in obj`, `KeyError` otherwise. */
  function GetItem(o: SchemaObject, key: string): (r: Result<Json, SchemaError>)
    requires Valid(o)
    ensures r.Success? <==> Contains(o, key)
    ensures r.Success? ==> r.value == o.attrs[key]
    ensures r.Failure? ==> r.error == KeyError(key)
  {
    if Contains(o, key) then Success(o.attrs[key]) else Failure(KeyError(key))
  }

  /** `obj[key] = value`: `setattr`, which pydantic refuses for a name that is not a
      declared field and otherwise records in `model_fields_set`. */
  function SetItem(o: SchemaObject, key: string, value: Json): (r: Result<SchemaObject, SchemaError>)
    requires Valid(o)
    ensures r.Success? <==> key in o.fields
    ensures r.Success? ==> Valid(r.value) && r.value.fields == o.fields
    ensures r.Success? ==> Contains(r.value, key) && GetItem(r.value, key) == Success(value)
    ensures r.Success? ==> forall k :: k != key ==>
      (Contains(r.value, k) <==> Contains(o, k)) && (k in r.value.attrs <==> k in o.attrs)
    ensures r.Success? ==> forall k :: k != key && k in o.attrs ==> r.value.attrs[k] == o.attrs[k]
  {
    if key in o.fields then
      Success(o.(fieldsSet := o.fieldsSet + {key}, attrs := o.attrs[key := value]))
    else
      Failure(NoSuchField(key))
  }

  /** `obj.get(key, default)`: the attribute whenever it exists, whether or not `key in obj`. */
  function Get(o: SchemaObject, key: string, default: Json): (r: Json)
    requires Valid(o)
    ensures key in o.attrs ==> r == o.attrs[key]
    ensures key !in o.attrs ==> r == default
    ensures Contains(o, key) ==> Success(r) == GetItem(o, key)
  {
    if key in o.attrs then o.attrs[key] else default
  }

  /** Construction from keyword arguments: a declared field takes the given value and is
      recorded as set; otherwise it takes its default, and a missing required field is an
      error. Undeclared keys are ignored. `classAttrs` are the non-field attributes the
      object also has (its methods), which a field of the same name shadows. */
  function Construct(fields: map<string, FieldDefault>, classAttrs: map<string, Json>, input: map<string, Json>)
    : (r: Result<SchemaObject, SchemaError>)
    ensures r.Success? <==> forall k :: k in fields && fields[k] == Required ==> k in input
    ensures r.Failure? ==> r.error == MissingFields(set k | k in fields && fields[k] == Required && k !in input)
    ensures r.Success? ==> Valid(r.value) && r.value.fields == fields
    ensures r.Success? ==> r.value.fieldsSet == fields.Keys * input.Keys
    ensures r.Success? ==> forall k :: k in fields && k in input ==> r.value.attrs[k] == input[k]
    ensures r.Success? ==> forall k :: k in fields && k !in input && fields[k].Default? ==> r.value.attrs[k] == fields[k].value
  {
    var missing := set k | k in fields && fields[k] == Required && k !in input;
    assert forall k :: k in fields && fields[k] == Required && k !in input ==> k in missing;
    if missing != {} then
      Failure(MissingFields(missing))
    else
      var values := map k | k in fields ::
        if k in input then input[k]
        else match fields[k]
             case Factory(v) => v
             case Default(v) => v
             case Required => JNull;
      Success(SchemaObject(fields, fields.Keys * input.Keys, classAttrs + values))
  }

  // ---------------------------------------------------------------------------
  // The declared fields of the schema classes the examples use.

  const MessageFields: map<string, FieldDefault> := map[
    "role" := Required,
    "content" := Default(JNull),
    "thinking" := Default(JNull),
    "tool_name" := Default(JNull),
    "tool_calls" := Default(JNull)]

  const ToolFields: map<string, FieldDefault> := map[
    "type" := Default(JStr("function")),
    "function" := Default(JNull)]

  const AlloyModelFields: map<string, FieldDefault> := map[
    "model_id" := Required,
    "active_requests" := Required,
    "is_supported" := Required,
    "supports_concurrent_requests" := Default(JBool(false)),
    "capabilities" := Required,
    "allocation_status" := Required]

  /** A field given explicitly counts as present even when it was given `None`; a field
      left unset counts as present exactly when its default is not `None`. */
  lemma ContainsAfterConstruct(fields: map<string, FieldDefault>, classAttrs: map<string, Json>, input: map<string, Json>, key: string)
    requires Construct(fields, classAttrs, input).Success?
    requires key in fields
    ensures Contains(Construct(fields, classAttrs, input).value, key) <==> key in input || !DefaultIsNone(fields[key])
  {
  }

  /** The `Message` examples: declared-but-unset `content` is absent, `role` present,
      an undeclared key absent; after assignment, even of `None`, the key is present. */
  lemma MessageExamples()
    ensures var msg := Construct(MessageFields, map[], map["role" := JStr("user")]);
      && msg.Success?
      && Contains(msg.value, "role") && GetItem(msg.value, "role") == Success(JStr("user"))
      && !Contains(msg.value, "content")
      && !Contains(msg.value, "nonexistent")
      && GetItem(msg.value, "nonexistent") == Failure(KeyError("nonexistent"))
      && Get(msg.value, "nonexistent", JNull) == JNull
      && Get(msg.value, "nonexistent", JStr("default")) == JStr("default")
      && Get(msg.value, "content", JStr("default")) == JNull
      && SetItem(msg.value, "tool_calls", JNull).Success?
      && Contains(SetItem(msg.value, "tool_calls", JNull).value, "tool_calls")
      && SetItem(msg.value, "nonexistent", JNull) == Failure(NoSuchField("nonexistent"))
  {
    var msg := Construct(MessageFields, map[], map["role" := JStr("user")]);
    assert msg.Success?;
    assert msg.value.fieldsSet == {"role"};
  }

  /** `Tool()`: `type` defaults to `'function'`, so `'type' in tool` holds. */
  lemma ToolExample()
    ensures var tool := Construct(ToolFields, map[], map[]);
      tool.Success? && Contains(tool.value, "type") && !Contains(tool.value, "function")
  {
    var tool := Construct(ToolFields, map[], map[]);
    assert tool.value.fieldsSet == {};
  }

  /** An `AlloyModel` built without `supports_concurrent_requests` reads it as false,
      and the field counts as present because its default is not `None`. */
  lemma AlloyModelConcurrencyDefault(input: map<string, Json>)
    requires Construct(AlloyModelFields, map[], input).Success?
    requires "supports_concurrent_requests" !in input
    ensures var m := Construct(AlloyModelFields, map[], input).value;
      GetItem(m, "supports_concurrent_requests") == Success(JBool(false))
  {
  }
}
