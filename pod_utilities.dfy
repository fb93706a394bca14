/**
 * The object helpers of lib/main.js: schema-validation delegate, key
 * extraction, the configuration-error message, the two trimming functions and
 * the PodError record. The exempt field names that the source reads from
 * `config.notTrimFields` are the parameter `exempt`; the schema validator is
 * the parameter `validator`.
 */
module PodUtilities {
  import opened JsValue
  import opened EcmaTrim

  // ---------------------------------------------------------------- validate

  /** The schema validator the source delegates to: whether it accepts `data`
      against `schema`, and the errors it then reports. */
  datatype Validator = Validator(accepts: (Value, Value) -> bool, errorsOf: (Value, Value) -> Value)

  datatype ValidationResult = ValidationResult(status: bool, errors: Value)

  /** The verdict validate returns: accepted data gives status true and no
      errors, rejected data gives status false and the validator's errors. */
  function ValidationOutcome(validator: Validator, schema: Value, data: Value): (r: ValidationResult)
    ensures r.status <==> validator.accepts(schema, data)
    ensures r.status ==> r.errors == Null
    ensures !r.status ==> r.errors == validator.errorsOf(schema, data)
  {
    if validator.accepts(schema, data) then ValidationResult(true, Null)
    else ValidationResult(false, validator.errorsOf(schema, data))
  }

  /** Starts from a passing record and overwrites both fields when the
      validator rejects the data. */
  method Validate(validator: Validator, schema: Value, data: Value) returns (r: ValidationResult)
    ensures r == ValidationOutcome(validator, schema, data)
  {
    r := ValidationResult(true, Null);
    if !validator.accepts(schema, data) {
      r := r.(status := false);
      r := r.(errors := validator.errorsOf(schema, data));
    }
  }

  // ---------------------------------------------------- extractKeysFromObject

  /** The position of the first occurrence of `k` in `s`. */
  function FirstIndex(s: seq<string>, k: string): (i: nat)
    requires k in s
    ensures i < |s| && s[i] == k && k !in s[..i]
  {
    if s[0] == k then 0 else FirstIndex(s[1..], k) + 1
  }

  /** The one key an assignment cannot create on a plain object:
      `newObj["__proto__"] = x` runs the setter inherited from
      Object.prototype, which replaces the prototype of `newObj` instead. */
  const ProtoKey: string := "__proto__"

  /** The keys of the object extractKeysFromObject builds: the names in
      `names` that are own properties of `obj`, other than "__proto__", each
      where it first occurs. */
  function ExtractedKeys(obj: Value, names: seq<string>): (keys: seq<string>)
    requires !obj.Null? && !obj.Undefined?
    ensures forall k | k in keys :: k in names && HasOwnProperty(obj, k) && k != ProtoKey
  {
    if names == [] then []
    else
      var prev := ExtractedKeys(obj, names[..|names| - 1]);
      var x := names[|names| - 1];
      if HasOwnProperty(obj, x) && x != ProtoKey && x !in prev then prev + [x] else prev
  }

  /** What extractKeysFromObject returns. Each name is looked up with
      `obj.hasOwnProperty`, which throws for null and undefined and when an
      own field of `obj` hides the method. */
  function Extracted(obj: Value, names: seq<string>): Result<Value> {
    if obj.Null? || obj.Undefined? || HidesHasOwnProperty(obj) then
      if names == [] then Ok(Obj(PlainObject, [], map[])) else Err(TypeError)
    else
      var keys := ExtractedKeys(obj, names);
      Ok(Obj(PlainObject, keys, map k | k in keys :: OwnProperty(obj, k)))
  }

  /** Builds a new plain object and copies into it, name by name, every own
      property of `obj` that `fieldArray` names. */
  method ExtractKeysFromObject(obj: Value, fieldArray: seq<string>) returns (r: Result<Value>)
    ensures r == Extracted(obj, fieldArray)
  {
    if obj.Null? || obj.Undefined? || HidesHasOwnProperty(obj) {
      // The first call of obj.hasOwnProperty throws; with no names to look
      // up, the loop never runs and the new object stays empty.
      if fieldArray == [] {
        return Ok(Obj(PlainObject, [], map[]));
      }
      return Err(TypeError);
    }
    var keys: seq<string> := [];
    var fields: map<string, Value> := map[];
    for i := 0 to |fieldArray|
      invariant keys == ExtractedKeys(obj, fieldArray[..i])
      invariant forall k :: k in fields <==> k in keys
      invariant forall k | k in fields :: fields[k] == OwnProperty(obj, k)
    {
      var k := fieldArray[i];
      assert fieldArray[..i + 1][..i] == fieldArray[..i];
      // An assignment to "__proto__" goes to the inherited setter: the new
      // object gets another prototype and no own key.
      if HasOwnProperty(obj, k) && k != ProtoKey {
        if k !in fields {
          keys := keys + [k];
        }
        fields := fields[k := OwnProperty(obj, k)];
      }
    }
    assert fieldArray[..|fieldArray|] == fieldArray;
    assert fields == map k | k in keys :: OwnProperty(obj, k);
    r := Ok(Obj(PlainObject, keys, fields));
  }

  // ------------------------------------------------------ invalidConfigParam

  const InvalidConfigPrefix: string := "Invalid Config Paramethers. Module: "

  /** The message for an invalid configuration parameter of a module: the
      fixed prefix, then the module name. */
  function InvalidConfigParam(moduleName: string): (r: string)
    ensures |r| == |InvalidConfigPrefix| + |moduleName|
    ensures r[..|InvalidConfigPrefix|] == InvalidConfigPrefix
    ensures r[|InvalidConfigPrefix|..] == moduleName
  {
    InvalidConfigPrefix + moduleName
  }

  /** Reads the module name back out of such a message. */
  function ModuleNameOf(message: string): (r: Option<string>)
    ensures forall m :: r == Some(m) <==> message == InvalidConfigPrefix + m
  {
    if |message| >= |InvalidConfigPrefix| && message[..|InvalidConfigPrefix|] == InvalidConfigPrefix
    then Some(message[|InvalidConfigPrefix|..])
    else None
  }

  // ---------------------------------------------------------------- trimObject

  /** The keys visited after step `i` of a walk over distinct keys: the ones
      visited before, and a new one. */
  lemma KeysStep(keys: seq<string>, i: nat)
    requires Distinct(keys) && i < |keys|
    ensures keys[i] !in keys[..i]
    ensures keys[..i + 1] == keys[..i] + [keys[i]]
  {
  }

  /** The value trimObject leaves under key `k`: trimmed if it is a string and
      `k` is not exempt, untouched otherwise. */
  function ShallowTrimField(k: string, v: Value, exempt: set<string>): Value {
    if v.Str? && k !in exempt then Str(Trim(v.s)) else v
  }

  /** What trimObject returns for `v`. Object.keys throws on null and
      undefined, and `obj.hasOwnProperty` on an object whose own field hides
      it; other primitives have no enumerable keys to rewrite (the indices of
      a string cannot be assigned), so they come back unchanged. */
  function ShallowTrim(v: Value, exempt: set<string>): Result<Value> {
    match v
    case Null => Err(TypeError)
    case Undefined => Err(TypeError)
    case Obj(kind, keys, fields) =>
      if HidesHasOwnProperty(v) then Err(TypeError)
      else Ok(Obj(kind, keys, map k | k in fields :: ShallowTrimField(k, fields[k], exempt)))
    case _ => Ok(v)
  }

  /** ShallowTrim of an object that does not hide hasOwnProperty is the
      object whose fields hold what ShallowTrimField made of each. */
  lemma ShallowTrimObject(kind: ObjKind, keys: seq<string>, fields: map<string, Value>,
                          props: map<string, Value>, exempt: set<string>)
    requires "hasOwnProperty" !in fields && props.Keys == fields.Keys
    requires forall k | k in fields :: props[k] == ShallowTrimField(k, fields[k], exempt)
    ensures ShallowTrim(Obj(kind, keys, fields), exempt) == Ok(Obj(kind, keys, props))
  {
    assert props == map k | k in fields :: ShallowTrimField(k, fields[k], exempt);
  }

  /** Clones `inpObj`, then walks its keys and replaces every non-exempt
      string value by its trimmed form. */
  method TrimObject(inpObj: Value, exempt: set<string>) returns (r: Result<Value>)
    requires KeysListed(inpObj)
    ensures r == ShallowTrim(inpObj, exempt)
  {
    var obj := inpObj;
    if obj.Null? || obj.Undefined? {
      return Err(TypeError);
    }
    if !obj.Obj? {
      return Ok(obj);
    }
    if HidesHasOwnProperty(obj) {
      // Every pass of the loop calls obj.hasOwnProperty; the field hiding it
      // is among the keys, so the loop runs and its first pass throws.
      return Err(TypeError);
    }
    var fields := obj.keys;
    var props := obj.fields;
    for i := 0 to |fields|
      invariant props.Keys == obj.fields.Keys
      invariant forall k | k in obj.fields && k in fields[..i] ::
        props[k] == ShallowTrimField(k, obj.fields[k], exempt)
      invariant forall k | k in obj.fields && k !in fields[..i] :: props[k] == obj.fields[k]
    {
      var k := fields[i];
      KeysStep(fields, i);
      if k in props && props[k].Str? && k !in exempt {
        props := props[k := Str(Trim(props[k].s))];
      }
      // The source's second branch tests Array.isArray on the key, which is
      // a string, so it never runs.
    }
    assert fields[..|fields|] == fields;
    ShallowTrimObject(obj.kind, obj.keys, obj.fields, props, exempt);
    r := Ok(Obj(obj.kind, obj.keys, props));
  }

  // ---------------------------------------------------------- trimNestedObject

  /** The value trimNestedObject leaves under key `k`: a non-exempt string is
      trimmed, a non-exempt value whose typeof is 'object' (null included) is
      trimmed recursively, anything else is untouched. */
  function DeepTrimField(k: string, v: Value, exempt: set<string>): Result<Value>
    decreases v, 1
  {
    if k in exempt then Ok(v)
    else if v.Str? then Ok(Str(Trim(v.s)))
    else if IsTypeofObject(v) then DeepTrim(v, exempt)
    else Ok(v)
  }

  /** What trimNestedObject returns for `v`: an error when `v` is null or
      undefined, when an own field hides `hasOwnProperty`, or when some field
      it descends into fails; otherwise `v` with every field rewritten by
      DeepTrimField. */
  function DeepTrim(v: Value, exempt: set<string>): Result<Value>
    decreases v, 0
  {
    match v
    case Null => Err(TypeError)
    case Undefined => Err(TypeError)
    case Obj(kind, keys, fields) =>
      if HidesHasOwnProperty(v) then Err(TypeError)
      else if exists k | k in fields :: DeepTrimField(k, fields[k], exempt).Err? then Err(TypeError)
      else Ok(Obj(kind, keys, map k | k in fields :: DeepTrimField(k, fields[k], exempt).value))
    case _ => Ok(v)
  }

  /** DeepTrim of an object that does not hide hasOwnProperty succeeds with
      `props` when every field does and `props` holds what each field
      became. */
  lemma DeepTrimObjectOk(kind: ObjKind, keys: seq<string>, fields: map<string, Value>,
                         props: map<string, Value>, exempt: set<string>)
    requires "hasOwnProperty" !in fields && props.Keys == fields.Keys
    requires forall k | k in fields :: DeepTrimField(k, fields[k], exempt) == Ok(props[k])
    ensures DeepTrim(Obj(kind, keys, fields), exempt) == Ok(Obj(kind, keys, props))
  {
    assert props == map k | k in fields :: DeepTrimField(k, fields[k], exempt).value;
  }

  /** DeepTrim of an object fails when one of its fields does. */
  lemma DeepTrimObjectErr(kind: ObjKind, keys: seq<string>, fields: map<string, Value>,
                          k: string, exempt: set<string>)
    requires k in fields && DeepTrimField(k, fields[k], exempt).Err?
    ensures DeepTrim(Obj(kind, keys, fields), exempt) == Err(TypeError)
  {
  }

  /** Clones `inpObj`, then walks its keys: non-exempt strings are trimmed and
      non-exempt values of typeof 'object' are replaced by a recursive call;
      the exception of a recursive call propagates. */
  method TrimNestedObject(inpObj: Value, exempt: set<string>) returns (r: Result<Value>)
    requires KeysListedDeep(inpObj)
    ensures r == DeepTrim(inpObj, exempt)
    decreases inpObj
  {
    var obj := inpObj;
    if obj.Null? || obj.Undefined? {
      return Err(TypeError);
    }
    if !obj.Obj? {
      return Ok(obj);
    }
    if HidesHasOwnProperty(obj) {
      // Every pass of the loop calls obj.hasOwnProperty; the field hiding it
      // is among the keys, so the loop runs and its first pass throws.
      return Err(TypeError);
    }
    var fields := obj.keys;
    var props := obj.fields;
    for i := 0 to |fields|
      invariant props.Keys == obj.fields.Keys
      invariant forall k | k in obj.fields && k in fields[..i] ::
        DeepTrimField(k, obj.fields[k], exempt) == Ok(props[k])
      invariant forall k | k in obj.fields && k !in fields[..i] :: props[k] == obj.fields[k]
    {
      var k := fields[i];
      KeysStep(fields, i);
      if k in props && props[k].Str? && k !in exempt {
        props := props[k := Str(Trim(props[k].s))];
      } else if k in props && IsTypeofObject(props[k]) && k !in exempt {
        var sub := TrimNestedObject(props[k], exempt);
        if sub.Err? {
          DeepTrimObjectErr(obj.kind, obj.keys, obj.fields, k, exempt);
          return Err(TypeError);
        }
        props := props[k := sub.value];
      }
      // As in trimObject, the Array.isArray test on the key never succeeds;
      // arrays are objects and went through the branch above.
    }
    assert fields[..|fields|] == fields;
    DeepTrimObjectOk(obj.kind, obj.keys, obj.fields, props, exempt);
    r := Ok(Obj(obj.kind, obj.keys, props));
  }

  // ------------------------------------------------------------------ PodError

  datatype PodError = PodError(code: int, message: Value, originalResult: Value)

  /** `new PodError(code, message, originalResult)`: code and message are kept
      as given; `originalResult || null` turns a missing or falsy original
      result into null. */
  function NewPodError(code: int, message: Value, originalResult: Value := Undefined): (e: PodError)
    ensures e.code == code && e.message == message
    ensures Truthy(originalResult) ==> e.originalResult == originalResult
    ensures !Truthy(originalResult) ==> e.originalResult == Null
  {
    PodError(code, message, if Truthy(originalResult) then originalResult else Null)
  }
}
