/**
 * What the helpers of lib/main.js promise, proved about the functions that
 * specify them in module PodUtilities.
 */
module PodUtilitiesProperties {
  import opened JsValue
  import opened EcmaTrim
  import opened PodUtilities

  // ---------------------------------------------------------------- validate

  /** When the validator reports errors for every input it rejects, the
      record's errors are present exactly when its status is false. */
  lemma ValidateErrorsIffRejected(validator: Validator, schema: Value, data: Value)
    requires !validator.accepts(schema, data) ==> validator.errorsOf(schema, data) != Null
    ensures var r := ValidationOutcome(validator, schema, data);
      r.errors != Null <==> !r.status
  {
  }

  // ---------------------------------------------------- extractKeysFromObject

  lemma {:induction false} FirstIndexOfPrefix(s: seq<string>, n: nat, k: string)
    requires n <= |s| && k in s[..n]
    ensures FirstIndex(s[..n], k) == FirstIndex(s, k)
  {
  }

  /** The keys extractKeysFromObject copies are exactly the names in
      `names` that are own properties of `obj`, except "__proto__", each
      listed once, in the order in which the names first occur. */
  lemma {:induction false} ExtractedKeysAreTheOwnNames(obj: Value, names: seq<string>)
    requires !obj.Null? && !obj.Undefined?
    ensures var keys := ExtractedKeys(obj, names);
      && Distinct(keys)
      && (forall k :: k in keys <==> k in names && HasOwnProperty(obj, k) && k != ProtoKey)
      && (forall i, j | 0 <= i < j < |keys| ::
            FirstIndex(names, keys[i]) < FirstIndex(names, keys[j]))
  {
    if names != [] {
      var n := |names| - 1;
      var init := names[..n];
      var x := names[n];
      var prev := ExtractedKeys(obj, init);
      ExtractedKeysAreTheOwnNames(obj, init);
      assert names == init + [x];
      forall k | k in prev ensures FirstIndex(names, k) < n {
        FirstIndexOfPrefix(names, n, k);
      }
      forall k | k in prev ensures FirstIndex(init, k) == FirstIndex(names, k) {
        FirstIndexOfPrefix(names, n, k);
      }
      if HasOwnProperty(obj, x) && x != ProtoKey && x !in prev {
        assert x !in init;
        assert FirstIndex(names, x) == n;
      }
    }
  }

  /** extractKeysFromObject throws exactly when it has a name to look up
      and `obj.hasOwnProperty` cannot be called: `obj` is null or undefined,
      or an own field of `obj` hides the method. */
  lemma ExtractKeysFromObjectFails(obj: Value, fieldArray: seq<string>)
    ensures Extracted(obj, fieldArray).Err? <==>
      fieldArray != [] && (obj.Null? || obj.Undefined? || HidesHasOwnProperty(obj))
  {
  }

  /** Otherwise extractKeysFromObject returns a new plain object whose
      entries are exactly the own properties of `obj` named in `fieldArray`,
      with the values `obj` holds; names that `obj` lacks are skipped, and so
      is "__proto__", which the assignment turns into a prototype. */
  lemma ExtractKeysFromObjectEntries(obj: Value, fieldArray: seq<string>)
    requires !obj.Null? && !obj.Undefined? && !HidesHasOwnProperty(obj)
    ensures Extracted(obj, fieldArray).Ok?
    ensures var o := Extracted(obj, fieldArray).value;
      && o.Obj? && o.kind == PlainObject && KeysListed(o)
      && (forall k :: k in o.fields <==> k in fieldArray && HasOwnProperty(obj, k) && k != ProtoKey)
      && (forall k | k in o.fields :: o.fields[k] == OwnProperty(obj, k))
  {
    ExtractedKeysAreTheOwnNames(obj, fieldArray);
  }

  /** The example of the test suite: {a: 10, b: 100, c: 1000} restricted to
      ['a', 'b'] is {a: 10, b: 100}. */
  lemma ExtractKeysFromObjectExample()
    ensures Extracted(Obj(PlainObject, ["a", "b", "c"], map["a" := Num(10), "b" := Num(100), "c" := Num(1000)]), ["a", "b"])
         == Ok(Obj(PlainObject, ["a", "b"], map["a" := Num(10), "b" := Num(100)]))
  {
    var obj := Obj(PlainObject, ["a", "b", "c"], map["a" := Num(10), "b" := Num(100), "c" := Num(1000)]);
    var names := ["a", "b"];
    assert !HidesHasOwnProperty(obj);
    assert ExtractedKeys(obj, names[..1]) == ["a"] by {
      assert names[..1] == ["a"] && names[..1][..0] == [];
    }
    assert ExtractedKeys(obj, names) == ["a", "b"];
    assert (map k | k in ["a", "b"] :: OwnProperty(obj, k)) == map["a" := Num(10), "b" := Num(100)];
  }

  // ------------------------------------------------------ invalidConfigParam

  /** The module name can be read back from the message, so different
      modules get different messages. */
  lemma InvalidConfigParamRoundTrip(moduleName: string)
    ensures ModuleNameOf(InvalidConfigParam(moduleName)) == Some(moduleName)
  {
  }

  // ------------------------------------------------------- both trim functions

  /** `w` is `v` with at most the text of some strings changed: the same kind
      of value everywhere, the same keys in the same order at every depth, and
      every value that is not a string is kept. */
  ghost predicate OnlyStringsDiffer(v: Value, w: Value) {
    match v
    case Str(_) => w.Str?
    case Obj(kind, keys, fields) =>
      && w.Obj? && w.kind == kind && w.keys == keys && w.fields.Keys == fields.Keys
      && forall k | k in fields :: OnlyStringsDiffer(fields[k], w.fields[k])
    case _ => w == v
  }

  // ---------------------------------------------------------------- trimObject

  /** trimObject throws exactly when Object.keys or obj.hasOwnProperty
      does: on null and undefined, and on an object with an own field named
      "hasOwnProperty". */
  lemma TrimObjectFails(v: Value, exempt: set<string>)
    ensures ShallowTrim(v, exempt).Err? <==> v.Null? || v.Undefined? || HidesHasOwnProperty(v)
  {
  }

  /** Otherwise trimObject on an object succeeds, even with null fields. It
      keeps the keys and their order; a non-exempt string field holds the
      trimmed original; every exempt field and every value that is not a
      string (a nested object, an array, a Date, a number) is left as it
      was. */
  lemma TrimObjectFields(v: Value, exempt: set<string>)
    requires v.Obj? && !HidesHasOwnProperty(v)
    ensures ShallowTrim(v, exempt).Ok?
    ensures var o := ShallowTrim(v, exempt).value;
      && o.Obj? && o.kind == v.kind && o.keys == v.keys && o.fields.Keys == v.fields.Keys
      && (forall k | k in v.fields && k !in exempt && v.fields[k].Str? ::
            o.fields[k].Str? && IsTrimmed(o.fields[k].s) && o.fields[k].s == Trim(v.fields[k].s))
      && (forall k | k in v.fields && (k in exempt || !v.fields[k].Str?) :: o.fields[k] == v.fields[k])
  {
  }

  /** trimObject only ever changes the text of top-level strings. */
  lemma TrimObjectOnlyTouchesStrings(v: Value, exempt: set<string>)
    requires ShallowTrim(v, exempt).Ok?
    ensures OnlyStringsDiffer(v, ShallowTrim(v, exempt).value)
  {
    var o := ShallowTrim(v, exempt).value;
    if v.Obj? {
      forall k | k in v.fields ensures OnlyStringsDiffer(v.fields[k], o.fields[k]) {
        OnlyStringsDifferRefl(v.fields[k]);
      }
    } else {
      OnlyStringsDifferRefl(v);
    }
  }

  lemma {:induction false} OnlyStringsDifferRefl(v: Value)
    ensures OnlyStringsDiffer(v, v)
  {
    if v.Obj? {
      forall k | k in v.fields ensures OnlyStringsDiffer(v.fields[k], v.fields[k]) {
        OnlyStringsDifferRefl(v.fields[k]);
      }
    }
  }

  /** Trimming an object a second time changes nothing. */
  lemma TrimObjectIdempotent(v: Value, exempt: set<string>)
    requires ShallowTrim(v, exempt).Ok?
    ensures ShallowTrim(ShallowTrim(v, exempt).value, exempt) == ShallowTrim(v, exempt)
  {
    var o := ShallowTrim(v, exempt).value;
    if v.Obj? {
      forall k | k in o.fields
        ensures ShallowTrimField(k, o.fields[k], exempt) == o.fields[k]
      {
        if o.fields[k].Str? && k !in exempt {
          TrimFixedPoint(v.fields[k].s);
        }
      }
      assert o.fields.Keys == v.fields.Keys;
      ShallowTrimObject(o.kind, o.keys, o.fields, o.fields, exempt);
    }
  }

  /** The trimObject call of the test suite, on its fields `a` and `r`:
      `a: '   a  '` becomes 'a', while the array field `r` keeps its
      untrimmed strings (the array branch of the source tests the key, never
      the value). */
  lemma TrimObjectExample(exempt: set<string>)
    requires "a" !in exempt
    ensures var r := Obj(ArrayObject(4), ["0", "1", "2", "3"],
                         map["0" := Str("   j"), "1" := Str("    "), "2" := Str("10"), "3" := Num(10)]);
      var o := ShallowTrim(Obj(PlainObject, ["a", "r"], map["a" := Str("   a  "), "r" := r]), exempt);
      o.Ok? && o.value.fields["a"] == Str("a") && o.value.fields["r"] == r
  {
    assert "   a  " == "   " + "a" + "  ";
    TrimUnique("   ", "a", "  ");
  }

  // ---------------------------------------------------------- trimNestedObject

  /** Every string trimNestedObject descends to has no white space at either
      end, and nothing that throws is in its way. */
  ghost predicate IsDeepTrimmed(v: Value, exempt: set<string>) {
    match v
    case Null => false
    case Undefined => false
    case Obj(_, _, fields) =>
      && !HidesHasOwnProperty(v)
      && forall k | k in fields && k !in exempt ::
        && (fields[k].Str? ==> IsTrimmed(fields[k].s))
        && (IsTypeofObject(fields[k]) ==> IsDeepTrimmed(fields[k], exempt))
    case _ => true
  }

  /** Where trimNestedObject throws: `v` itself is null, undefined or an
      object with an own field named "hasOwnProperty", or some value the call
      descends into is null or such an object. The call descends only into
      non-exempt fields whose typeof is 'object', at any depth, so an
      undefined field is never a fault. */
  ghost predicate ReachesFault(v: Value, exempt: set<string>) {
    match v
    case Null => true
    case Undefined => true
    case Obj(_, _, fields) =>
      || HidesHasOwnProperty(v)
      || exists k | k in fields && k !in exempt :: IsTypeofObject(fields[k]) && ReachesFault(fields[k], exempt)
    case _ => false
  }

  /** trimNestedObject fails exactly when a fault lies in its way. */
  lemma {:induction false} TrimNestedObjectFailsIffFault(v: Value, exempt: set<string>)
    ensures DeepTrim(v, exempt).Err? <==> ReachesFault(v, exempt)
  {
    if v.Obj? {
      forall k | k in v.fields
        ensures DeepTrimField(k, v.fields[k], exempt).Err? <==>
                (k !in exempt && IsTypeofObject(v.fields[k]) && ReachesFault(v.fields[k], exempt))
      {
        TrimNestedObjectFailsIffFault(v.fields[k], exempt);
      }
    }
  }

  /** trimNestedObject only changes the text of strings, and keeps objects
      well formed. */
  lemma {:induction false} TrimNestedObjectOnlyTouchesStrings(v: Value, exempt: set<string>)
    requires DeepTrim(v, exempt).Ok?
    ensures OnlyStringsDiffer(v, DeepTrim(v, exempt).value)
    ensures WellFormed(v) ==> WellFormed(DeepTrim(v, exempt).value)
  {
    var o := DeepTrim(v, exempt).value;
    if v.Obj? {
      forall k | k in v.fields
        ensures OnlyStringsDiffer(v.fields[k], o.fields[k])
        ensures WellFormed(v.fields[k]) ==> WellFormed(o.fields[k])
      {
        var x := v.fields[k];
        if k !in exempt && IsTypeofObject(x) {
          TrimNestedObjectOnlyTouchesStrings(x, exempt);
        } else {
          OnlyStringsDifferRefl(x);
        }
      }
    }
  }

  /** What trimNestedObject leaves in each field of an object it succeeds
      on: the keys and their order are kept; a non-exempt string holds the
      trimmed original; a non-exempt value of typeof 'object' holds what
      trimNestedObject returns for it; every other field (exempt, number,
      boolean, undefined) is left as it was. */
  lemma TrimNestedObjectFields(v: Value, exempt: set<string>)
    requires v.Obj? && DeepTrim(v, exempt).Ok?
    ensures var o := DeepTrim(v, exempt).value;
      && o.Obj? && o.kind == v.kind && o.keys == v.keys && o.fields.Keys == v.fields.Keys
      && (forall k | k in v.fields && k !in exempt && v.fields[k].Str? ::
            o.fields[k] == Str(Trim(v.fields[k].s)))
      && (forall k | k in v.fields && k !in exempt && IsTypeofObject(v.fields[k]) ::
            DeepTrim(v.fields[k], exempt) == Ok(o.fields[k]))
      && (forall k | k in v.fields && (k in exempt || !(v.fields[k].Str? || IsTypeofObject(v.fields[k]))) ::
            o.fields[k] == v.fields[k])
  {
  }

  /** The result of trimNestedObject is fully trimmed. */
  lemma {:induction false} TrimNestedObjectTrims(v: Value, exempt: set<string>)
    requires DeepTrim(v, exempt).Ok?
    ensures IsDeepTrimmed(DeepTrim(v, exempt).value, exempt)
  {
    var o := DeepTrim(v, exempt).value;
    if v.Obj? {
      forall k | k in o.fields && k !in exempt
        ensures o.fields[k].Str? ==> IsTrimmed(o.fields[k].s)
        ensures IsTypeofObject(o.fields[k]) ==> IsDeepTrimmed(o.fields[k], exempt)
      {
        var x := v.fields[k];
        if IsTypeofObject(x) {
          TrimNestedObjectTrims(x, exempt);
          TrimNestedObjectOnlyTouchesStrings(x, exempt);
        }
      }
    }
  }

  /** A fully trimmed value is returned unchanged. */
  lemma {:induction false} TrimNestedObjectFixesTrimmed(v: Value, exempt: set<string>)
    requires IsDeepTrimmed(v, exempt)
    ensures DeepTrim(v, exempt) == Ok(v)
  {
    if v.Obj? {
      forall k | k in v.fields
        ensures DeepTrimField(k, v.fields[k], exempt) == Ok(v.fields[k])
      {
        var x := v.fields[k];
        if k !in exempt {
          if x.Str? {
            TrimFixedPoint(x.s);
          } else if IsTypeofObject(x) {
            TrimNestedObjectFixesTrimmed(x, exempt);
          }
        }
      }
      DeepTrimObjectOk(v.kind, v.keys, v.fields, v.fields, exempt);
    }
  }

  /** The values trimNestedObject returns unchanged are exactly the fully
      trimmed ones; so applying it to its own result gives that result
      again. */
  lemma TrimNestedObjectIdempotent(v: Value, exempt: set<string>)
    ensures DeepTrim(v, exempt) == Ok(v) <==> IsDeepTrimmed(v, exempt)
    ensures DeepTrim(v, exempt).Ok? ==>
      DeepTrim(DeepTrim(v, exempt).value, exempt) == DeepTrim(v, exempt)
  {
    if IsDeepTrimmed(v, exempt) {
      TrimNestedObjectFixesTrimmed(v, exempt);
    }
    if DeepTrim(v, exempt).Ok? {
      TrimNestedObjectTrims(v, exempt);
      TrimNestedObjectFixesTrimmed(DeepTrim(v, exempt).value, exempt);
    }
  }

  /** On an object with no non-exempt field of typeof 'object', the nested
      variant does what trimObject does. */
  lemma TrimNestedObjectOnFlatObject(v: Value, exempt: set<string>)
    requires v.Obj?
    requires forall k | k in v.fields && k !in exempt :: !IsTypeofObject(v.fields[k])
    ensures DeepTrim(v, exempt) == ShallowTrim(v, exempt)
  {
    if !HidesHasOwnProperty(v) {
      var props := map k | k in v.fields :: ShallowTrimField(k, v.fields[k], exempt);
      DeepTrimObjectOk(v.kind, v.keys, v.fields, props, exempt);
    }
  }

  /** The array of the test suite, `['   j', '    ', '10', 10]`, under
      trimNestedObject: its string elements are trimmed, because an array is
      an object whose keys are its indices. */
  lemma TrimNestedObjectArrayExample(exempt: set<string>)
    requires exempt !! {"0", "1", "2", "3"}
    ensures DeepTrim(Obj(ArrayObject(4), ["0", "1", "2", "3"],
                         map["0" := Str("   j"), "1" := Str("    "), "2" := Str("10"), "3" := Num(10)]), exempt)
         == Ok(Obj(ArrayObject(4), ["0", "1", "2", "3"],
                   map["0" := Str("j"), "1" := Str(""), "2" := Str("10"), "3" := Num(10)]))
  {
    var fields := map["0" := Str("   j"), "1" := Str("    "), "2" := Str("10"), "3" := Num(10)];
    var props := map["0" := Str("j"), "1" := Str(""), "2" := Str("10"), "3" := Num(10)];
    assert DeepTrimField("0", Str("   j"), exempt) == Ok(Str("j")) by {
      assert "   j" == "   " + "j" + "";
      TrimUnique("   ", "j", "");
    }
    assert DeepTrimField("1", Str("    "), exempt) == Ok(Str("")) by {
      assert "    " == "    " + "" + "";
      TrimUnique("    ", "", "");
    }
    assert DeepTrimField("2", Str("10"), exempt) == Ok(Str("10")) by {
      TrimFixedPoint("10");
    }
    assert forall k | k in fields :: DeepTrimField(k, fields[k], exempt) == Ok(props[k]);
    DeepTrimObjectOk(ArrayObject(4), ["0", "1", "2", "3"], fields, props, exempt);
  }

  /** The trimNestedObject call of the test suite, on its fields `a`, `c`
      (with `c.a`) and the Date `d`: `a: '   a  '` becomes 'a' and, one level
      down, `c.a: ' 10 '` becomes '10'. */
  lemma TrimNestedObjectExample(exempt: set<string>)
    requires exempt !! {"a", "c", "d"}
    ensures DeepTrim(Obj(PlainObject, ["a", "c", "d"],
                         map["a" := Str("   a  "), "c" := Obj(PlainObject, ["a"], map["a" := Str(" 10 ")]), "d" := Other("Date")]), exempt)
         == Ok(Obj(PlainObject, ["a", "c", "d"],
                   map["a" := Str("a"), "c" := Obj(PlainObject, ["a"], map["a" := Str("10")]), "d" := Other("Date")]))
  {
    var c := Obj(PlainObject, ["a"], map["a" := Str(" 10 ")]);
    var cT := Obj(PlainObject, ["a"], map["a" := Str("10")]);
    assert DeepTrimField("c", c, exempt) == Ok(cT) by {
      assert DeepTrimField("a", Str(" 10 "), exempt) == Ok(Str("10")) by {
        assert " 10 " == " " + "10" + " ";
        TrimUnique(" ", "10", " ");
      }
      DeepTrimObjectOk(PlainObject, ["a"], map["a" := Str(" 10 ")], map["a" := Str("10")], exempt);
    }
    assert DeepTrimField("a", Str("   a  "), exempt) == Ok(Str("a")) by {
      assert "   a  " == "   " + "a" + "  ";
      TrimUnique("   ", "a", "  ");
    }
    var vFields := map["a" := Str("   a  "), "c" := c, "d" := Other("Date")];
    var vProps := map["a" := Str("a"), "c" := cT, "d" := Other("Date")];
    assert forall k | k in vFields :: DeepTrimField(k, vFields[k], exempt) == Ok(vProps[k]);
    DeepTrimObjectOk(PlainObject, ["a", "c", "d"], vFields, vProps, exempt);
  }

  // ------------------------------------------------------------------ PodError

  /** `new PodError(404, 'not found')` has no original result. */
  lemma PodErrorDefault()
    ensures NewPodError(404, Str("not found")) == PodError(404, Str("not found"), Null)
  {
  }

  /** The original result of a PodError is null or truthy, so building a
      PodError again from the fields of one gives the same error. */
  lemma PodErrorRebuild(code: int, message: Value, originalResult: Value)
    ensures var e := NewPodError(code, message, originalResult);
      && (e.originalResult == Null || Truthy(e.originalResult))
      && NewPodError(e.code, e.message, e.originalResult) == e
  {
  }
}
