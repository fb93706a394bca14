# pod-utilities-node: the object helpers, modelled in Dafny

`lib/main.js` of pod-utilities-node is a bag of small helpers shared by the
POD service libraries. This project models the helpers that transform
objects and proves what they promise:

- `validate(schema, data)` turns the verdict of the schema validator into a
  `{status, errors}` record;
- `extractKeysFromObject(obj, fieldArray)` copies the named own properties of
  an object into a new object;
- `invalidConfigParam(moduleName)` builds the message for a bad
  configuration parameter;
- `trimObject(obj)` clones an object and trims every string field whose name
  is not in the exempt set (`config.notTrimFields`);
- `trimNestedObject(obj)` does the same and also descends into every field
  whose `typeof` is `'object'`;
- `new PodError(code, message, originalResult)` records an application error.

Modules:

- `JsValue` (js_value.dfy): JavaScript values. An object is its list of
  enumerable keys, in `Object.keys` order, and a map from key to value; an
  array is such an object whose keys are its indices, with its `length`. A
  `Date` is `Other`, an object with no own enumerable keys. `WellFormed`
  says what JavaScript guarantees of such a value: every object lists each
  of its keys once, and an array's indices lie below its `length`. `clone` is
  a deep copy, and these values are immutable, so the copy is the value
  itself and the caller's object can never be changed by the helpers.
  Whether two objects are one and the same object is not expressed.
- `EcmaTrim` (ecma_trim.dfy): `String.prototype.trim`, that is the TrimString
  operation of ECMA-262 over its WhiteSpace and LineTerminator code points,
  with the lemmas that pin it down (what it cuts off, that it is the only
  function doing so, that it is idempotent).
- `PodUtilities` (pod_utilities.dfy): the helpers. The ones with loops in the
  source are methods with the same loops (`for` over `fieldArray` or over
  `Object.keys(obj)`, reassigning the copy's fields); each is proved equal to a
  function (`ValidationOutcome`, `Extracted`, `ShallowTrim`, `DeepTrim`) that
  the lemmas then talk about. `trimNestedObject` is a recursive method, as in
  the source.
- `PodUtilitiesProperties` (pod_utilities_properties.dfy): the properties.

The exempt set is the parameter `exempt`; the schema validator is the
parameter `validator`, a pair of functions: whether it accepts `data` against
`schema`, and the errors it reports when it does not.

Five behaviours of the code are modelled as written:

- The array branches of both trim functions (lib/main.js:134-140 and 161-167)
  test `Array.isArray(fields[i])`, and `fields[i]` is a key, a string; they
  never run. So `trimObject` leaves the strings inside an array field untrimmed
  (`TrimObjectExample`).
- `typeof [] === 'object'`, so in `trimNestedObject` arrays go through the
  object branch and their string elements are trimmed, their indices acting
  as keys, also against the exempt set (`TrimNestedObjectArrayExample`).
- `typeof null === 'object'`, so a non-exempt `null` field makes
  `trimNestedObject` call itself on `null`, and `Object.keys(null)` throws.
  The model returns `Err(TypeError)`, and `TrimNestedObjectFailsIffFault`
  says exactly when. Both trim functions also throw when given `null` or
  `undefined` themselves; `extractKeysFromObject` throws on them as soon as it
  has a name to look up.
- All three loops call `obj.hasOwnProperty(...)` as a method
  (lib/main.js:85, 131, 155). An object with an own field named
  `hasOwnProperty`, as `JSON.parse` readily builds, hides the inherited method,
  and the call throws a TypeError. So `extractKeysFromObject` throws on such an
  object when it has a name to look up, `trimObject` throws on it, and
  `trimNestedObject` throws when such an object is the input or a value it
  descends into (`ExtractKeysFromObjectFails`, `TrimObjectFails`,
  `TrimNestedObjectFailsIffFault`). The two trim functions walk the copy made
  by `clone`, so this rests on `clone` copying that key (see "## Left out").
- `extractKeysFromObject` copies with `newObj[name] = obj[name]` into a fresh
  `{}`. For the name `__proto__` that assignment runs the setter inherited
  from `Object.prototype`, so the new object gets no own key `__proto__`; the
  model skips that name.

## Model

| member | source | states |
|---|---|---|
| `PodUtilities.ValidationOutcome` | lib/main.js:66-73 | status is true exactly when the validator accepts; then errors is null, otherwise errors is what the validator reported |
| `PodUtilities.Validate` | lib/main.js:66-73 | the record built by starting from `{status: true, errors: null}` and overwriting both fields on rejection is that outcome |
| `PodUtilitiesProperties.ValidateErrorsIffRejected` | lib/main.js:67-71 | when the validator reports errors for rejected data, errors is non-null exactly when status is false |
| `PodUtilities.ExtractedKeys` | lib/main.js:84-88 | every key copied is one of the requested names, an own property of the object, and not `__proto__` |
| `PodUtilities.ExtractKeysFromObject` | lib/main.js:82-90 | the loop builds exactly `Extracted`: a new plain object, or a TypeError when a name is requested and the object is null, undefined or hides `hasOwnProperty` |
| `PodUtilitiesProperties.ExtractKeysFromObjectFails` | lib/main.js:84-85 | the call throws exactly when a name is requested and `obj.hasOwnProperty` cannot be called: the object is null or undefined or has an own field of that name |
| `PodUtilitiesProperties.ExtractedKeysAreTheOwnNames` | lib/main.js:84-88 | the copied keys are listed once each, are exactly the requested names that are own properties other than `__proto__`, and keep the order of their first request |
| `PodUtilitiesProperties.ExtractKeysFromObjectEntries` | lib/main.js:82-90 | when `obj.hasOwnProperty` can be called the call succeeds; the result's entries are exactly the requested own properties other than `__proto__`, with the object's values; missing names are skipped |
| `PodUtilitiesProperties.ExtractKeysFromObjectExample` | test/simple.test.js:88-96 | `{a: 10, b: 100, c: 1000}` with `['a', 'b']` gives `{a: 10, b: 100}` |
| `PodUtilities.InvalidConfigParam` | lib/main.js:97-99 | the message is the fixed prefix "Invalid Config Paramethers. Module: " followed by the module name |
| `PodUtilities.ModuleNameOf` | lib/main.js:97-99 | the inverse of the message builder: it returns `m` exactly when the message is the prefix followed by `m` |
| `PodUtilitiesProperties.InvalidConfigParamRoundTrip` | lib/main.js:97-99 | the module name is read back from the message, so different modules get different messages |
| `EcmaTrim.Trim` | lib/main.js:132 | the trimmed string has no white space at either end and is no longer than the original |
| `EcmaTrim.TrimSlice` | lib/main.js:132 | the trimmed string is a slice of the original, and everything cut off before and after it is white space |
| `EcmaTrim.TrimUnique` | lib/main.js:132 | any split into white space, a trimmed middle and white space trims to that middle |
| `EcmaTrim.TrimFixedPoint` | lib/main.js:156 | a string is unchanged by trimming exactly when it is trimmed; trimming twice is trimming once |
| `PodUtilities.TrimObject` | lib/main.js:127-143 | the clone-and-rewrite loop returns exactly `ShallowTrim`: an error for null, undefined or an object hiding `hasOwnProperty`, the object with its fields rewritten otherwise |
| `PodUtilitiesProperties.TrimObjectFails` | lib/main.js:129-131 | trimObject throws exactly on null, undefined and an object with an own field named `hasOwnProperty` |
| `PodUtilitiesProperties.TrimObjectFields` | lib/main.js:129-141 | on any other object it succeeds, keeps kind, keys and order; each non-exempt string field holds the trimmed original; exempt fields and all non-string values (objects, arrays, dates, numbers, null) are unchanged |
| `PodUtilitiesProperties.TrimObjectOnlyTouchesStrings` | lib/main.js:127-143 | only the text of strings can differ between input and result |
| `PodUtilitiesProperties.TrimObjectIdempotent` | lib/main.js:127-143 | trimming the result again gives the same result |
| `PodUtilitiesProperties.TrimObjectExample` | test/simple.test.js:122-136 | `a: '   a  '` becomes `'a'`; the array field keeps its untrimmed strings |
| `PodUtilities.TrimNestedObject` | lib/main.js:151-170 | the recursive clone-and-rewrite loop returns exactly `DeepTrim`: an error for null, undefined or an object hiding `hasOwnProperty`, and the exception of a recursive call propagated |
| `PodUtilitiesProperties.TrimNestedObjectFailsIffFault` | lib/main.js:151-170 | the call throws exactly when the input is null, undefined or an object with an own field named `hasOwnProperty`, or some value the call descends into is null or such an object; it descends only into non-exempt fields of typeof 'object', at any depth, so an undefined field is kept as it is |
| `PodUtilitiesProperties.TrimNestedObjectOnlyTouchesStrings` | lib/main.js:151-170 | at every depth only the text of strings can differ; keys, their order, kinds and all other values are kept, and well-formed objects stay well formed |
| `PodUtilitiesProperties.TrimNestedObjectFields` | lib/main.js:153-169 | on success kind, keys and order are kept; a non-exempt string field holds the trimmed original; a non-exempt field of typeof 'object' holds what trimNestedObject returns for it; exempt fields and all other values are unchanged |
| `PodUtilitiesProperties.TrimNestedObjectTrims` | lib/main.js:154-168 | in the result every string reached through non-exempt keys, at any depth, is trimmed |
| `PodUtilitiesProperties.TrimNestedObjectFixesTrimmed` | lib/main.js:151-170 | a fully trimmed value comes back unchanged |
| `PodUtilitiesProperties.TrimNestedObjectIdempotent` | lib/main.js:151-170 | the fixed points are exactly the fully trimmed values; applying the function to its own result gives that result again |
| `PodUtilitiesProperties.TrimNestedObjectOnFlatObject` | lib/main.js:155-160 | without non-exempt fields of typeof 'object' the nested variant returns what trimObject returns |
| `PodUtilitiesProperties.TrimNestedObjectArrayExample` | lib/main.js:158-159 | the array `['   j', '    ', '10', 10]` becomes `['j', '', '10', 10]` |
| `PodUtilitiesProperties.TrimNestedObjectExample` | test/simple.test.js:138-152 | `a: '   a  '` becomes `'a'` and `c.a: ' 10 '` becomes `'10'`; the Date is kept |
| `PodUtilities.NewPodError` | lib/main.js:184-188 | code and message are kept; a truthy original result is kept, a missing or falsy one becomes null |
| `PodUtilitiesProperties.PodErrorDefault` | lib/main.js:184-188 | `new PodError(404, 'not found')` has a null original result |
| `PodUtilitiesProperties.PodErrorRebuild` | lib/main.js:188 | the stored original result is null or truthy, so rebuilding an error from its own fields gives the same error |

## Left out

- `createSign` and `verifySign` (lib/main.js:28-48): thin wrappers over Node's RSA signing; the cryptography cannot be modelled.
- `uniqueId` (lib/main.js:55-57): a random UUID from the `uuid` library.
- `toShamsiDateString` and `toShamsiDateTimeString` (lib/main.js:107-119): the calendar conversion and formatting are done by `moment-jalaali`; so is the call at module load (lib/main.js:209).
- The internals of `clone` (a deep copy, which for immutable values is the value itself) and of `pod-ajv` (the `validator` parameter stands for it); `clone` being re-exported is not modelled. The model assumes that `clone` copies every own enumerable key, including keys named like a method of `Object.prototype` such as `hasOwnProperty`; `TrimObjectFails`, `TrimNestedObjectFailsIffFault` and the error cases of `TrimObject` and `TrimNestedObject` rest on that assumption.
- Loading `./config`: `config.notTrimFields` is the `exempt` parameter; the file is not part of this model.
- The `Error` base class, `Error.captureStackTrace` and the stack trace (lib/main.js:185, 190-192).
- Numbers are integers: floating point, `NaN` and `-0` (both falsy for `||`) are not modelled.
- Functions, symbols, getters, inherited properties and non-enumerable properties other than an array's `length` are not modelled; `Other` stands for a `Date`.
- Key order: `Object.keys` lists integer-like keys first, in ascending order; the model keeps each object's key list as given and does not reorder it.
- Strings are sequences of Unicode code points, not UTF-16 code units; the index keys of a string differ from JavaScript's for characters outside the Basic Multilingual Plane.
- Cyclic objects: values here are finite trees, so the unbounded recursion of `trimNestedObject` on a cycle does not arise.
- The top-level input of the trim functions is assumed to run outside strict mode, as the source file does: assigning to an index of a string primitive is silently ignored, so a string comes back unchanged.
- PodUtilities.ExtractKeysFromObject: the result is a shallow copy; its values are `obj`'s own values, so a nested object or array in the result is the very object in `obj` (lib/main.js:86), and changing one changes the other. The trim functions, by contrast, clone first (lib/main.js:128, 152). Values here are immutable, so that sharing is not modelled.
- PodUtilities.InvalidConfigParam: takes the module name as a string; JavaScript's conversion of other values to text by `+` is not modelled.
- PodUtilities.NewPodError: the code is an integer; other numbers are not modelled.
- The prototype of the object extractKeysFromObject returns: an own `__proto__` property of `obj` that holds an object or null becomes that object's prototype; prototypes are not modelled.
- An own `__proto__` key in the input of the trim functions: the model takes the copy made by `clone` to be exact, and that library's handling of such a key is not part of this model.
- An own `hasOwnProperty` field holding a function would be called instead of throwing; functions are not modelled, so every such field makes the call throw here.
- TrimObjectExample: states the trimObject test call (test/simple.test.js:122-136) on the fields `a` and `r` only; `b`, `c`, `d` and `query` are left out, because Dafny unfolds `Trim` on every literal string and a proof over the full object becomes too slow; TrimObjectFields covers every field.
- TrimNestedObjectExample: states the trimNestedObject test call (test/simple.test.js:138-152) on `a`, `c.a` and the Date `d` only, with the array `r` in TrimNestedObjectArrayExample; `b`, `query`, `c.g`, `c.r` and `c.query` are left out for the same reason; TrimNestedObjectFields covers every field.
- The tests of functions that lib/main.js does not define (test/simple.test.js:155-193) and the `console.log` calls of the tests.
