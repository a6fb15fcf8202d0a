# vrl-python runtime and value conversions, modelled in Dafny

vrl-python exposes the Vector Remap Language (VRL) to Python through one
object, `VRLRuntime`. A runtime is created with a timezone. It compiles a
VRL program and keeps the program, together with its source text, in a
single-slot cache. `execute(source, event)` recompiles only when the source
differs from the cached one. It then converts the Python event to a VRL
value, runs the program on a fresh target, and converts the processed event
and the program's result back to Python. `run` and `check_syntax` are
stateless helpers.

This project models two pieces of the repository's own logic:

- **The runtime and its cache** (`runtime.dfy`, module `Runtime`).
  - The class `Runtime.VrlRuntime` keeps the two cache slots as fields that its methods overwrite.
  - Each method is proved equal to a pure step function over a `Cache` value, such as `CompileStep` or `ExecuteStep`.
  - `runtime_properties.dfy` proves what the cache promises:
    - it keeps the slots coherent;
    - it never changes a result;
    - one source is compiled at most once;
    - a failed compile leaves the cache alone;
    - no call's event reaches another call;
    - compile errors come before conversion errors, and those come before runtime errors.
- **The value conversions** (`types.dfy`, module `Types`).
  - Host (Python) values are converted to JSON, in a fixed dispatch order. JSON values are converted to VRL values, and VRL values back to host values.
  - `conversion_loops.dfy` holds the for-loops of those conversions as methods. Each loop is proved to compute what the recursive definition says.
  - `type_properties.dfy` proves when conversion succeeds, what the errors are, and two round trips:
    - VRL to host and back;
    - host to VRL and back, identical for dicts in key order and equal as the host compares dicts otherwise;
    - the JSON parser's nesting limit of 128, shown on a list nested that deep.
  - `utf8.dfy` models UTF-8 encoding and Rust's lossy decoding, which is how VRL bytes become Python strings.
  - `key_order.dfy` models the key order in which a VRL object (a `BTreeMap`) yields its fields.

Several things are not part of this model and appear as function-valued
fields of `Runtime.Engine` or `Types.FloatOps`:
- the VRL compiler (`compile_with_state`) and interpreter (`Runtime::resolve`);
- the timezone database;
- the diagnostic formatter;
- the float conversions of `serde_json` and of Rust's float display.

Apart from those oracles, the model follows the code step by step. It also
keeps the JSON text step between rendering and parsing, in two parts:
- the parser's nesting limit, modelled exactly;
- the reading back of nested floats, left to the oracle `FloatOps.reparse`.

Some behaviours of the code that the model keeps:
- **A float event at the top level goes through its text.** Rust writes `3.0` as `3`, so the JSON parser reads it back as an integer. NaN and infinity do not parse back, and the call raises a ValueError. `Types.EventJson` routes a top-level float through `FloatOps.displayReparse` for this reason. A float nested in a dict or list takes the `Number::from_f64(..).unwrap_or(0)` path instead, so a nested NaN or infinity becomes the integer 0.
- **Non-str dict keys.** A dict key that is not a `str` raises a TypeError, "'<type>' object cannot be converted to 'PyString'". This is PyO3's extraction error.
- **Two wordings for an unsupported type.** An unsupported object raises TypeError "Unsupported Python type for VRL conversion" at the top and "Unsupported Python type" below it.
- **Execute uses the cached source for a runtime diagnostic.** A runtime termination is rendered against `cached_source`. `Runtime.ExecuteStep` does the same, and `RuntimeProperties.TerminationIsRuntimeError` shows that this is always the source just executed.
- **Deep events are refused by the parser.** `py_to_vrl_value` writes a dict or list event as JSON text and parses it back with `serde_json::from_str`. That parser refuses arrays and objects nested 128 deep, so such an event fails with a ValueError "recursion limit exceeded". `py_to_json_value` has no such limit. `Types.ParseBack` models the limit, and `TypeProperties.NestingLimit` shows it on a list nested n deep.
- **"Program not compiled".** `execute` has a "Program not compiled" branch. The cache invariant makes it unreachable (`RuntimeProperties.ProgramPresent`).

## Model

| member | source | states |
|---|---|---|
| Runtime.ChooseTimeZone | src/runtime.rs:48-59 | None, "" and "local" select the local zone. A name the timezone database accepts selects that named zone. Any other name fails with ValueError "Invalid timezone identifier: '<name>'". |
| Runtime.VrlRuntime.New | src/runtime.rs:46-66 | A runtime exists exactly when the timezone is accepted. A new runtime is coherent, holds the chosen zone and has both cache slots empty. Otherwise the timezone's ValueError is returned. |
| Runtime.VrlRuntime.constructor | src/runtime.rs:61-65 | Starts with both cache slots empty. |
| Runtime.CompileStep | src/runtime.rs:75-93 | Success exactly when the compiler accepts the source. Both slots then hold that source and its program. On failure the cache is unchanged and a ValueError carries the rendered diagnostics. Coherence is kept. |
| Runtime.VrlRuntime.Compile | src/runtime.rs:75-93 | The method's result and new slots are `CompileStep` of the old slots. The cache invariant is kept. |
| Runtime.CreateDiagnostic | src/runtime.rs:201-215 | One message per compiler diagnostic, in order. The plain and coloured renderings of the source use all the diagnostics. |
| Runtime.CreateRuntimeDiagnostic | src/runtime.rs:218-229 | The termination's text is the one message. The renderings use its expression error. |
| Runtime.EnsureCompiled | src/runtime.rs:104-107 | The compiler is called only when the source differs from the cached one. A cache hit changes nothing. On success the cache holds this source. Coherence is kept. |
| Runtime.FreshTarget | src/runtime.rs:116-120 | The target holds the converted event, an empty metadata object and no secrets. |
| Runtime.ExecuteStep | src/runtime.rs:103-151 | Coherence is kept. The new cache is that of the compile step. A cache hit leaves the cache unchanged. A compile failure gives a ValueError. |
| Runtime.VrlRuntime.Execute | src/runtime.rs:103-151 | The method's result and new slots are `ExecuteStep` of the old slots. The cache invariant is kept. |
| Runtime.RunSpec | src/runtime.rs:157-161 | A rejected timezone fails `run` with the timezone's error. |
| Runtime.VrlRuntime.Run | src/runtime.rs:157-161 | `run` returns `RunSpec`: a brand-new runtime executes once. |
| Runtime.VrlRuntime.ClearCache | src/runtime.rs:164-167 | Both slots become empty and the cache invariant holds. |
| Runtime.CheckSyntax | src/runtime.rs:179-189 | No diagnostic exactly when the source compiles. Otherwise, the diagnostic of the compiler's errors. |
| RuntimeProperties.ExecuteCachesSource | src/runtime.rs:81-84 | After executing a source that compiles, the cache holds that source and its program, so the next execute of it does not recompile. |
| RuntimeProperties.ProgramPresent | src/runtime.rs:109-110 | On a coherent cache, once compiling succeeds the program slot holds the compiler's program for the source. So "Program not compiled" is unreachable. |
| RuntimeProperties.SameSourceCompilesOnce | tests/test_basic.py:93-109 | Any number of executes of one compiling source call the compiler once, or never if it was already cached. |
| RuntimeProperties.FailingSourceCompilesEveryTime | src/runtime.rs:86-91 | A source that fails to compile is recompiled on every execute, and the cache never changes. |
| RuntimeProperties.CacheTransparent | src/runtime.rs:104-110 | On any two coherent caches, the empty one included, execute returns the same result. |
| RuntimeProperties.CallsIndependent | src/runtime.rs:113-120 | In any sequence of executes, each result equals that of a brand-new runtime. No event leaks into another call. |
| RuntimeProperties.CompileErrorFirst | src/runtime.rs:105-107 | When the source must be compiled and does not compile, execute returns the compile ValueError for every event, even an unconvertible one, and leaves the cache untouched. |
| RuntimeProperties.ExecuteSucceeds | src/runtime.rs:103-151 | Execute succeeds exactly when the source compiles, the event converts and the program runs to the end on the fresh target. A success returns the resolved target's event and the program's value, each converted back to the host. |
| RuntimeProperties.TerminationIsRuntimeError | src/runtime.rs:141-149 | A termination yields a RuntimeError rendered against the source just executed, and the cache keeps that source's program. |
| RuntimeProperties.ConversionErrorAfterCompile | src/runtime.rs:113 | An unconvertible event fails execute with the conversion's TypeError or ValueError, after the source has been cached. |
| RuntimeProperties.IdentityProgramEchoesEvent | src/runtime.rs:113-136 | A program that leaves its target unchanged and yields null hands back the same event. This holds for JSON-safe events that are not a bare float, with dicts in key order, nested less than 128 deep, whose own floats, if any, the parser reads back exactly (nothing is assumed of an event without floats). |
| RuntimeProperties.IdentityProgramEchoesEventUpToOrder | src/runtime.rs:113-136 | The same program hands back a None result and a value equal to the event up to the order of dict entries. This holds for any JSON-safe event that is not a bare float, nested less than 128 deep whose own floats, if any, the parser reads back exactly. |
| RuntimeProperties.CheckSyntaxAgrees | src/runtime.rs:179-189 | `check_syntax` returns None exactly when `compile` succeeds. Otherwise `compile` raises the ValueError whose text is the diagnostic's formatted message. |
| RuntimeProperties.RunIsExecute | src/runtime.rs:157-161 | `run` answers as `execute` on any coherent runtime with the same timezone, whatever that runtime has cached. |
| RuntimeProperties.ExecuteAll | src/runtime.rs:103-151 | A sequence of executes gives one result per call and keeps the cache coherent. |
| RuntimeProperties.CompileCalls | src/runtime.rs:104-107 | A sequence of executes calls the compiler at most once per call. |
| Types.PyToJson | src/types.rs:180-211 | Failures are TypeErrors, and an unsupported object always fails. A success keeps the kind: None to null, bool to bool (never a number), int and float to number, str to string, dict to object, list to array. |
| Types.JsonFromF64 | src/types.rs:187-190 | A finite float becomes that JSON float. NaN and infinities become the integer 0. |
| Types.DictToJson | src/types.rs:193-199 | Failures of the dict loop are TypeErrors. |
| Types.ListToJson | src/types.rs:200-205 | Failures of the list loop are TypeErrors. A successful loop yields one JSON value per item. |
| Types.EventJson | src/types.rs:73-106 | Failures of the top-level conversion are TypeErrors or ValueErrors. A ValueError comes only from an int or float event whose text does not parse, or is "recursion limit exceeded". An unsupported object fails with TypeError "Unsupported Python type for VRL conversion". |
| Types.ParseBack | src/types.rs:92-106 | Parsing the rendered text of a dict or list succeeds exactly when it nests less than 128 deep. Otherwise it fails with ValueError "recursion limit exceeded". A success yields the value with its nested floats read back. |
| Types.Reread | src/types.rs:92-106 | Reading the text back keeps the tree: arrays keep their length and each element is read back in place, objects keep their keys and each value is read back under its key, a float becomes what the float parser reads from its written form, and every other scalar is unchanged. |
| Types.PyToVrl | src/types.rs:73-109 | Every failure is a TypeError or a ValueError, and a ValueError comes only from an int or float event or from nesting too deep. An unsupported object fails with TypeError "Unsupported Python type for VRL conversion". The conversion succeeds exactly when the event's JSON parses back. The result is never a timestamp or a regex. |
| Types.FloatText | src/types.rs:81-82 | The text of a top-level float either parses back, or raises a ValueError. |
| Types.FloatOrNull | src/types.rs:121-124 | NaN becomes Null, and any other float is kept. |
| Types.NumberToVrl | src/types.rs:116-128 | A number in i64 range becomes Integer with the same value. Otherwise it becomes a non-NaN Float or Null, never anything else. |
| Types.JsonToVrl | src/types.rs:112-141 | Null becomes Null and bool becomes Boolean. A number becomes its `NumberToVrl` value. A string becomes its UTF-8 bytes, which decode back to it. An array becomes the array of its items' conversions, and an object the map of its fields' conversions under the same keys. The result is never a timestamp or regex. |
| Types.VrlToPy | src/types.rs:144-177 | Null becomes None. Boolean, Integer and Float keep their value. Bytes become their lossy UTF-8 decoding, a Timestamp its display text and a Regex its pattern. An array becomes the list of its items' conversions. An object becomes a dict with one str key per field, in strictly increasing key order, each holding its field's conversion. |
| Utf8.Encode | src/types.rs:129 | A string's UTF-8 encoding has between 1 and 4 bytes per character. |
| Utf8.DecodeLossy | src/types.rs:150-153 | Lossy decoding produces at most one character per byte. |
| Utf8.DecodeEncode | src/types.rs:129 | Decoding the UTF-8 encoding of a string gives the string back. |
| Utf8.EncodeDecode | src/types.rs:150-153 | Well-formed UTF-8 bytes decode to a string that re-encodes to the same bytes. |
| Utf8.EncodeInjective | src/types.rs:129 | Distinct strings have distinct encodings. |
| KeyOrder.SortedKeys | src/types.rs:169-174 | A VRL object's keys come out strictly increasing, each once, and exactly the map's keys. |
| KeyOrder.SortedUnique | src/types.rs:169-174 | Two strictly increasing key sequences with the same members are equal. |
| TypeProperties.PyToJsonSucceeds | src/types.rs:180-211 | A nested host value converts exactly when every int fits in i64 or converts to a float, every dict key is a str, and no unsupported object occurs at any depth. |
| TypeProperties.DictToJsonSucceeds | src/types.rs:193-199 | The dict loop succeeds exactly when every remaining entry has a str key and a convertible value. |
| TypeProperties.ListToJsonSucceeds | src/types.rs:200-205 | The list loop succeeds exactly when every remaining item converts. |
| TypeProperties.PyToVrlSucceeds | src/types.rs:73-109 | An event converts exactly when it is convertible. A top-level float must render to parseable text, and a dict or list must nest less than 128 deep. Every failure is a TypeError or a ValueError. An event other than an int or float with a non-str key or an unsupported object at any depth fails with a TypeError, and an unsupported object at the top with TypeError "Unsupported Python type for VRL conversion". A convertible dict or list nested too deep fails with ValueError "recursion limit exceeded". |
| TypeProperties.NestingLimit | src/types.rs:105-106 | `None` wrapped in n lists converts exactly when n is below 128. Otherwise the model fails with ValueError "recursion limit exceeded" (nesting deep enough to exhaust the native stack is left out). |
| TypeProperties.NestedListJson | src/types.rs:200-205 | `None` wrapped in n lists becomes null wrapped in n JSON arrays. |
| TypeProperties.NestedArrayDepth | src/types.rs:105-106 | Null wrapped in n arrays is within nesting depth d exactly when n <= d. |
| TypeProperties.FirstBadKeyIsTheError | src/types.rs:195-196 | The error for a dict is the key error of its first non-str key, when every entry before it converts. |
| TypeProperties.DictToJsonAll | src/types.rs:193-199 | For distinct str keys that all convert, each key ends up holding its own converted value. The key set is exactly the dict's keys. |
| TypeProperties.ListToJsonAll | src/types.rs:200-205 | For items that all convert, the JSON array holds each item's conversion at the same position. |
| TypeProperties.PyToJsonFinite | src/types.rs:187-190 | The JSON of a host value never holds a NaN or an infinity. |
| TypeProperties.DictToJsonFinite | src/types.rs:193-199 | The dict loop adds no NaN or infinity to its accumulator. |
| TypeProperties.ListToJsonFinite | src/types.rs:200-205 | The list loop adds no NaN or infinity to its accumulator. |
| TypeProperties.RereadExact | src/types.rs:92-106 | Writing JSON as text and reading it back changes nothing when the floats in that JSON read back exactly, and so whenever it holds no float. |
| TypeProperties.EventJsonAgrees | src/types.rs:73-106 | Apart from floats and ints outside i64 at the top, the top-level path yields the same JSON as the nested one. This needs the JSON to nest less than 128 deep and its own floats, if any, to read back exactly. |
| TypeProperties.DepthThroughJsonToVrl | src/types.rs:112-141 | A JSON value and its VRL conversion nest equally deep. |
| TypeProperties.SafeDepth | src/types.rs:180-211 | The JSON of a JSON-safe host value nests no deeper than the value. |
| TypeProperties.SafeDepthList | src/types.rs:200-205 | The same, for a list. |
| TypeProperties.SafeDepthDict | src/types.rs:193-199 | The same, for a dict. |
| TypeProperties.VrlRoundTripNested | src/types.rs:144-177 | A representable VRL value (no timestamp or regex, well-formed bytes, i64 integers, finite floats) goes out to the host and back in unchanged. |
| TypeProperties.VrlRoundTrip | src/types.rs:73-177 | A representable VRL value other than a top-level float, nested less than 128 deep, converts to a host value and back to itself when its own floats, if any, read back exactly. |
| TypeProperties.SafeIsRepresentable | src/types.rs:180-211 | A JSON-safe host value converts, and into a representable VRL value. |
| TypeProperties.HostRoundTrip | src/types.rs:73-177 | The host value handed back for a JSON-safe event, nested less than 128 deep, converts to the same VRL value the event did, when the event's own floats, if any, read back exactly. |
| TypeProperties.HostRoundTripExactNested | src/types.rs:112-177 | A JSON-safe nested host value whose dicts are in key order comes back from VRL identical. |
| TypeProperties.HostRoundTripExact | tests/test_basic.py:16-27 | A JSON-safe event that is not a bare float, with dicts in key order and nested less than 128 deep, converts in and back out to an identical value, when its own floats, if any, read back exactly. |
| TypeProperties.KeysFromCount | src/types.rs:193-199 | Distinct str keys are as many as their entries. |
| TypeProperties.SameNested | src/types.rs:112-211 | A nested JSON-safe host value, in any dict order, comes back from VRL equal to itself up to the order of dict entries. |
| TypeProperties.SameList | src/types.rs:162-167 | The same, for a list. |
| TypeProperties.SameDict | src/types.rs:169-174 | The same, for a dict. |
| TypeProperties.DictFromObject | src/types.rs:169-174 | An object comes back as a dict equal, up to order, to a host dict whose distinct str keys are the object's keys and whose values come back equal to it. |
| TypeProperties.ConvertedMatch | src/types.rs:169-174 | Every key of the object is some entry's key, and there are as many entries as keys. |
| TypeProperties.ObjectEntries | src/types.rs:169-174 | The dict built for an object lists each key in key order with its field's conversion. |
| TypeProperties.ObjectMatches | src/types.rs:169-174 | Entries listing converted values in key order match, up to order, a dict whose values equal those converted values. |
| TypeProperties.HostRoundTripUpToOrder | tests/test_basic.py:16-27 | A JSON-safe event that is not a bare float and nests less than 128 deep converts in and back out to a value equal to it up to the order of dict entries, whatever that order, when its own floats, if any, read back exactly. |
| TypeProperties.FloatFreeRoundTrip | tests/test_basic.py:16-27 | For every float parser, a JSON-safe event without floats nested less than 128 deep converts in and back out equal to itself up to dict order, and identical when its dicts are in key order. |
| TypeProperties.FloatFreeReadsBack | src/types.rs:180-211 | A host value without floats or ints beyond i64 puts no float into JSON that must read back. |
| TypeProperties.VrlFloatFreeReadsBack | src/types.rs:144-177 | A VRL value without floats has no float that must read back. |
| TypeProperties.PyToJsonReadsBack | src/types.rs:180-211 | If a host value's own floats read back, so do the floats of its JSON. |
| TypeProperties.DictToJsonReadsBack | src/types.rs:193-199 | The dict loop adds only floats of the dict's values to its accumulator. |
| TypeProperties.ListToJsonReadsBack | src/types.rs:200-205 | The list loop adds only floats of the list's items to its accumulator. |
| TypeProperties.FloatsThroughJsonToVrl | src/types.rs:112-141 | For JSON without NaN or infinities, its floats read back if those of its VRL conversion do. |
| TypeProperties.SafeReadsBack | src/types.rs:112-211 | A JSON-safe host value whose floats read back converts to a VRL value whose floats read back. |
| ConversionLoops.PyDictToJson | src/types.rs:193-199 | The dict for-loop computes the recursive dict conversion, including its first error. |
| ConversionLoops.PyListToJson | src/types.rs:200-205 | The list for-loop computes the recursive list conversion, including its first error. |
| ConversionLoops.JsonObjectToVrl | src/types.rs:133-138 | The object for-loop builds the converted map of every field. |
| ConversionLoops.VrlArrayToPy | src/types.rs:162-167 | The array for-loop appends each item's conversion in order. |
| ConversionLoops.VrlObjectToPy | src/types.rs:169-174 | The object for-loop sets one item per field, in key order. |

## Left out

- The VRL language: parsing, type checking, the standard library and the interpreter. `compile_with_state` and `Runtime::resolve` are oracle functions in `Runtime.Engine`. `resolve` is taken to be deterministic in its target, program and timezone.
- RuntimeProperties.CacheTransparent: it rests on `resolve` being a function of target, program and timezone. A VRL program that reads the clock (`now()`) or draws random values (`uuid_v4()`, `random_int()` and the like) can answer differently from call to call. The model cannot express such a program, and the lemma claims nothing about it.
- RuntimeProperties.CallsIndependent: it rests on `resolve` being a function of target, program and timezone. A VRL program that reads the clock (`now()`) or draws random values (`uuid_v4()`, `random_int()` and the like) can answer differently from call to call. The model cannot express such a program, and the lemma claims nothing about it.
- RuntimeProperties.RunIsExecute: it rests on `resolve` being a function of target, program and timezone. A VRL program that reads the clock (`now()`) or draws random values (`uuid_v4()`, `random_int()` and the like) can answer differently from call to call. The model cannot express such a program, and the lemma claims nothing about it.
- Diagnostic rendering (`Formatter`, plain and coloured). It is the oracle `Engine.render`, and only its inputs are modelled.
- The IANA timezone database. It is the predicate `Engine.isTimeZone`.
- Wall-clock timing. `elapsed_ms` is not part of `ExecResult`, and `std::time::Instant` is not modelled.
- `__repr__` of `VRLRuntime`, `VRLResult` and `VRLDiagnostic`, and `VRLDiagnostic.__str__`: formatting only.
- Float numerics. Floats are opaque IEEE bit patterns; only finiteness and NaN are decided.
  - The conversion of an out-of-range Python int to a float is the oracle `FloatOps.toF64`.
  - Rust's float display followed by JSON parsing is the oracle `FloatOps.displayReparse`.
- The JSON text between `py_to_vrl_value` and `serde_json::from_str` is not modelled character by character. The model keeps the two effects that can change the value. The first is the parser's nesting limit of 128 (`Types.ParseBack`). The second is the reading back of nested floats (`FloatOps.reparse`). For null, bool, i64, str and the shape of dicts and lists, the text reads back to the same JSON value.
- The position suffix of the parser's message. `serde_json` appends " at line 1 column N" to "recursion limit exceeded", and the model keeps only the fixed part.
- The float parser of `serde_json`. Without its `float_roundtrip` feature it parses floats on a fast path that may be off by one unit in the last place, so the model leaves the reading back of nested floats to the oracle `FloatOps.reparse`. The round-trip lemmas ask only that the event's own floats read back exactly (`TypeProperties.PyFloatsReadBack`, `VrlFloatsReadBack`, `ReadsBack`). An event without floats meets that for every parser (`TypeProperties.FloatFreeRoundTrip`).
- TypeProperties.EventJsonAgrees: for a value with floats it is proved only when those floats read back exactly, as the line above says. For a value without floats it assumes nothing of the parser.
- TypeProperties.VrlRoundTrip: for a value with floats it is proved only when those floats read back exactly, as the line above says. For a value without floats it assumes nothing of the parser.
- TypeProperties.HostRoundTrip: for a value with floats it is proved only when those floats read back exactly, as the line above says. For a value without floats it assumes nothing of the parser.
- TypeProperties.HostRoundTripExact: for a value with floats it is proved only when those floats read back exactly, as the line above says. For a value without floats it assumes nothing of the parser.
- TypeProperties.HostRoundTripUpToOrder: for a value with floats it is proved only when those floats read back exactly, as the line above says. For a value without floats it assumes nothing of the parser.
- RuntimeProperties.IdentityProgramEchoesEvent: for a value with floats it is proved only when those floats read back exactly, as the line above says. For a value without floats it assumes nothing of the parser.
- RuntimeProperties.IdentityProgramEchoesEventUpToOrder: for a value with floats it is proved only when those floats read back exactly, as the line above says. For a value without floats it assumes nothing of the parser.
- Host values are finite trees. A list or dict that contains itself makes `py_to_json_value` recurse until the Rust stack overflows, and such values cannot be written as `PyValue`.
- NestingLimit: the model has no native stack. `py_to_json_value` recurses once per level before the parser sees any text, so a finite value nested deep enough (tens of thousands of levels) overflows the Rust stack and aborts the process instead of raising the parser's ValueError.
- TypeProperties.HostRoundTripExact: it promises an identical value only for dicts in key order, because VRL objects come back sorted by key. For any order, `TypeProperties.HostRoundTripUpToOrder` proves equality as the host compares dicts.
- Host objects that define `__index__` or `__float__`, and subclasses of `str`, `dict` or `list`. `PyOther` stands for an object from which no extraction succeeds.
- Python strings with lone surrogates. Strings are sequences of Unicode scalar values.
- PyO3 allocation failures when building lists and dicts. `vrl_value_to_py` is total in the model.
- Module registration, exception classes and packaging (src/lib.rs, src/error.rs, python/vrl_python/__init__.py).
- Runtime.ExecuteStep: its own `ensures` do not describe the successful result. `RuntimeProperties.ExecuteSucceeds` states it: the converted target and value of `resolve` on the fresh target.
