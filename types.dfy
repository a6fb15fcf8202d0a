/**
 * The value conversions of the binding: a host (Python) value becomes a JSON
 * value under a fixed type-dispatch order, JSON becomes a VRL `Value`, and a
 * VRL `Value` becomes a host value again.
 */
module Types {
  import opened Wrappers
  import opened Utf8
  import KeyOrder

  /** An IEEE 754 binary64 number, kept as its bit pattern. */
  datatype F64 = F64(bits: bv64)

  predicate IsFinite(f: F64) {
    f.bits & 0x7FF0_0000_0000_0000 != 0x7FF0_0000_0000_0000
  }

  predicate IsNaN(f: F64) {
    !IsFinite(f) && f.bits & 0x000F_FFFF_FFFF_FFFF != 0
  }

  const I64Min: int := -0x8000_0000_0000_0000
  const I64Max: int := 0x7FFF_FFFF_FFFF_FFFF

  predicate InI64(i: int) {
    I64Min <= i <= I64Max
  }

  /**
   * A host value, by the extraction that succeeds on it. A dict is its
   * entries in iteration order (keys may be any hashable value); `PyOther`
   * stands for every object that is none of the others (tuple, set, bytes,
   * user classes).
   */
  datatype PyValue =
    | PyNone
    | PyBool(b: bool)
    | PyInt(i: int)
    | PyFloat(f: F64)
    | PyStr(s: string)
    | PyDict(items: seq<(PyValue, PyValue)>)
    | PyList(elems: seq<PyValue>)
    | PyOther(typeName: string)

  /** A `serde_json::Number`: an integer (i64 or u64) or a finite float. */
  datatype JsonNumber = JInt(i: int) | JFloat(f: F64)

  /** A `serde_json::Value`; objects are keyed by string, order irrelevant. */
  datatype JsonValue =
    | JNull
    | JBool(b: bool)
    | JNumber(n: JsonNumber)
    | JString(s: string)
    | JArray(elems: seq<JsonValue>)
    | JObject(fields: map<string, JsonValue>)

  /** A VRL timestamp (a UTC date and time), observed only through its
      display form. */
  datatype DateTime = DateTime(display: string)

  /** VRL's `Value`. */
  datatype VrlValue =
    | Null
    | Boolean(b: bool)
    | Integer(i: int)
    | Float(f: F64)
    | Bytes(bytes: seq<Byte>)
    | Timestamp(t: DateTime)
    | Regex(pattern: string)
    | Array(elems: seq<VrlValue>)
    | Object(fields: map<string, VrlValue>)

  /** The host exceptions the binding raises. */
  datatype PyErr = ValueError(message: string) | TypeError(message: string) | RuntimeError(message: string)

  /**
   * Numeric conversions done by code outside the model: `toF64` is the
   * host's `float(i)` (also Rust's `i as f64`), None when it overflows;
   * `displayReparse` is Rust's `f.to_string()` read back by
   * `serde_json::from_str`, failing with the parser's message; `reparse`
   * is a finite float inside a dict or list, written by `serde_json` and
   * read back by its parser.
   */
  datatype FloatOps = FloatOps(
    toF64: int -> Option<F64>,
    displayReparse: F64 -> Result<JsonNumber, string>,
    reparse: F64 -> F64)

  const UnsupportedNested: string := "Unsupported Python type"
  const UnsupportedEvent: string := "Unsupported Python type for VRL conversion"

  function TypeName(v: PyValue): string {
    match v
    case PyNone => "NoneType"
    case PyBool(_) => "bool"
    case PyInt(_) => "int"
    case PyFloat(_) => "float"
    case PyStr(_) => "str"
    case PyDict(_) => "dict"
    case PyList(_) => "list"
    case PyOther(name) => name
  }

  /** The error of extracting a `String` from a dict key that is not a str. */
  function KeyNotStr(key: PyValue): PyErr {
    TypeError("'" + TypeName(key) + "' object cannot be converted to 'PyString'")
  }

  /** `Number::from_f64(f).unwrap_or(Number::from(0))`. */
  function JsonFromF64(f: F64): (n: JsonNumber)
    ensures IsFinite(f) <==> n == JFloat(f)
    ensures !IsFinite(f) <==> n == JInt(0)
  {
    if IsFinite(f) then JFloat(f) else JInt(0)
  }

  /** `py_to_json_value`: the first extraction that succeeds decides. */
  function PyToJson(ops: FloatOps, v: PyValue): (r: Result<JsonValue, PyErr>)
    ensures r.Failure? ==> r.error.TypeError?
    ensures v.PyOther? ==> r.Failure?
    ensures r.Success? ==> (v.PyNone? <==> r.value.JNull?)
    ensures r.Success? ==> (v.PyBool? <==> r.value.JBool?)
    ensures r.Success? ==> (v.PyInt? || v.PyFloat? <==> r.value.JNumber?)
    ensures r.Success? ==> (v.PyStr? <==> r.value.JString?)
    ensures r.Success? ==> (v.PyDict? <==> r.value.JObject?)
    ensures r.Success? ==> (v.PyList? <==> r.value.JArray?)
    decreases v, 1
  {
    match v
    case PyNone => Success(JNull)
    case PyBool(b) => Success(JBool(b))
    case PyInt(i) =>
      if InI64(i) then Success(JNumber(JInt(i)))
      else if ops.toF64(i).Some? then Success(JNumber(JsonFromF64(ops.toF64(i).value)))
      else Failure(TypeError(UnsupportedNested))
    case PyFloat(f) => Success(JNumber(JsonFromF64(f)))
    case PyStr(s) => Success(JString(s))
    case PyDict(_) =>
      var fields :- DictToJson(ops, v, 0, map[]);
      Success(JObject(fields))
    case PyList(_) =>
      var elems :- ListToJson(ops, v, 0, []);
      Success(JArray(elems))
    case PyOther(_) => Failure(TypeError(UnsupportedNested))
  }

  /** The loop over a dict's entries from index i on: the key is extracted
      before the value is converted, and a later key overwrites an earlier. */
  function DictToJson(ops: FloatOps, d: PyValue, i: nat, acc: map<string, JsonValue>)
    : (r: Result<map<string, JsonValue>, PyErr>)
    requires d.PyDict? && i <= |d.items|
    ensures r.Failure? ==> r.error.TypeError?
    decreases d, 0, |d.items| - i
  {
    if i == |d.items| then Success(acc)
    else
      var entry := d.items[i];
      assert entry in d.items;
      if !entry.0.PyStr? then Failure(KeyNotStr(entry.0))
      else
        var value :- PyToJson(ops, entry.1);
        DictToJson(ops, d, i + 1, acc[entry.0.s := value])
  }

  /** The loop over a list's items from index i on. */
  function ListToJson(ops: FloatOps, l: PyValue, i: nat, acc: seq<JsonValue>)
    : (r: Result<seq<JsonValue>, PyErr>)
    requires l.PyList? && i <= |l.elems|
    ensures r.Failure? ==> r.error.TypeError?
    ensures r.Success? ==> |r.value| == |acc| + |l.elems| - i
    decreases l, 0, |l.elems| - i
  {
    if i == |l.elems| then Success(acc)
    else
      var value :- PyToJson(ops, l.elems[i]);
      ListToJson(ops, l, i + 1, acc + [value])
  }

  /**
   * The JSON value `py_to_vrl_value` parses back from the text it renders
   * for an event. Rendering then parsing leaves JSON unchanged, except for a
   * top-level float, whose text is Rust's display form of it.
   */
  function EventJson(ops: FloatOps, v: PyValue): (r: Result<JsonValue, PyErr>)
    ensures r.Failure? ==> r.error.TypeError? || r.error.ValueError?
    ensures r.Failure? && r.error.ValueError? ==>
              v.PyFloat? || v.PyInt? || r.error == ValueError(RecursionLimitExceeded)
    ensures v.PyOther? ==> r == Failure(TypeError(UnsupportedEvent))
  {
    match v
    case PyNone => Success(JNull)
    case PyBool(b) => Success(JBool(b))
    case PyInt(i) =>
      if InI64(i) then Success(JNumber(JInt(i)))
      else if ops.toF64(i).Some? then FloatText(ops, ops.toF64(i).value)
      else Failure(TypeError(UnsupportedEvent))
    case PyFloat(f) => FloatText(ops, f)
    case PyStr(s) => Success(JString(s))
    case PyDict(_) =>
      var fields :- DictToJson(ops, v, 0, map[]);
      ParseBack(ops, JObject(fields))
    case PyList(_) =>
      var elems :- ListToJson(ops, v, 0, []);
      ParseBack(ops, JArray(elems))
    case PyOther(_) => Failure(TypeError(UnsupportedEvent))
  }

  /** `serde_json`'s parser refuses arrays and objects nested this deep. */
  const RecursionLimit: nat := 128

  const RecursionLimitExceeded: string := "recursion limit exceeded"

  /** The value nests at most d arrays and objects inside one another. */
  predicate WithinDepth(j: JsonValue, d: nat) {
    match j
    case JArray(xs) => d > 0 && forall x | x in xs :: WithinDepth(x, d - 1)
    case JObject(m) => d > 0 && forall key | key in m :: WithinDepth(m[key], d - 1)
    case _ => true
  }

  /** A JSON value written as text and read back: the same tree, each
      float as the parser reads its written form. */
  function Reread(ops: FloatOps, j: JsonValue): (r: JsonValue)
    ensures j.JArray? <==> r.JArray?
    ensures j.JArray? ==> |r.elems| == |j.elems|
    ensures j.JObject? <==> r.JObject?
    ensures j.JObject? ==> r.fields.Keys == j.fields.Keys
    ensures !j.JArray? && !j.JObject? && !(j.JNumber? && j.n.JFloat?) ==> r == j
    ensures j.JNumber? && j.n.JFloat? ==> r == JNumber(JFloat(ops.reparse(j.n.f)))
    ensures j.JArray? ==> forall k :: 0 <= k < |j.elems| ==> r.elems[k] == Reread(ops, j.elems[k])
    ensures j.JObject? ==> forall key | key in j.fields :: r.fields[key] == Reread(ops, j.fields[key])
  {
    match j
    case JNumber(JFloat(f)) => JNumber(JFloat(ops.reparse(f)))
    case JArray(xs) => JArray(seq(|xs|, k requires 0 <= k < |xs| => Reread(ops, xs[k])))
    case JObject(m) => JObject(map key | key in m :: Reread(ops, m[key]))
    case _ => j
  }

  /** `serde_json::from_str` applied to the text of a dict or list: it fails
      with a ValueError once the nesting reaches the recursion limit. */
  function ParseBack(ops: FloatOps, j: JsonValue): (r: Result<JsonValue, PyErr>)
    ensures r.Success? <==> WithinDepth(j, RecursionLimit - 1)
    ensures r.Failure? ==> r.error == ValueError(RecursionLimitExceeded)
    ensures r.Success? ==> r.value == Reread(ops, j)
  {
    if WithinDepth(j, RecursionLimit - 1) then Success(Reread(ops, j))
    else Failure(ValueError(RecursionLimitExceeded))
  }

  function FloatText(ops: FloatOps, f: F64): (r: Result<JsonValue, PyErr>)
    ensures r.Failure? ==> r.error.ValueError?
  {
    match ops.displayReparse(f)
    case Success(n) => Success(JNumber(n))
    case Failure(message) => Failure(ValueError(message))
  }

  /** `py_to_vrl_value`. */
  function PyToVrl(ops: FloatOps, v: PyValue): (r: Result<VrlValue, PyErr>)
    ensures r.Failure? ==> r.error.TypeError? || r.error.ValueError?
    ensures r.Failure? && r.error.ValueError? ==>
              v.PyFloat? || v.PyInt? || r.error == ValueError(RecursionLimitExceeded)
    ensures v.PyOther? ==> r == Failure(TypeError(UnsupportedEvent))
    ensures r.Success? <==> EventJson(ops, v).Success?
    ensures r.Success? ==> !r.value.Timestamp? && !r.value.Regex?
  {
    var json :- EventJson(ops, v);
    Success(JsonToVrl(ops, json))
  }

  /** `NotNan::new(f)`, with NaN becoming Null. */
  function FloatOrNull(f: F64): (r: VrlValue)
    ensures r.Null? <==> IsNaN(f)
    ensures r.Float? ==> r.f == f
  {
    if IsNaN(f) then Null else Float(f)
  }

  /** The number branch of `json_to_vrl_value`: `as_i64`, then `as_f64`. */
  function NumberToVrl(ops: FloatOps, n: JsonNumber): (r: VrlValue)
    ensures n.JInt? && InI64(n.i) <==> r.Integer?
    ensures r.Integer? ==> r.i == n.i
    ensures r.Float? ==> !IsNaN(r.f)
    ensures n.JFloat? ==> r == FloatOrNull(n.f)
    ensures r.Null? || r.Integer? || r.Float?
  {
    match n
    case JInt(i) =>
      if InI64(i) then Integer(i)
      else if ops.toF64(i).Some? then FloatOrNull(ops.toF64(i).value)
      else Null
    case JFloat(f) => FloatOrNull(f)
  }

  /** `json_to_vrl_value`. */
  function JsonToVrl(ops: FloatOps, j: JsonValue): (r: VrlValue)
    ensures j.JNull? ==> r.Null?
    ensures j.JBool? <==> r.Boolean?
    ensures j.JBool? ==> r.b == j.b
    ensures j.JString? <==> r.Bytes?
    ensures j.JNumber? ==> r == NumberToVrl(ops, j.n)
    ensures j.JString? ==> r.bytes == Encode(j.s) && DecodeLossy(r.bytes) == j.s
    ensures j.JArray? <==> r.Array?
    ensures j.JArray? ==> |r.elems| == |j.elems|
    ensures j.JArray? ==> forall k :: 0 <= k < |j.elems| ==> r.elems[k] == JsonToVrl(ops, j.elems[k])
    ensures j.JObject? <==> r.Object?
    ensures j.JObject? ==> r.fields.Keys == j.fields.Keys
    ensures j.JObject? ==> forall key :: key in j.fields ==> r.fields[key] == JsonToVrl(ops, j.fields[key])
    ensures !r.Timestamp? && !r.Regex?
  {
    match j
    case JNull => Null
    case JBool(b) => Boolean(b)
    case JNumber(n) => NumberToVrl(ops, n)
    case JString(s) =>
      DecodeEncode(s);
      Bytes(Encode(s))
    case JArray(xs) => Array(seq(|xs|, k requires 0 <= k < |xs| => JsonToVrl(ops, xs[k])))
    case JObject(m) => Object(map key | key in m :: JsonToVrl(ops, m[key]))
  }

  /** `vrl_value_to_py`: object entries come out in the map's key order. */
  function VrlToPy(x: VrlValue): (r: PyValue)
    ensures x.Null? <==> r.PyNone?
    ensures x.Boolean? <==> r.PyBool?
    ensures x.Boolean? ==> r.b == x.b
    ensures x.Integer? <==> r.PyInt?
    ensures x.Integer? ==> r.i == x.i
    ensures x.Float? <==> r.PyFloat?
    ensures x.Float? ==> r.f == x.f
    ensures x.Bytes? || x.Timestamp? || x.Regex? <==> r.PyStr?
    ensures x.Bytes? ==> r.s == DecodeLossy(x.bytes)
    ensures x.Timestamp? ==> r.s == x.t.display
    ensures x.Regex? ==> r.s == x.pattern
    ensures x.Array? <==> r.PyList?
    ensures x.Array? ==> |r.elems| == |x.elems|
    ensures x.Array? ==> forall k :: 0 <= k < |x.elems| ==> r.elems[k] == VrlToPy(x.elems[k])
    ensures x.Object? <==> r.PyDict?
    ensures x.Object? ==> |r.items| == |x.fields|
    ensures x.Object? ==> forall k :: 0 <= k < |r.items| ==> r.items[k].0.PyStr? && r.items[k].0.s in x.fields
    ensures x.Object? ==> KeyOrder.StrictlySorted(DictKeys(r.items))
    ensures x.Object? ==> forall k :: 0 <= k < |r.items| ==> r.items[k].1 == VrlToPy(x.fields[r.items[k].0.s])
    ensures !r.PyOther?
  {
    match x
    case Null => PyNone
    case Boolean(b) => PyBool(b)
    case Integer(i) => PyInt(i)
    case Float(f) => PyFloat(f)
    case Bytes(b) => PyStr(DecodeLossy(b))
    case Timestamp(t) => PyStr(t.display)
    case Regex(p) => PyStr(p)
    case Array(xs) => PyList(seq(|xs|, k requires 0 <= k < |xs| => VrlToPy(xs[k])))
    case Object(m) =>
      var keys := KeyOrder.SortedKeys(m.Keys);
      var items := seq(|keys|, k requires 0 <= k < |keys| => (PyStr(keys[k]), VrlToPy(m[keys[k]])));
      assert DictKeys(items) == keys;
      PyDict(items)
  }

  /** The string keys of dict entries, in order (other keys as ""). */
  function DictKeys(items: seq<(PyValue, PyValue)>): (ks: seq<string>)
    ensures |ks| == |items|
    ensures forall k :: 0 <= k < |items| && items[k].0.PyStr? ==> ks[k] == items[k].0.s
  {
    seq(|items|, k requires 0 <= k < |items| => if items[k].0.PyStr? then items[k].0.s else "")
  }
}
