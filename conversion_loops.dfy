/**
 * The for-loops with which the conversions build their dicts, lists, maps
 * and arrays, each shown to compute what the recursive definitions in
 * module Types say.
 */
module ConversionLoops {
  import opened Wrappers
  import opened Types
  import KeyOrder
  import TypeProperties

  /** The dict branch of `py_to_json_value`: entries in iteration order,
      the key extracted before its value is converted, the first failure
      returned. */
  method PyDictToJson(ops: FloatOps, d: PyValue) returns (r: Result<map<string, JsonValue>, PyErr>)
    requires d.PyDict?
    ensures r == DictToJson(ops, d, 0, map[])
  {
    var fields: map<string, JsonValue> := map[];
    var i := 0;
    while i < |d.items|
      invariant 0 <= i <= |d.items|
      invariant DictToJson(ops, d, i, fields) == DictToJson(ops, d, 0, map[])
    {
      var (key, value) := d.items[i];
      if !key.PyStr? {
        return Failure(KeyNotStr(key));
      }
      var json := PyToJson(ops, value);
      if json.Failure? {
        return Failure(json.error);
      }
      fields := fields[key.s := json.value];
      i := i + 1;
    }
    r := Success(fields);
  }

  /** The list branch of `py_to_json_value`: items pushed in order, the
      first failure returned. */
  method PyListToJson(ops: FloatOps, l: PyValue) returns (r: Result<seq<JsonValue>, PyErr>)
    requires l.PyList?
    ensures r == ListToJson(ops, l, 0, [])
  {
    var elems: seq<JsonValue> := [];
    var i := 0;
    while i < |l.elems|
      invariant 0 <= i <= |l.elems|
      invariant ListToJson(ops, l, i, elems) == ListToJson(ops, l, 0, [])
    {
      var json := PyToJson(ops, l.elems[i]);
      if json.Failure? {
        return Failure(json.error);
      }
      elems := elems + [json.value];
      i := i + 1;
    }
    r := Success(elems);
  }

  /** The object branch of `json_to_vrl_value`: every field inserted, in
      key order, converted. */
  method JsonObjectToVrl(ops: FloatOps, fields: map<string, JsonValue>) returns (m: map<string, VrlValue>)
    ensures m == JsonToVrl(ops, JObject(fields)).fields
  {
    var keys := KeyOrder.SortedKeys(fields.Keys);
    m := map[];
    var i := 0;
    while i < |keys|
      invariant 0 <= i <= |keys|
      invariant forall k :: 0 <= k < i ==> keys[k] in m
      invariant forall key :: key in m ==> key in fields && m[key] == JsonToVrl(ops, fields[key])
    {
      m := m[keys[i] := JsonToVrl(ops, fields[keys[i]])];
      i := i + 1;
    }
    forall key | key in fields ensures key in m {
      var k :| 0 <= k < |keys| && keys[k] == key;
    }
    TypeProperties.ObjectBack(ops, m, fields);
  }

  /** The array branch of `vrl_value_to_py`: each item appended in order. */
  method VrlArrayToPy(xs: seq<VrlValue>) returns (list: seq<PyValue>)
    ensures list == VrlToPy(Array(xs)).elems
  {
    list := [];
    var i := 0;
    while i < |xs|
      invariant 0 <= i <= |xs|
      invariant |list| == i
      invariant forall k :: 0 <= k < i ==> list[k] == VrlToPy(xs[k])
    {
      list := list + [VrlToPy(xs[i])];
      i := i + 1;
    }
  }

  /** The object branch of `vrl_value_to_py`: one `set_item` per field, in
      the map's key order. */
  method VrlObjectToPy(m: map<string, VrlValue>) returns (items: seq<(PyValue, PyValue)>)
    ensures items == VrlToPy(Object(m)).items
  {
    var keys := KeyOrder.SortedKeys(m.Keys);
    items := [];
    var i := 0;
    while i < |keys|
      invariant 0 <= i <= |keys|
      invariant |items| == i
      invariant forall k :: 0 <= k < i ==> items[k] == (PyStr(keys[k]), VrlToPy(m[keys[k]]))
    {
      items := items + [(PyStr(keys[i]), VrlToPy(m[keys[i]]))];
      i := i + 1;
    }
  }
}
